/**
 * The type byte NUL, which a call that has to wait takes for a type not yet read: exactly which
 * commands that arrive in pieces parse again from their own bytes.
 */
module NulTypes {
  import opened EntryLog
  import opened Decimal
  import opened Protocol
  import opened RoundTrip
  import opened Chunking
  import opened Reparse
  import opened ClientDrain

  // ---------------------------------------------------------------- the type of a command

  lemma {:induction false} FeedAllConserves(p: Parser, pieces: seq<string>)
    requires Boundary(p) && p.input == ""
    ensures Bytes(FeedAll(p, pieces).1) == Flat(pieces) || FeedAll(p, pieces).0 != Done
  {
    if pieces != [] {
      var front, s := pieces[..|pieces| - 1], pieces[|pieces| - 1];
      FeedAllConserves(p, front);
      var q := FeedAll(p, front).1;
      Assoc(q.current, q.input, s);
      ResolveConserves(Feed(q, s));
    }
  }

  lemma {:induction false} ArgsKeepType(p: Parser)
    ensures Args(p).1.commandType == p.commandType
    decreases |p.input|
  {
    if Available(p.input) {
      StepShrinks(p);
      var (o, q) := ArgStep(p);
      assert q.commandType == p.commandType;
      if o == Done && !(p.argvLen != -1 && q.argc == 0) { ArgsKeepType(q); }
    }
  }

  lemma AfterHeaderType(q: Parser)
    requires Available(q.input) && q.hasType && q.commandType == NUL && !q.complete
    requires AfterHeader(q).0 == Done && AfterHeader(q).1.complete
    ensures 2 <= |q.input| && AfterHeader(q).1.commandType == q.input[1]
  {
    if TypeStage(q).Proceed? { ArgsKeepType(TypeStage(q).parser); }
  }

  lemma HeaderProceeds(p: Parser)
    requires Boundary(p) && Resolve(p).0 == Done && Resolve(p).1.complete
    ensures Available(p.input) && HeaderStage(p).Proceed?
    ensures var q := HeaderStage(p).parser;
            && Resolve(p) == AfterHeader(q) && Available(q.input) && q.input == p.input[FirstLF(p.input) + 1..]
            && q.hasType == p.hasType && q.commandType == NUL && !q.complete
  {
    HeaderEats(p);
  }

  /** A command that one call completes has the type byte behind its first line. */
  lemma TypeOfCompleted(p: Parser)
    requires Boundary(p) && p.hasType && Resolve(p).0 == Done && Resolve(p).1.complete
    ensures var k := FirstLF(p.input); k + 2 < |p.input| && Resolve(p).1.commandType == p.input[k + 2]
  {
    HeaderProceeds(p);
    AfterHeaderType(HeaderStage(p).parser);
  }

  lemma NulAt(s: string, k: nat)
    requires NulTyped(s) && k == FirstLF(s)
    ensures k + 2 < |s| && s[k + 2] == NUL
  {
  }

  lemma NulTypedPrefix(s: string, rest: string, k: nat)
    requires NulTyped(s + rest) && k == FirstLF(s) && k + 2 < |s|
    ensures s[k + 2] == NUL
  {
    FirstLFOfPrefix(s, rest);
    NulAt(s + rest, k);
    CharOfPrefix(s, rest, k + 2);
  }

  lemma CharOfPrefix(s: string, rest: string, k: nat)
    requires k < |s|
    ensures (s + rest)[k] == s[k]
  {
  }

  /** However much of a NUL-typed stream completes a command, its type is NUL. */
  lemma CompletesNul(p: Parser, rest: string)
    requires Boundary(p) && p.hasType && NulTyped(p.input + rest) && Resolve(p).0 == Done && Resolve(p).1.complete
    ensures Resolve(p).1.commandType == NUL
  {
    TypeOfCompleted(p);
    NulTypedPrefix(p.input, rest, FirstLF(p.input));
  }

  lemma ForgottenIsNulTyped(p: Parser, pieces: seq<string>)
    requires Boundary(p) && p.input == "" && !Remembers(p, pieces)
    ensures p.hasType && NulTyped(Flat(pieces)) && LF in Flat(pieces)
  {
    var k :| 0 <= k < |pieces| && Forgets(Feed(p, Flat(pieces[..k])));
    var s := Flat(pieces[..k]);
    assert Feed(p, s).input == s;
    NulReadIsNulTyped(Feed(p, s));
    var t := FlatRest(pieces, k);
    NulTypedMore(s, t);
  }

  lemma {:induction false} FlatRest(pieces: seq<string>, k: nat) returns (t: string)
    requires k <= |pieces|
    ensures Flat(pieces) == Flat(pieces[..k]) + t
  {
    if k == |pieces| {
      t := "";
      assert pieces[..k] == pieces;
    } else {
      var front := pieces[..|pieces| - 1];
      assert front[..k] == pieces[..k];
      var t' := FlatRest(front, k);
      t := t' + pieces[|pieces| - 1];
    }
  }

  // ---------------------------------------------------------------- a type byte NUL read twice

  predicate Grows(p: Parser, q: Parser) { p.current <= q.current && p.argv <= q.argv && q.wrap == p.wrap }

  lemma StepGrows(p: Parser)
    requires Available(p.input)
    ensures Grows(p, ArgStep(p).1)
  {
  }

  lemma GrowsOn(p: Parser, q: Parser, r: Parser)
    requires Grows(p, q) && Grows(q, r)
    ensures Grows(p, r)
  {
  }

  lemma {:induction false} ArgsGrow(p: Parser)
    ensures Grows(p, Args(p).1)
    decreases |p.input|
  {
    ArgsUnfold(p);
    if Available(p.input) {
      var q := ArgStep(p).1;
      StepGrows(p);
      if !Stops(p) {
        StepShrinks(p);
        ArgsGrow(q);
        GrowsOn(p, q, Args(q).1);
      }
    }
  }

  /** Inside a command: the argument count has been read. */
  predicate Inside(p: Parser) { p.argc > 0 && !p.complete && !p.wrap && p.hasType }

  /** What a call that ends well inside a command keeps. */
  predicate Onward(p: Parser, q: Parser) {
    && p.current <= q.current && p.argv <= q.argv && (q.complete || Inside(q))
    && (p.commandType != NUL ==> q.commandType == p.commandType)
  }

  lemma ResolveOnward(p: Parser)
    requires Inside(p) && Resolve(p).0 == Done
    ensures Onward(p, Resolve(p).1)
  {
    if Available(p.input) && TypeStage(p).Proceed? {
      var r := TypeStage(p).parser;
      ArgsCount(r);
      ArgsGrow(r);
    }
  }

  /** The pieces from a state inside a command: the first of them, then the others. */
  lemma {:induction false} FeedAllFront(r: Parser, s: string, rest: seq<string>)
    requires !r.complete && FeedAll(r, [s] + rest).0 == Done
    ensures Resolve(Feed(r, s)).0 == Done
    ensures FeedAll(r, [s] + rest) == FeedAll(Resolve(Feed(r, s)).1, rest)
  {
    var all := [s] + rest;
    if rest == [] {
      assert all[..0] == [] && all[0] == s;
    } else {
      var front := rest[..|rest| - 1];
      assert all[..|all| - 1] == [s] + front && all[|all| - 1] == rest[|rest| - 1];
      FeedAllFront(r, s, front);
    }
  }

  lemma {:induction false} FeedAllOnward(r: Parser, rest: seq<string>)
    requires (r.complete || Inside(r)) && FeedAll(r, rest).0 == Done
    ensures Onward(r, FeedAll(r, rest).1)
  {
    if rest != [] {
      var front := rest[..|rest| - 1];
      FeedAllOnward(r, front);
      var q := FeedAll(r, front).1;
      if !q.complete { ResolveOnward(Feed(q, rest[|rest| - 1])); }
    }
  }

  /** Type lines with NUL, one behind the other. */
  predicate NulLines(y: string) {
    |y| % 3 == 0 && forall j :: 0 <= j < |y| ==> y[j] == TypeLine(NUL)[j % 3]
  }

  lemma NulLinesMore(y: string)
    requires NulLines(y)
    ensures NulLines(y + TypeLine(NUL))
  {
  }

  /** The parser has read nothing but such type lines since it was r. */
  predicate Stuck(r: Parser, q: Parser, y: string) {
    NulLines(y) && q == r.(input := q.input, current := r.current + y)
  }

  /** Then come the type lines, and behind them the argument that r was waiting for, if it was. */
  predicate GoesOn(r: Parser, y: string, part: string, q: Parser) {
    && NulLines(y) && |y| >= 3 && r.current + y <= q.current
    && (r.argvLen != -1 ==>
          |part| == r.argvLen && r.current + y + part + [LF] <= q.current && r.argv + [part] <= q.argv)
  }

  lemma GoesOnLater(r: Parser, y: string, part: string, q: Parser, q': Parser)
    requires GoesOn(r, y, part, q) && q.current <= q'.current && q.argv <= q'.argv
    ensures GoesOn(r, y, part, q')
  {
  }

  lemma TypeLineTaken(q: Parser)
    requires Available(q.input) && q.hasType && q.commandType == NUL && Well(TypeStage(q))
    ensures q.input[0] == '#' && FirstLF(q.input) == 2
    ensures TypeStage(q) == ReturnIfDry(Consume(q.(commandType := q.input[1]), 3))
  {
  }

  lemma AfterTypeLine(q: Parser, h: Parser)
    requires Available(q.input) && TypeStage(q) == ReturnIfDry(h) && !h.wrap
    ensures AfterHeader(q) == if Available(h.input) then Args(h) else (Done, h)
  {
    ArgsGrow(h);
  }

  /** A call on a state that has read the type byte NUL takes a type line first, if it takes anything. */
  lemma SecondTypeLine(q: Parser)
    requires Inside(q) && q.commandType == NUL && Available(q.input) && Resolve(q).0 == Done
    ensures q.input[0] == '#' && FirstLF(q.input) == 2
    ensures var h := Consume(q.(commandType := q.input[1]), 3);
            Resolve(q) == if Available(h.input) then Args(h) else (Done, h)
  {
    assert HeaderStage(q) == Proceed(q);
    TypeLineTaken(q);
    AfterTypeLine(q, Consume(q.(commandType := q.input[1]), 3));
  }

  lemma NulLineTaken(r: Parser, q: Parser, y: string)
    requires Stuck(r, q, y) && 3 <= |q.input| && q.input[..3] == TypeLine(NUL) && q.commandType == NUL
    ensures Stuck(r, Consume(q.(commandType := NUL), 3), y + TypeLine(NUL))
  {
    NulLinesMore(y);
    Assoc(r.current, y, TypeLine(NUL));
  }

  /** The round that reads an argument. */
  lemma PartTaken(h: Parser)
    requires Available(h.input) && h.argvLen != -1 && ArgStep(h).0 == Done
    ensures 0 <= h.argvLen < |h.input| && h.input[h.argvLen] == LF
    ensures var part := h.input[..h.argvLen];
            ArgStep(h).1.current == h.current + part + [LF] && ArgStep(h).1.argv == h.argv + [part]
  {
    assert h.input[..h.argvLen + 1] == h.input[..h.argvLen] + [LF];
    Assoc(h.current, h.input[..h.argvLen], [LF]);
  }

  /** The round that reads an argument, and what the loop keeps of it. */
  lemma NextPart(h: Parser)
    requires h.argc > 0 && Available(h.input) && Args(h).0 == Done && h.argvLen != -1
    ensures 0 <= h.argvLen < |h.input| && h.input[h.argvLen] == LF && ArgStep(h).0 == Done
    ensures var part := h.input[..h.argvLen];
            && |part| == h.argvLen && h.current + part + [LF] <= Args(h).1.current && h.argv + [part] <= Args(h).1.argv
  {
    ArgsUnfold(h);
    PartTaken(h);
    ArgsGrow(ArgStep(h).1);
  }

  /** One call from there: stuck again, or on behind another type line. */
  lemma StuckCall(r: Parser, q: Parser, y: string) returns (y': string, part: string)
    requires Inside(q) && q.commandType == NUL && Stuck(r, q, y) && Available(q.input) && Resolve(q).0 == Done
    requires q.input[1] == NUL
    ensures var q' := Resolve(q).1;
            |y'| >= 3 && (Stuck(r, q', y') || GoesOn(r, y', part, q'))
  {
    SecondTypeLine(q);
    assert q.input[..3] == TypeLine(NUL);
    NulLineTaken(r, q, y);
    y', part := y + TypeLine(NUL), "";
    var h := Consume(q.(commandType := NUL), 3);
    if Available(h.input) {
      ArgsGrow(h);
      if h.argvLen != -1 {
        NextPart(h);
        part := h.input[..h.argvLen];
      }
    }
  }

  /** The byte behind the mark is the type that such a call leaves. */
  lemma TypeOfCall(q: Parser)
    requires Inside(q) && q.commandType == NUL && Available(q.input) && Resolve(q).0 == Done
    ensures 2 <= |q.input| && Resolve(q).1.commandType == q.input[1]
  {
    SecondTypeLine(q);
    ArgsKeepType(Consume(q.(commandType := q.input[1]), 3));
  }

  /** A state that has read the type byte NUL goes on behind at least one more type line, if it completes. */
  lemma {:induction false} StuckGoesOn(r: Parser, q: Parser, y: string, rest: seq<string>)
    returns (y': string, part: string)
    requires Inside(r) && r.commandType == NUL && Stuck(r, q, y)
    requires FeedAll(q, rest).0 == Done && FeedAll(q, rest).1.complete && FeedAll(q, rest).1.commandType == NUL
    ensures GoesOn(r, y', part, FeedAll(q, rest).1)
    decreases |rest|
  {
    assert rest != [];
    var s, others := rest[0], rest[1..];
    assert rest == [s] + others;
    FeedAllFront(q, s, others);
    var f := Feed(q, s);
    ResolveOnward(f);
    FeedAllOnward(Resolve(f).1, others);
    if Available(f.input) {
      TypeOfCall(f);
      y', part := StuckCall(r, f, y);
      if Stuck(r, Resolve(f).1, y') {
        y', part := StuckGoesOn(r, Resolve(f).1, y', others);
      } else {
        GoesOnLater(r, y', part, Resolve(f).1, FeedAll(q, rest).1);
      }
    } else {
      y', part := StuckGoesOn(r, f, y, others);
    }
  }

  // ---------------------------------------------------------------- and read in one call

  /** An argument that repeats the type lines before it consists of type lines, and part of one. */
  lemma {:induction false} Periodic(y: string, part: string, i: nat)
    requires NulLines(y) && |y| >= 3 && part == (y + part)[..|part|] && i < |part|
    ensures part[i] == TypeLine(NUL)[i % 3]
    decreases i
  {
    if i >= |y| {
      Periodic(y, part, i - |y|);
      assert part[i] == (y + part)[i] == part[i - |y|];
    } else {
      assert part[i] == (y + part)[i] == y[i];
    }
  }

  lemma PeriodicBoth(y: string, part: string, i: nat)
    requires NulLines(y) && |y| >= 3 && part == (y + part)[..|part|] && i < |y + part|
    ensures (y + part)[i] == TypeLine(NUL)[i % 3]
  {
    if i >= |y| { Periodic(y, part, i - |y|); }
  }

  /** If it ends at a line's end, a mark follows. */
  lemma MarkFollows(y: string, part: string)
    requires NulLines(y) && |y| >= 3 && part == (y + part)[..|part|] && (y + part)[|part|] == LF
    ensures (y + part)[|part| + 1] == '#'
  {
    PeriodicBoth(y, part, |part|);
    PeriodicBoth(y, part, |part| + 1);
  }

  /** A mark where a length is expected ends the loop, one way or another with bytes left over. */
  lemma MarkLeftOver(q: Parser)
    requires q.argvLen == -1 && q.input != "" && q.input[0] == '#'
    ensures Args(q).0 != Done || Args(q).1.input != ""
  {
    ArgsUnfold(q);
  }

  /** Without the second reading of the type, the loop fails, leaves bytes over, or finds another argument. */
  lemma OneCallDiffers(h: Parser, y: string, part: string)
    requires Inside(h) && NulLines(y) && |y| >= 3 && y <= h.input
    requires h.argvLen != -1 ==> |part| == h.argvLen && y + part + [LF] <= h.input
    ensures var (o, q) := Args(h);
            o != Done || q.input != "" || (h.argvLen != -1 && !(h.argv + [part] <= q.argv))
  {
    assert h.input[0] == y[0] == '#' && h.input[2] == y[2] == LF;
    if h.argvLen == -1 {
      MarkLeftOver(h);
    } else if Args(h).0 == Done {
      NextPart(h);
      PartDiffers(h, y, part);
    }
  }

  lemma OtherPart(argv: seq<string>, read: string, part: string, all: seq<string>)
    requires argv + [read] <= all && argv + [part] <= all
    ensures read == part
  {
    assert (argv + [read])[|argv|] == all[|argv|] == (argv + [part])[|argv|];
  }

  lemma PartDiffers(h: Parser, y: string, part: string)
    requires NulLines(y) && |y| >= 3 && |part| == h.argvLen && y + part + [LF] <= h.input
    requires Available(h.input) && ArgStep(h).0 == Done && h.input[h.argvLen] == LF
    requires h.argv + [h.input[..h.argvLen]] <= Args(h).1.argv
    ensures Args(h).0 != Done || Args(h).1.input != "" || !(h.argv + [part] <= Args(h).1.argv)
  {
    var n := h.argvLen;
    assert h.input[..n] == (y + part)[..n] && (y + part)[n] == h.input[n];
    if h.argv + [part] <= Args(h).1.argv {
      OtherPart(h.argv, h.input[..n], part, Args(h).1.argv);
      MarkFollows(y, part);
      PartLeft(h, y + part);
    }
  }

  lemma PartLeft(h: Parser, w: string)
    requires h.argvLen != -1 && Available(h.input) && ArgStep(h).0 == Done && 0 <= h.argvLen
    requires w <= h.input && h.argvLen + 1 < |w| && w[h.argvLen + 1] == '#'
    ensures Args(h).0 != Done || Args(h).1.input != ""
  {
    var q := ArgStep(h).1;
    assert q.input == h.input[h.argvLen + 1..] && q.input[0] == '#';
    ArgsUnfold(h);
    MarkLeftOver(q);
  }

  lemma AfterHeaderOn(h: Parser, t: string)
    requires h.argc > 0 && !h.complete && !h.wrap && h.hasType && h.commandType == NUL && Available(h.input)
    requires AfterHeader(h).0 == Done && !AfterHeader(h).1.complete && TypeStage(h).parser.commandType == NUL
    requires Available(AfterHeader(h).1.input + t)
    ensures Inside(AfterHeader(h).1) && AfterHeader(h).1.commandType == NUL
    ensures Available(h.input + t) && AfterHeader(Feed(h, t)) == Args(Feed(AfterHeader(h).1, t))
  {
    TypeMore(h, t);
    var r := TypeStage(h).parser;
    if TypeStage(h).Proceed? {
      AvailableMore(r.input, t);
      ArgsCount(r);
      ArgsGrow(r);
      ArgsMore(r, t);
    }
    ArgsGrow(Feed(AfterHeader(h).1, t));
  }

  /** A call that reads the type byte NUL and has to wait, given more at once: the argument loop goes on. */
  lemma ResolveOn(p: Parser, t: string)
    requires Boundary(p.(input := "")) && Forgets(p) && !p.wrap && Available(Resolve(p).1.input + t)
    ensures Inside(Resolve(p).1) && Resolve(p).1.commandType == NUL
    ensures Resolve(Feed(p, t)) == Args(Feed(Resolve(p).1, t))
  {
    HeaderMore(p, t);
    HeaderEats(p);
    AvailableMore(HeaderStage(p).parser.input, t);
    AfterHeaderOn(HeaderStage(p).parser, t);
  }

  lemma RemembersNext(p: Parser, pieces: seq<string>)
    requires pieces != []
    ensures var front := pieces[..|pieces| - 1];
            Remembers(p, front) && !Forgets(Feed(p, Flat(front))) ==> Remembers(p, pieces)
  {
    var front := pieces[..|pieces| - 1];
    forall k | 0 <= k < |pieces| && Remembers(p, front) && !Forgets(Feed(p, Flat(front)))
      ensures !Forgets(Feed(p, Flat(pieces[..k])))
    {
      if k < |front| { assert front[..k] == pieces[..k]; }
    }
  }

  lemma FrontOfFront(pieces: seq<string>, k: nat)
    requires k < |pieces|
    ensures pieces[..|pieces| - 1][..k] == pieces[..k]
  {
  }

  lemma {:induction false} FirstForget(p: Parser, pieces: seq<string>) returns (k: nat)
    requires !Remembers(p, pieces)
    ensures k < |pieces| && Forgets(Feed(p, Flat(pieces[..k]))) && Remembers(p, pieces[..k])
  {
    var front := pieces[..|pieces| - 1];
    RemembersNext(p, pieces);
    if Remembers(p, front) {
      k := |front|;
    } else {
      k := FirstForget(p, front);
      FrontOfFront(pieces, k);
    }
  }

  lemma {:induction false} FeedAllSplit(p: Parser, pieces: seq<string>, k: nat)
    requires k <= |pieces| && FeedAll(p, pieces).0 == Done
    ensures FeedAll(p, pieces[..k]).0 == Done
    ensures FeedAll(p, pieces) == FeedAll(FeedAll(p, pieces[..k]).1, pieces[k..])
  {
    if k == |pieces| {
      assert pieces[..k] == pieces && pieces[k..] == [];
    } else {
      var front := pieces[..|pieces| - 1];
      assert front[..k] == pieces[..k] && front[k..] == pieces[k..][..|pieces| - k - 1];
      FeedAllSplit(p, front, k);
    }
  }

  lemma BeforeLine(u: string, t: string, i: nat)
    requires LF !in u && i < |u + t| && (u + t)[i] == LF
    ensures |u| <= i
  {
  }

  lemma ShortRest(u: string, t: string, z: string, w: string)
    requires z + w == u + t && LF !in u && 3 <= |z| && z[2] == LF
    ensures u <= z
  {
    assert (z + w)[2] == z[2];
    BeforeLine(u, t, 2);
    assert u == (u + t)[..|u|] == (z + w)[..|u|] == z[..|u|];
  }

  lemma BehindPrefix(front: string, next: string, all: string)
    requires front + next <= all
    ensures all == front + all[|front|..] && next <= all[|front|..]
  {
    assert (front + next)[|front|..] == next;
  }

  lemma SameBehind(front: string, a: string, b: string)
    requires front + a == front + b
    ensures a == b
  {
    assert (front + a)[|front|..] == a && (front + b)[|front|..] == b;
  }

  /** What the command consumed behind r: the type lines, the argument, and first of all what r left over. */
  lemma RestOf(r: Parser, q: Parser, y: string, part: string, t: string)
    requires GoesOn(r, y, part, q) && LF !in r.input && q.current + q.input == Bytes(r) + t
    ensures var z := q.current[|r.current|..];
            && q.current == r.current + z && y <= z && r.input <= z
            && (r.argvLen != -1 ==> y + part + [LF] <= z)
  {
    BehindPrefix(r.current, y, q.current);
    var z := q.current[|r.current|..];
    if r.argvLen != -1 {
      Assoc(r.current, y, part);
      Assoc(r.current, y + part, [LF]);
      BehindPrefix(r.current, y + part + [LF], q.current);
    }
    Assoc(r.current, z, q.input);
    Assoc(r.current, r.input, t);
    SameBehind(r.current, z + q.input, r.input + t);
    assert z[2] == y[2];
    ShortRest(r.input, t, z, q.input);
  }

  /** The bytes of a command whose type byte NUL was read twice are another command, or none. */
  lemma TwiceDiffers(p: Parser, a: string, q: Parser, y: string, part: string, t: string)
    requires Boundary(p) && p.input == "" && !p.wrap && Forgets(Feed(p, a))
    requires var r := Resolve(Feed(p, a)).1;
             Inside(r) && GoesOn(r, y, part, q) && q.current + q.input == a + t
    ensures Resolve(Feed(p, q.current)) != (Done, q.(input := ""))
  {
    var r := Resolve(Feed(p, a)).1;
    ResolveConserves(Feed(p, a));
    assert Bytes(r) == a;
    IncompleteRunsDry(Feed(p, a));
    RestOf(r, q, y, part, t);
    var z := q.current[|r.current|..];
    var more := z[|r.input|..];
    assert z == r.input + more;
    Assoc(r.current, r.input, more);
    LoopTwice(p, a, r, z, more, y);
    OneCallDiffers(r.(input := z), y, part);
    OtherParser(Args(r.(input := z)), q, r.argvLen != -1, r.argv + [part]);
  }

  lemma LoopTwice(p: Parser, a: string, r: Parser, z: string, more: string, y: string)
    requires Boundary(p) && p.input == "" && !p.wrap && Forgets(Feed(p, a)) && r == Resolve(Feed(p, a)).1
    requires z == r.input + more && y <= z && NulLines(y) && |y| >= 3
    ensures Resolve(Feed(p, a + more)) == Args(r.(input := z))
  {
    assert z[2] == y[2] == LF;
    FeedTwice(p, a, more);
    ResolveOn(Feed(p, a), more);
  }

  lemma OtherParser(result: (Outcome, Parser), q: Parser, waited: bool, argv: seq<string>)
    requires result.0 != Done || result.1.input != "" || (waited && !(argv <= result.1.argv))
    requires waited ==> argv <= q.argv
    ensures result != (Done, q.(input := ""))
  {
  }

  /**
   * A command that arrived in pieces parses again from its bytes, to the same state, if and only
   * if no call before the last read a type byte NUL and had to wait.
   */
  lemma PiecesReparseExactly(p: Parser, pieces: seq<string>)
    requires Boundary(p) && p.input == ""
    requires FeedAll(p, pieces).0 == Done && FeedAll(p, pieces).1.complete
    requires p.hasType && p.wrap ==> FeedAll(p, pieces).1.commandType != NUL
    ensures var q := FeedAll(p, pieces).1;
            Resolve(Feed(p, q.current)) == (Done, q.(input := "")) <==> Remembers(p, pieces)
  {
    var q := FeedAll(p, pieces).1;
    if Remembers(p, pieces) {
      PiecesReparse(p, pieces);
    } else {
      ForgottenIsNulTyped(p, pieces);
      FeedAllConserves(p, pieces);
      if q.commandType == NUL { NulPiecesDiffer(p, pieces); } else { OtherTypeDiffers(p, pieces); }
    }
  }

  lemma OtherTypeDiffers(p: Parser, pieces: seq<string>)
    requires Boundary(p) && p.input == "" && p.hasType && NulTyped(Flat(pieces))
    requires var q := FeedAll(p, pieces).1; q.complete && q.commandType != NUL && Bytes(q) == Flat(pieces)
    ensures var q := FeedAll(p, pieces).1; Resolve(Feed(p, q.current)) != (Done, q.(input := ""))
  {
    var q := FeedAll(p, pieces).1;
    var r := Feed(p, q.current);
    assert r.input == q.current;
    if Resolve(r).0 == Done && Resolve(r).1.complete { CompletesNul(r, q.input); }
  }

  lemma NulPiecesDiffer(p: Parser, pieces: seq<string>)
    requires Boundary(p) && p.input == "" && p.hasType && !p.wrap && !Remembers(p, pieces)
    requires FeedAll(p, pieces).0 == Done
    requires var q := FeedAll(p, pieces).1; q.complete && q.commandType == NUL && Bytes(q) == Flat(pieces)
    ensures var q := FeedAll(p, pieces).1; Resolve(Feed(p, q.current)) != (Done, q.(input := ""))
  {
    var k := FirstForget(p, pieces);
    var a := Flat(pieces[..k]);
    var r := Resolve(Feed(p, a)).1;
    FeedAllSplit(p, pieces, k);
    SplitsAgree(p, pieces[..k]);
    ResolveOn(Feed(p, a), [LF]);
    assert r.current + "" == r.current;
    var y, part := StuckGoesOn(r, r, "", pieces[k..]);
    var t := FlatRest(pieces, k);
    TwiceDiffers(p, a, FeedAll(p, pieces).1, y, part, t);
  }

  // ---------------------------------------------------------------- in a mode with types and a wrapped command

  function LengthLine(n: nat): string { "$" + ToString(n) + [LF] }

  /** A command that two calls read in one way and one call in another: first up to a length, */
  function FirstPiece(): string { Head(2) + (TypeLine(NUL) + LengthLine(3)) }

  /** then a type line, three bytes of an argument that end in a length, and another argument. */
  function Looks(): string { [LF] + "$" + ToString(5) }

  function SecondPiece(): string { TypeLine(NUL) + SecondBodies() }

  function Swallowed(): seq<string> { [TypeLine(NUL), LengthLine(2) + "zz"] }

  lemma SmallNumbers()
    ensures |ToString(2)| == 1 && |ToString(3)| == 1 && |ToString(5)| == 1
  {
  }

  lemma SwallowedBodies()
    ensures Bodies(Swallowed()) == Body(TypeLine(NUL)) + Body(LengthLine(2) + "zz")
  {
    var x := LengthLine(2) + "zz";
    assert Swallowed()[1..] == [x] && [x][1..] == [];
    assert Bodies([x]) == Body(x) + "";
  }

  lemma SameBytes()
    ensures FirstPiece() + SecondPiece() == Frame(true, NUL, Swallowed())
  {
    SmallNumbers();
    SwallowedBodies();
    var t, x := TypeLine(NUL), LengthLine(2) + "zz";
    assert Body(t) == LengthLine(3) + t + [LF] && Body(x) == LengthLine(5) + x + [LF];
    assert SecondBodies() == [LF] + Body(x);
  }

  /** The state after the first piece. */
  function Halfway(p: Parser): Parser {
    Wrap(p.(input := "", current := Head(2) + TypeLine(NUL) + LengthLine(3), argc := 2, argvLen := 3))
  }

  lemma FirstCall(p: Parser)
    requires Boundary(p) && p.input == "" && p.hasType
    ensures Resolve(Feed(p, FirstPiece())) == (Done, Halfway(p)) && ReadsNul(Feed(p, FirstPiece()))
  {
    var f := Feed(p, FirstPiece());
    assert f.input == FirstPiece();
    NulTypeRead(f, 2, LengthLine(3));
    LengthAlone(NulRead(f, 2).(input := LengthLine(3)), 3);
    NulIsRead(f, 2, LengthLine(3));
  }

  lemma LengthAlone(q: Parser, n: nat)
    requires q.argvLen == -1 && IsInt(n) && q.input == LengthLine(n)
    ensures Available(q.input)
    ensures ArgsStage(q) == (Done, Wrap(q.(input := "", current := q.current + LengthLine(n), argvLen := n)))
  {
    assert LengthLine(n) + "" == LengthLine(n);
    LengthRead(q, n, "");
    ArgsUnfold(q);
  }

  lemma NulIsRead(p: Parser, argc: int, more: string)
    requires Boundary(p.(input := "")) && p.hasType && 1 <= argc <= INT_MAX
    requires p.input == Head(argc) + (TypeLine(NUL) + more)
    ensures ReadsNul(p)
  {
    HeaderRead(p, argc, TypeLine(NUL) + more);
    assert (TypeLine(NUL) + more)[2] == LF;
    TypeRead(HeaderStage(p).parser, NUL, more);
  }

  function SecondBodies(): string { Looks() + [LF] + Body("zz") }

  /** Behind the second type line. */
  function Reading(p: Parser): Parser {
    var f := Halfway(p);
    f.(input := SecondBodies(), current := f.current + TypeLine(NUL))
  }

  lemma SecondType(p: Parser)
    requires Boundary(p) && p.input == "" && p.hasType
    ensures Resolve(Feed(Halfway(p), SecondPiece())) == ArgsStage(Reading(p))
  {
    var f := Feed(Halfway(p), SecondPiece());
    assert f.input == TypeLine(NUL) + SecondBodies();
    TypeRead(f, NUL, SecondBodies());
    assert SecondBodies()[0] == LF;
  }

  lemma SecondLoop(h: Parser)
    requires h.argc == 2 && h.argvLen == 3 && !h.complete && h.input == SecondBodies()
    ensures var (o, q) := Args(h);
            o == Done && q == h.(input := "", current := h.current + SecondBodies(), argc := 0, argv := q.argv,
                                 argvLen := -1, complete := true)
  {
    SmallNumbers();
    RoundTrip.PartRead(h, Looks(), Body("zz"));
    ArgsUnfold(h);
    assert ["zz"][1..] == [] && Body("zz") + "" == Body("zz");
    BodiesRead(ArgStep(h).1, ["zz"], "");
    Assoc(h.current, Looks() + [LF], Body("zz"));
  }

  lemma Wrapped(q: Parser, h: Parser, rest: string, s: string)
    requires h.wrap && h.current + rest == s
    requires q == h.(input := "", current := h.current + rest, argc := 0, argv := q.argv, argvLen := -1,
                     complete := true)
    ensures Wrap(q) == h.(input := "", current := s, argc := 0, argv := [h.wrapName, s], argvLen := -1,
                          complete := true)
  {
  }

  lemma SecondCall(p: Parser)
    requires Boundary(p) && p.input == "" && p.hasType && p.wrap
    ensures var s := Frame(true, NUL, Swallowed());
            Resolve(Feed(Halfway(p), SecondPiece()))
            == (Done, p.(current := s, argc := 0, argv := [p.wrapName, s], complete := true))
  {
    SecondType(p);
    var h := Reading(p);
    SecondLoop(h);
    SameBytes();
    Assoc(FirstPiece(), TypeLine(NUL), SecondBodies());
    Assoc(Head(2), TypeLine(NUL), LengthLine(3));
    Wrapped(Args(h).1, h, SecondBodies(), Frame(true, NUL, Swallowed()));
  }

  /**
   * In a mode with types and a wrapped command, which the program never builds, a command whose type
   * byte NUL was read twice can parse again to the same state all the same: the arguments that differ
   * are not kept.
   */
  lemma WrappedReparses(p: Parser)
    requires Boundary(p) && p.input == "" && p.hasType && p.wrap
    ensures var pieces := [FirstPiece(), SecondPiece()];
            var q := FeedAll(p, pieces).1;
            && FeedAll(p, pieces).0 == Done && q.complete && q.commandType == NUL && !Remembers(p, pieces)
            && Resolve(Feed(p, q.current)) == (Done, q.(input := ""))
  {
    FirstCall(p);
    TwoCalls(p, FirstPiece(), SecondPiece());
    SecondCall(p);
    NotRemembered(p, FirstPiece(), SecondPiece());
    OneCallReads(p);
  }

  lemma NotRemembered(p: Parser, a: string, b: string)
    requires Forgets(Feed(p, a))
    ensures !Remembers(p, [a, b])
  {
    assert [a, b][..1] == [a] && [a][..0] == [];
    assert Flat([a, b][..1]) == a;
  }

  lemma OneCallReads(p: Parser)
    requires Boundary(p) && p.input == "" && p.hasType && p.wrap
    ensures var s := Frame(true, NUL, Swallowed());
            Resolve(Feed(p, s)) == (Done, p.(current := s, argc := 0, argv := [p.wrapName, s], complete := true))
  {
    var s := Frame(true, NUL, Swallowed());
    assert Feed(p, s).input == s + "";
    PrintThenParse(Feed(p, s), NUL, Swallowed(), "");
  }
}
