/**
 * The parser keeps its place: how a command's bytes are split into reads does not matter,
 * and a completed command's bytes parse to the same command again.
 */
module Chunking {
  import opened EntryLog
  import opened Decimal
  import opened Protocol
  import opened RoundTrip

  // ---------------------------------------------------------------- more input behind a call

  lemma FirstLFOfPrefix(s: string, t: string)
    requires LF in s
    ensures FirstLF(s + t) == FirstLF(s)
  {
    assert (s + t)[..|s|] == s;
    var k := FirstLF(s);
    assert (s + t)[k] == LF;
    var j := FirstLF(s + t);
    assert forall i :: 0 <= i < k ==> (s + t)[i] == s[i] != LF;
    assert j >= k;
  }

  lemma AvailableMore(s: string, t: string)
    requires Available(s)
    ensures Available(s + t)
  {
    var k := FirstLF(s);
    assert (s + t)[k] == LF;
  }

  /** What a stage takes from the front of the input does not depend on what follows. */
  lemma CutMore(s: string, t: string, k: nat)
    requires k < |s|
    ensures (s + t)[..k + 1] == s[..k + 1] && (s + t)[k + 1..] == s[k + 1..] + t
    ensures (s + t)[..k] == s[..k] && (s + t)[k] == s[k] && (s + t)[0] == s[0]
    ensures (s + t)[1..k + 1] == s[1..k + 1]
  {
  }

  lemma LengthStepMore(p: Parser, t: string)
    requires Available(p.input) && p.argvLen == -1 && ArgStep(p).0 == Done && Available(p.input + t)
    ensures ArgStep(Feed(p, t)) == (Done, Feed(ArgStep(p).1, t))
  {
    var k := FirstLF(p.input);
    FirstLFOfPrefix(p.input, t);
    CutMore(p.input, t, k);
    var n := Stoi(p.input[1..k + 1]).value;
    assert ArgStep(p).1 == Consume(p.(argvLen := n), k + 1);
  }

  lemma PartStepMore(p: Parser, t: string)
    requires Available(p.input) && p.argvLen != -1 && ArgStep(p).0 == Done && Available(p.input + t)
    ensures ArgStep(Feed(p, t)) == (Done, Feed(ArgStep(p).1, t))
  {
    CutMore(p.input, t, p.argvLen);
  }

  lemma ArgStepMore(p: Parser, t: string)
    requires Available(p.input) && ArgStep(p).0 == Done
    ensures Available(p.input + t)
    ensures ArgStep(Feed(p, t)) == (Done, Feed(ArgStep(p).1, t))
  {
    AvailableMore(p.input, t);
    if p.argvLen == -1 { LengthStepMore(p, t); } else { PartStepMore(p, t); }
  }

  /** The loop stopped because the command is complete, not because the input is dry. */
  predicate Broke(p: Parser) { p.argc == 0 }

  /** More input behind a loop that ended well: the same end, or the loop goes on from there. */
  lemma {:induction false} ArgsMore(p: Parser, t: string)
    requires p.argc > 0 && Args(p).0 == Done
    ensures var q := Args(p).1;
            if Broke(q) then Args(Feed(p, t)) == (Done, Feed(q, t)) else Args(Feed(p, t)) == Args(Feed(q, t))
    decreases |p.input|
  {
    if Available(p.input) {
      ArgStepMore(p, t);
      var q := ArgStep(p).1;
      if !(p.argvLen != -1 && q.argc == 0) { ArgsMore(q, t); }
    }
  }

  predicate Well(s: Stage) { s.Return? ==> s.outcome == Done }

  lemma HeaderEats(p: Parser)
    requires Available(p.input) && p.argc == -1 && Well(HeaderStage(p))
    ensures var k := FirstLF(p.input);
            var q := HeaderStage(p).parser;
            && Stoi(p.input[1..k + 1]).Some? && p.input[0] == '*'
            && q == Consume(p.(argc := Stoi(p.input[1..k + 1]).value), k + 1)
            && q.argc > 0
            && HeaderStage(p) == ReturnIfDry(q)
  {
  }

  lemma HeaderLineMore(p: Parser, t: string)
    requires Available(p.input) && p.argc == -1 && Well(HeaderStage(p)) && Available(p.input + t)
    ensures HeaderStage(Feed(p, t)) == ReturnIfDry(Feed(HeaderStage(p).parser, t))
  {
    var k := FirstLF(p.input);
    HeaderEats(p);
    FirstLFOfPrefix(p.input, t);
    CutMore(p.input, t, k);
    ConsumeMore(p.(argc := Stoi(p.input[1..k + 1]).value), t, k + 1);
    HeaderEats(Feed(p, t));
  }

  lemma ConsumeMore(p: Parser, t: string, n: nat)
    requires n <= |p.input|
    ensures Feed(Consume(p, n), t) == Consume(Feed(p, t), n)
  {
    assert (p.input + t)[..n] == p.input[..n] && (p.input + t)[n..] == p.input[n..] + t;
  }

  lemma HeaderMore(p: Parser, t: string)
    requires Available(p.input)
    requires Well(HeaderStage(p))
    ensures Available(p.input + t)
    ensures HeaderStage(Feed(p, t))
            == if p.argc != -1 then Proceed(Feed(p, t)) else ReturnIfDry(Feed(HeaderStage(p).parser, t))
  {
    AvailableMore(p.input, t);
    if p.argc == -1 { HeaderLineMore(p, t); }
  }

  lemma TypeMore(p: Parser, t: string)
    requires Available(p.input)
    requires Well(TypeStage(p))
    ensures Available(p.input + t)
    ensures TypeStage(Feed(p, t))
            == if !p.hasType || p.commandType != NUL then Proceed(Feed(p, t))
               else ReturnIfDry(Feed(TypeStage(p).parser, t))
  {
    AvailableMore(p.input, t);
    FirstLFOfPrefix(p.input, t);
    CutMore(p.input, t, FirstLF(p.input));
  }

  // ---------------------------------------------------------------- the input only shrinks

  lemma LengthStepShrinks(p: Parser)
    requires Available(p.input) && p.argvLen == -1
    ensures |ArgStep(p).1.input| == |p.input| - (if ArgStep(p).0 == Done then FirstLF(p.input) + 1 else 0)
  {
    var k := FirstLF(p.input);
    var n := Stoi(p.input[1..k + 1]);
    if p.input[0] == '$' && n.Some? {
      assert ArgStep(p).1 == Consume(p.(argvLen := n.value), k + 1);
    }
  }

  lemma PartStepShrinks(p: Parser)
    requires Available(p.input) && p.argvLen != -1
    ensures |ArgStep(p).1.input| == |p.input| - (if ArgStep(p).0 == Done then p.argvLen + 1 else 0)
    ensures ArgStep(p).0 == Done ==> p.argvLen >= 0
  {
  }

  lemma StepShrinks(p: Parser)
    requires Available(p.input)
    ensures |ArgStep(p).1.input| <= |p.input|
    ensures ArgStep(p).0 == Done ==> |ArgStep(p).1.input| < |p.input|
  {
    if p.argvLen == -1 { LengthStepShrinks(p); } else { PartStepShrinks(p); }
  }

  lemma {:induction false} ArgsShrink(p: Parser)
    ensures |Args(p).1.input| <= |p.input|
    decreases |p.input|
  {
    if Available(p.input) {
      StepShrinks(p);
      var (o, q) := ArgStep(p);
      if o == Done && !(p.argvLen != -1 && q.argc == 0) { ArgsShrink(q); }
    }
  }

  // ---------------------------------------------------------------- more input behind a whole call

  /** Before or inside a command. */
  predicate Underway(p: Parser) {
    !p.complete && (Boundary(p) || p.argc > 0)
  }

  /** The call reads the type byte NUL, which the next call takes for a type not yet read. */
  predicate ReadsNul(p: Parser) {
    && Available(p.input) && HeaderStage(p).Proceed?
    && var q := HeaderStage(p).parser;
       q.hasType && q.commandType == NUL && Well(TypeStage(q)) && TypeStage(q).parser.commandType == NUL
  }

  /** The call reads the type byte NUL and ends well before the command is complete. */
  predicate Forgets(p: Parser) { ReadsNul(p) && Resolve(p).0 == Done && !Resolve(p).1.complete }

  /** Two calls end alike; in wrap mode argv is only set by a call that ends well. */
  predicate Alike(a: (Outcome, Parser), b: (Outcome, Parser)) {
    && a.0 == b.0
    && (a.0 == Done ==> a.1 == b.1)
    && (!a.1.wrap ==> a.1 == b.1)
  }

  /** The same parser but for the arguments collected so far. */
  predicate SameButArgv(p: Parser, q: Parser) { q == p.(argv := q.argv) }

  predicate SameOutcome(a: (Outcome, Parser), b: (Outcome, Parser)) { a.0 == b.0 && SameButArgv(a.1, b.1) }

  lemma StepForgetsArgv(p: Parser, q: Parser)
    requires Available(p.input) && SameButArgv(p, q)
    ensures q.input == p.input && q.argvLen == p.argvLen && SameOutcome(ArgStep(p), ArgStep(q))
    ensures ArgStep(q).1.argc == ArgStep(p).1.argc
  {
    if p.argvLen == -1 {
      assert q.argvLen == -1;
    } else {
      assert q.argvLen != -1;
    }
  }

  predicate Stops(p: Parser)
    requires Available(p.input)
  {
    ArgStep(p).0 != Done || (p.argvLen != -1 && ArgStep(p).1.argc == 0)
  }

  lemma ArgsUnfold(p: Parser)
    ensures Args(p) == if !Available(p.input) then (Done, p)
                       else if Stops(p) then ArgStep(p)
                       else Args(ArgStep(p).1)
  {
  }

  lemma StopsForgetArgv(p: Parser, q: Parser)
    requires Available(p.input) && SameButArgv(p, q)
    ensures Available(q.input) && (Stops(p) <==> Stops(q)) && SameOutcome(ArgStep(p), ArgStep(q))
  {
    StepForgetsArgv(p, q);
  }

  /** The arguments collected so far have no influence on the loop. */
  lemma {:induction false} ArgsForgetArgv(p: Parser, q: Parser)
    requires SameButArgv(p, q)
    ensures SameOutcome(Args(p), Args(q))
    decreases |p.input|
  {
    ArgsUnfold(p);
    ArgsUnfold(q);
    if Available(p.input) {
      StopsForgetArgv(p, q);
      if !Stops(p) {
        StepShrinks(p);
        ArgsForgetArgv(ArgStep(p).1, ArgStep(q).1);
      }
    }
  }

  /** What the loop keeps: the mode, the type, and argc == 0 exactly when the command is complete. */
  predicate Counted(p: Parser, q: Parser) {
    && q.argc >= 0 && (q.complete <==> q.argc == 0)
    && q.hasType == p.hasType && q.commandType == p.commandType && q.wrap == p.wrap
  }

  lemma StepCounts(p: Parser)
    requires Available(p.input) && p.argc > 0 && !p.complete && ArgStep(p).0 == Done
    ensures Counted(p, ArgStep(p).1)
    ensures p.argvLen == -1 ==> ArgStep(p).1.argc == p.argc
  {
  }

  lemma {:induction false} ArgsCount(p: Parser)
    requires p.argc > 0 && !p.complete && Args(p).0 == Done
    ensures Counted(p, Args(p).1)
    decreases |p.input|
  {
    if Available(p.input) {
      StepCounts(p);
      var q := ArgStep(p).1;
      if !(p.argvLen != -1 && q.argc == 0) { ArgsCount(q); }
    }
  }

  lemma ArgsStageAlike(p: Parser, q: Parser)
    requires SameButArgv(p, q) && (!p.wrap ==> p == q)
    ensures Alike(ArgsStage(p), ArgsStage(q))
  {
    if p.wrap {
      ArgsForgetArgv(p, q);
      ArgsKeepMode(p);
    }
  }

  lemma {:induction false} ArgsKeepMode(p: Parser)
    ensures Args(p).1.wrap == p.wrap && Args(p).1.wrapName == p.wrapName
    decreases |p.input|
  {
    if Available(p.input) {
      StepKeepsMode(p);
      var (o, q) := ArgStep(p);
      if o == Done && !(p.argvLen != -1 && q.argc == 0) { ArgsKeepMode(q); }
    }
  }

  lemma StepKeepsMode(p: Parser)
    requires Available(p.input)
    ensures ArgStep(p).1.wrap == p.wrap && ArgStep(p).1.wrapName == p.wrapName
  {
  }

  /** Behind the type: what the loop left over and what comes later are read as one. */
  lemma ArgsStageMore(p: Parser, t: string)
    requires p.argc > 0 && !p.complete && ArgsStage(p).0 == Done
    requires p.hasType && p.commandType == NUL ==> ArgsStage(p).1.complete
    ensures var q := ArgsStage(p).1;
            if q.complete then ArgsStage(Feed(p, t)) == (Done, Feed(q, t))
            else Alike(ArgsStage(Feed(p, t)), Resolve(Feed(q, t)))
  {
    ArgsCount(p);
    ArgsMore(p, t);
    var a := Args(p).1;
    if !Broke(a) {
      var r := Feed(a, t);
      var r' := Feed(Wrap(a), t);
      assert ArgsStage(Feed(p, t)) == ArgsStage(r);
      assert r' == r.(argv := r'.argv);
      if Available(r.input) {
        assert HeaderStage(r') == Proceed(r') && TypeStage(r') == Proceed(r');
        ArgsStageAlike(r, r');
      }
    }
  }

  lemma AfterHeaderMore(p: Parser, t: string)
    requires Available(p.input) && p.argc > 0 && !p.complete && AfterHeader(p).0 == Done
    requires p.hasType && p.commandType == NUL ==>
               TypeStage(p).parser.commandType != NUL || AfterHeader(p).1.complete
    ensures Available(p.input + t)
    ensures var q := AfterHeader(p).1;
            if q.complete then AfterHeader(Feed(p, t)) == (Done, Feed(q, t))
            else Alike(AfterHeader(Feed(p, t)), Resolve(Feed(q, t)))
  {
    TypeMore(p, t);
    var st := TypeStage(p);
    if st.Return? {
      var r := Feed(st.parser, t);
      if Available(r.input) { assert HeaderStage(r) == Proceed(r) && TypeStage(r) == Proceed(r); }
    } else {
      AvailableMore(st.parser.input, t);
      ArgsStageMore(st.parser, t);
    }
  }

  /** A call that ends well before the command is complete loses nothing: the next call goes on as if it were one. */
  lemma ResolveMore(p: Parser, t: string)
    requires Underway(p) && Resolve(p).0 == Done && !Forgets(p)
    ensures var q := Resolve(p).1;
            if q.complete then Resolve(Feed(p, t)) == (Done, Feed(q, t))
            else Alike(Resolve(Feed(p, t)), Resolve(Feed(q, t)))
  {
    if Available(p.input) {
      HeaderMore(p, t);
      var st := HeaderStage(p);
      if st.Return? {
        var r := Feed(st.parser, t);
        if Available(r.input) { assert HeaderStage(r) == Proceed(r); }
      } else {
        AvailableMore(st.parser.input, t);
        AfterHeaderMore(st.parser, t);
      }
    }
  }

  lemma ResolveUnderway(p: Parser)
    requires Underway(p) && Resolve(p).0 == Done
    ensures Resolve(p).1.complete || Underway(Resolve(p).1)
  {
    if Available(p.input) && HeaderStage(p).Proceed? {
      var q := HeaderStage(p).parser;
      if TypeStage(q).Proceed? { ArgsCount(TypeStage(q).parser); }
    }
  }

  // ---------------------------------------------------------------- any split

  function Flat(pieces: seq<string>): string {
    if pieces == [] then "" else Flat(pieces[..|pieces| - 1]) + pieces[|pieces| - 1]
  }

  /**
   * The pieces as they arrive, with a call after each. Once the command is complete no further
   * call is made, and a call that does not end well is the end of the connection.
   */
  function FeedAll(p: Parser, pieces: seq<string>): (Outcome, Parser) {
    if pieces == [] then (Done, p)
    else
      var (o, q) := FeedAll(p, pieces[..|pieces| - 1]);
      if o != Done then (o, q)
      else if q.complete then (Done, Feed(q, pieces[|pieces| - 1]))
      else Resolve(Feed(q, pieces[|pieces| - 1]))
  }

  /** The byte behind the first line and its mark is NUL: what a typed stream would take for no type. */
  predicate NulTyped(s: string) {
    var k := FirstLF(s);
    k + 2 < |s| && s[k + 2] == NUL
  }

  lemma NulReadIsNulTyped(p: Parser)
    requires p.argc == -1 && ReadsNul(p)
    ensures p.hasType && NulTyped(p.input)
  {
    HeaderEats(p);
    var k := FirstLF(p.input);
    var q := HeaderStage(p).parser;
    assert FirstLF(q.input) == 2;
    assert q.input[1] == NUL;
    assert q.input == p.input[k + 1..];
  }

  lemma NulTypedMore(s: string, t: string)
    requires NulTyped(s) && LF in s
    ensures NulTyped(s + t)
  {
    FirstLFOfPrefix(s, t);
  }

  lemma NoNulRead(p: Parser, s: string, t: string)
    requires Boundary(p) && p.input == "" && (p.hasType ==> !NulTyped(s + t))
    ensures !ReadsNul(Feed(p, s))
  {
    assert Feed(p, s).input == s;
    if ReadsNul(Feed(p, s)) {
      NulReadIsNulTyped(Feed(p, s));
      NulTypedMore(s, t);
    }
  }

  lemma FeedTwice(p: Parser, s: string, t: string)
    ensures Feed(Feed(p, s), t) == Feed(p, s + t)
  {
    Assoc(p.input, s, t);
  }

  lemma FeedAllStep(p: Parser, pieces: seq<string>)
    requires Boundary(p) && p.input == "" && pieces != []
    requires var s := Flat(pieces[..|pieces| - 1]);
             && FeedAll(p, pieces[..|pieces| - 1]) == Resolve(Feed(p, s))
             && Resolve(Feed(p, s)).0 == Done && !Forgets(Feed(p, s))
    ensures Alike(Resolve(Feed(p, Flat(pieces))), FeedAll(p, pieces))
  {
    var s, t := Flat(pieces[..|pieces| - 1]), pieces[|pieces| - 1];
    FeedTwice(p, s, t);
    ResolveMore(Feed(p, s), t);
  }

  /** No call before the last reads a type byte NUL without completing the command. */
  predicate Remembers(p: Parser, pieces: seq<string>) {
    forall k :: 0 <= k < |pieces| ==> !Forgets(Feed(p, Flat(pieces[..k])))
  }

  lemma RemembersFront(p: Parser, pieces: seq<string>)
    requires pieces != [] && Remembers(p, pieces)
    ensures Remembers(p, pieces[..|pieces| - 1])
  {
    var front := pieces[..|pieces| - 1];
    assert forall k :: 0 <= k < |front| ==> front[..k] == pieces[..k];
  }

  /**
   * Whatever the bytes are: if every call along the way ends well, the pieces leave the parser
   * exactly where one call on all of them does.
   */
  lemma {:induction false} SplitsAgree(p: Parser, pieces: seq<string>)
    requires Boundary(p) && p.input == ""
    requires FeedAll(p, pieces).0 == Done && Remembers(p, pieces)
    ensures FeedAll(p, pieces) == Resolve(Feed(p, Flat(pieces)))
  {
    if pieces == [] {
      assert Feed(p, "") == p;
    } else {
      RemembersFront(p, pieces);
      SplitsAgree(p, pieces[..|pieces| - 1]);
      assert !Forgets(Feed(p, Flat(pieces[..|pieces| - 1])));
      FeedAllStep(p, pieces);
    }
  }

  // ---------------------------------------------------------------- prefixes of a frame

  predicate OneLiners(args: seq<string>) { forall i :: 0 <= i < |args| ==> LF !in args[i] }

  /** The loop ends well and every argument it reads is one line. */
  predicate Clean(p: Parser)
    decreases |p.input|
  {
    Available(p.input) ==>
      && ArgStep(p).0 == Done
      && (StepShrinks(p); true)
      && (p.argvLen != -1 ==> FirstLF(p.input) == p.argvLen)
      && ((p.argvLen != -1 && ArgStep(p).1.argc == 0) || Clean(ArgStep(p).1))
  }

  lemma CleanStepPrefix(p: Parser, t: string)
    requires Available(p.input) && Clean(Feed(p, t))
    ensures ArgStep(p).0 == Done
    ensures p.argvLen != -1 ==> FirstLF(p.input) == p.argvLen
  {
    AvailableMore(p.input, t);
    FirstLFOfPrefix(p.input, t);
    CutMore(p.input, t, FirstLF(p.input));
  }

  /** Cut short anywhere, the loop still ends well. */
  lemma {:induction false} CleanPrefix(p: Parser, t: string)
    requires Clean(Feed(p, t))
    ensures Args(p).0 == Done
    decreases |p.input|
  {
    if Available(p.input) {
      CleanStepPrefix(p, t);
      ArgStepMore(p, t);
      var q := ArgStep(p).1;
      if !(p.argvLen != -1 && q.argc == 0) {
        CleanPrefix(q, t);
      }
    }
  }

  lemma BodyClean(p: Parser, part: string, rest: string)
    requires p.argvLen == -1 && p.argc > 0 && p.input == Body(part) + rest && |part| <= INT_MAX && LF !in part
    requires p.argc > 1 ==> Clean(BodyDone(p, part, rest))
    ensures Clean(p)
  {
    BodyRead(p, part, rest);
    FirstLFOfLine(part, rest);
    assert Clean(LengthDone(p, part, rest));
  }

  lemma {:induction false} BodiesClean(p: Parser, args: seq<string>, rest: string)
    requires args != [] && p.argvLen == -1 && p.argc == |args| && OneLiners(args)
    requires forall i :: 0 <= i < |args| ==> |args[i]| <= INT_MAX
    requires p.input == Bodies(args) + rest
    ensures Clean(p)
    decreases |args|
  {
    var more := Bodies(args[1..]) + rest;
    assert p.input == Body(args[0]) + more;
    if |args| > 1 { BodiesClean(BodyDone(p, args[0], more), args[1..], rest); }
    BodyClean(p, args[0], more);
  }

  /** A stage on the whole input tells how it ends on the part that is there. */
  lemma HeaderPrefix(p: Parser, t: string)
    requires Available(p.input) && p.argc == -1 && Available(p.input + t)
    requires Well(HeaderStage(Feed(p, t)))
    ensures Well(HeaderStage(p)) && Feed(HeaderStage(p).parser, t) == HeaderStage(Feed(p, t)).parser
    ensures HeaderStage(p) == ReturnIfDry(HeaderStage(p).parser)
  {
    HeaderEats(Feed(p, t));
    var k := FirstLF(p.input);
    FirstLFOfPrefix(p.input, t);
    CutMore(p.input, t, k);
    var n := Stoi(p.input[1..k + 1]).value;
    assert HeaderStage(p) == ReturnIfDry(Consume(p.(argc := n), k + 1));
    assert Feed(Consume(p.(argc := n), k + 1), t) == Consume(Feed(p, t).(argc := n), k + 1);
  }

  lemma TypePrefix(p: Parser, t: string)
    requires Available(p.input) && p.hasType && p.commandType == NUL && Available(p.input + t)
    requires Well(TypeStage(Feed(p, t)))
    ensures Well(TypeStage(p)) && Feed(TypeStage(p).parser, t) == TypeStage(Feed(p, t)).parser
    ensures TypeStage(p) == ReturnIfDry(TypeStage(p).parser)
  {
    var k := FirstLF(p.input);
    FirstLFOfPrefix(p.input, t);
    CutMore(p.input, t, k);
  }
}
