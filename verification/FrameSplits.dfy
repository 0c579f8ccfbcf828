/** Frames in pieces: splitting is harmless for exactly the frames whose arguments hold no LF. */
module FrameSplits {
  import opened EntryLog
  import opened Decimal
  import opened Protocol
  import opened RoundTrip
  import opened Chunking
  import opened Reparse

  // ---------------------------------------------------------------- one-line arguments

  lemma TypeDoneClean(p: Parser, t: char, args: seq<string>, rest: string)
    requires Boundary(p) && Printable(p.hasType, t, args) && OneLiners(args)
    ensures Clean(TypeDone(p, t, |args|, Bodies(args) + rest))
  {
    BodiesClean(TypeDone(p, t, |args|, Bodies(args) + rest), args, rest);
  }

  lemma ArgsPrefix(p: Parser, u: string)
    requires Clean(Feed(p, u))
    ensures ArgsStage(p).0 == Done
  {
    CleanPrefix(p, u);
  }

  /** Behind the first line of a frame cut short. */
  lemma AfterHeadPrefix(p: Parser, u: string, t: char, whole: Parser)
    requires Available(p.input) && Feed(p, u) == whole && p.argc > 0
    requires p.hasType ==> p.commandType == NUL
    requires Available(whole.input) && TypeStage(whole).Proceed? && Clean(TypeStage(whole).parser)
    ensures AfterHeader(p).0 == Done
  {
    if p.hasType {
      TypePrefix(p, u);
      var q := TypeStage(p).parser;
      assert Feed(q, u) == TypeStage(whole).parser;
      ArgsPrefix(q, u);
    } else {
      ArgsPrefix(p, u);
    }
  }

  lemma ResolvePrefix(p: Parser, u: string, t: char, whole: Parser)
    requires Available(p.input) && Feed(p, u) == whole && p.argc == -1
    requires p.hasType ==> p.commandType == NUL
    requires Available(whole.input) && HeaderStage(whole).Proceed?
    requires var q := HeaderStage(whole).parser;
             Available(q.input) && TypeStage(q).Proceed? && Clean(TypeStage(q).parser)
    ensures Resolve(p).0 == Done
  {
    HeaderPrefix(p, u);
    HeaderEats(p);
    if HeaderStage(p).Proceed? {
      AfterHeadPrefix(HeaderStage(p).parser, u, t, HeaderStage(whole).parser);
    }
  }

  lemma WholeFrame(whole: Parser, t: char, args: seq<string>, rest: string)
    requires Boundary(whole) && Printable(whole.hasType, t, args) && OneLiners(args)
    requires whole.input == Frame(whole.hasType, t, args) + rest
    ensures Available(whole.input) && HeaderStage(whole).Proceed?
    ensures var q := HeaderStage(whole).parser;
            Available(q.input) && TypeStage(q).Proceed? && Clean(TypeStage(q).parser)
  {
    var tail := Bodies(args) + rest;
    BodiesAvailable(args, rest);
    Assoc(Head(|args|) + Typing(whole, t), Bodies(args), rest);
    LeadRead(whole, t, |args|, tail);
    TypeDoneClean(whole, t, args, rest);
  }

  /** A frame of one-line arguments cut short anywhere, or with anything behind it, is no error. */
  lemma FramePrefix(p: Parser, t: char, args: seq<string>, rest: string, s: string, u: string)
    requires Boundary(p) && p.input == "" && Printable(p.hasType, t, args) && OneLiners(args)
    requires s + u == Frame(p.hasType, t, args) + rest
    ensures Resolve(Feed(p, s)).0 == Done
  {
    assert Feed(p, s).input == s;
    if Available(s) {
      var whole := Feed(Feed(p, s), u);
      assert whole.input == s + u;
      WholeFrame(whole, t, args, rest);
      ResolvePrefix(Feed(p, s), u, t, whole);
    }
  }

  lemma FrameNotNulTyped(t: char, args: seq<string>, rest: string)
    requires t != NUL
    ensures !NulTyped(Frame(true, t, args) + rest)
  {
    var s := Frame(true, t, args) + rest;
    var line := "*" + ToString(|args|);
    NoLFInNumber(|args|);
    var more := TypeLine(t) + Bodies(args) + rest;
    assert s == line + [LF] + more;
    FirstLFOfLine(line, more);
    assert s[|line| + 1..] == more;
    assert more[1] == t;
  }

  /**
   * Chunking does not matter: a frame of one-line arguments, and whatever follows it, may arrive
   * in any pieces with a call after each; the parser is left as one call on all of it leaves it.
   */
  lemma {:induction false} ChunkingDoesNotMatter(p: Parser, t: char, args: seq<string>, rest: string,
                                                 pieces: seq<string>, u: string)
    requires Boundary(p) && p.input == "" && Printable(p.hasType, t, args) && Telling(p.hasType, t)
    requires OneLiners(args)
    requires Flat(pieces) + u == Frame(p.hasType, t, args) + rest
    ensures FeedAll(p, pieces) == Resolve(Feed(p, Flat(pieces))) && FeedAll(p, pieces).0 == Done
    decreases |pieces|
  {
    if pieces == [] {
      assert Feed(p, "") == p;
    } else {
      var front, last := pieces[..|pieces| - 1], pieces[|pieces| - 1];
      Assoc(Flat(front), last, u);
      ChunkingDoesNotMatter(p, t, args, rest, front, last + u);
      FramePrefix(p, t, args, rest, Flat(pieces), u);
      if p.hasType { FrameNotNulTyped(t, args, rest); }
      NoNulRead(p, Flat(front), last + u);
      FeedAllStep(p, pieces);
    }
  }

  /** In particular the command is complete once its last byte is in, whatever the pieces were. */
  lemma PiecesComplete(p: Parser, t: char, args: seq<string>, rest: string, pieces: seq<string>)
    requires Boundary(p) && p.input == "" && Printable(p.hasType, t, args) && Telling(p.hasType, t)
    requires OneLiners(args)
    requires Flat(pieces) == Frame(p.hasType, t, args) + rest
    ensures FeedAll(p, pieces) == (Done, Parsed(p, t, args, rest))
  {
    assert Flat(pieces) + "" == Flat(pieces);
    ChunkingDoesNotMatter(p, t, args, rest, pieces, "");
    assert Feed(p, Flat(pieces)).input == Flat(pieces);
    PrintThenParse(Feed(p, Flat(pieces)), t, args, rest);
  }

  // ---------------------------------------------------------------- arguments with LF

  /** The parser inside a command, behind some of its arguments. */
  function SomeDone(p: Parser, args: seq<string>, tail: string): Parser {
    p.(input := tail, current := p.current + Bodies(args), argv := p.argv + args, argc := p.argc - |args|)
  }

  lemma SomeDoneStep(p: Parser, args: seq<string>, more: string, tail: string)
    requires args != []
    ensures SomeDone(BodyDone(p, args[0], more).(complete := p.complete), args[1..], tail) == SomeDone(p, args, tail)
  {
    Assoc(p.current, Body(args[0]), Bodies(args[1..]));
    assert p.argv + [args[0]] + args[1..] == p.argv + args;
  }

  lemma {:induction false} SomeRead(p: Parser, args: seq<string>, tail: string)
    requires p.argvLen == -1 && p.argc > |args| && !p.complete
    requires forall i :: 0 <= i < |args| ==> |args[i]| <= INT_MAX
    requires p.input == Bodies(args) + tail
    ensures Args(p) == Args(SomeDone(p, args, tail))
    decreases |args|
  {
    if args == [] {
      assert SomeDone(p, args, tail) == p by { assert p.argv + [] == p.argv && p.current + "" == p.current; }
    } else {
      var more := Bodies(args[1..]) + tail;
      Assoc(Body(args[0]), Bodies(args[1..]), tail);
      ArgsOverBody(p, args[0], more);
      var q := BodyDone(p, args[0], more);
      assert q == q.(complete := p.complete);
      SomeDoneStep(p, args, more, tail);
      SomeRead(q, args[1..], tail);
    }
  }

  /** A read that ends behind an LF inside an argument is taken for an error. */
  lemma CutArgumentFails(p: Parser, part: string, j: nat)
    requires p.argvLen == -1 && |part| <= INT_MAX && j < |part| && part[j] == LF
    requires p.input == "$" + ToString(|part|) + [LF] + part[..j + 1]
    ensures Args(p).0 != Done
  {
    LengthRead(p, |part|, part[..j + 1]);
    var q := ArgStep(p).1;
    assert q.input[j] == LF;
    assert Args(p) == Args(q);
  }

  function CutBytes(typing: string, args: seq<string>, i: nat, j: nat): string
    requires i < |args| && j < |args[i]|
  {
    Head(|args|) + typing + (Bodies(args[..i]) + ("$" + ToString(|args[i]|) + [LF] + args[i][..j + 1]))
  }

  lemma CutFails(p: Parser, t: char, args: seq<string>, i: nat, j: nat)
    requires Boundary(p) && p.input == "" && Printable(p.hasType, t, args)
    requires i < |args| && j < |args[i]| && args[i][j] == LF
    ensures Resolve(Feed(p, CutBytes(Typing(p, t), args, i, j))).0 != Done
  {
    var cut := "$" + ToString(|args[i]|) + [LF] + args[i][..j + 1];
    var tail := Bodies(args[..i]) + cut;
    assert cut[|cut| - 1] == LF;
    assert tail[|tail| - 1] == LF;
    var r := Feed(p, CutBytes(Typing(p, t), args, i, j));
    assert r.input == CutBytes(Typing(p, t), args, i, j);
    LeadRead(r, t, |args|, tail);
    var q := TypeDone(r, t, |args|, tail);
    SomeRead(q, args[..i], cut);
    CutArgumentFails(SomeDone(q, args[..i], cut), args[i], j);
  }

  lemma {:induction false} BodiesSplit(args: seq<string>, i: nat)
    requires i < |args|
    ensures Bodies(args) == Bodies(args[..i]) + Body(args[i]) + Bodies(args[i + 1..])
  {
    if i > 0 {
      BodiesSplit(args[1..], i - 1);
      assert args[1..][..i - 1] == args[..i][1..];
      assert args[1..][i..] == args[i + 1..];
    }
  }

  lemma BodyCut(part: string, j: nat)
    requires j < |part|
    ensures "$" + ToString(|part|) + [LF] + part[..j + 1] + (part[j + 1..] + [LF]) == Body(part)
  {
    assert part == part[..j + 1] + part[j + 1..];
  }

  lemma CutIsPrefix(typing: string, args: seq<string>, i: nat, j: nat) returns (u: string)
    requires i < |args| && j < |args[i]|
    ensures CutBytes(typing, args, i, j) + u == Head(|args|) + typing + Bodies(args)
  {
    BodiesSplit(args, i);
    BodyCut(args[i], j);
    var lead, before, after := Head(|args|) + typing, Bodies(args[..i]), Bodies(args[i + 1..]);
    var cut := "$" + ToString(|args[i]|) + [LF] + args[i][..j + 1];
    var left := args[i][j + 1..] + [LF];
    u := left + after;
    Regroup(lead, before, cut, left, after);
  }

  lemma Regroup(a: string, b: string, c: string, d: string, e: string)
    ensures a + (b + c) + (d + e) == a + (b + (c + d) + e)
  {
  }

  /** Every split of the bytes leaves the parser as one call does. */
  ghost predicate SplitProof(p: Parser, s: string) {
    forall pieces: seq<string> :: Flat(pieces) == s ==> FeedAll(p, pieces) == Resolve(Feed(p, s))
  }

  /**
   * The exact condition: all splits of a frame are harmless if and only if its type byte is not
   * taken for a missing one and no argument holds an LF.
   */
  lemma SplitProofExactly(p: Parser, t: char, args: seq<string>)
    requires Boundary(p) && p.input == "" && Printable(p.hasType, t, args)
    ensures SplitProof(p, Frame(p.hasType, t, args)) <==> Telling(p.hasType, t) && OneLiners(args)
  {
    if !Telling(p.hasType, t) {
      var pieces := NulSplit(p, args);
    } else if OneLiners(args) {
      OneLinersSplit(p, t, args);
    } else {
      var pieces := BadSplit(p, t, args);
    }
  }

  lemma OneLinersSplit(p: Parser, t: char, args: seq<string>)
    requires Boundary(p) && p.input == "" && Printable(p.hasType, t, args) && Telling(p.hasType, t)
    requires OneLiners(args)
    ensures SplitProof(p, Frame(p.hasType, t, args))
  {
    var s := Frame(p.hasType, t, args);
    forall pieces: seq<string> | Flat(pieces) == s ensures FeedAll(p, pieces) == Resolve(Feed(p, s)) {
      assert s + "" == s;
      ChunkingDoesNotMatter(p, t, args, "", pieces, "");
    }
  }

  lemma TypeMissed(p: Parser)
    requires p.hasType && p.commandType == NUL && p.argc > 0 && Available(p.input) && p.input[0] != '#'
    ensures Resolve(p).0 == Failed
  {
  }

  /** The split behind the type line breaks a frame whose type byte is NUL, which one call reads. */
  lemma NulSplit(p: Parser, args: seq<string>) returns (pieces: seq<string>)
    requires Boundary(p) && p.input == "" && p.hasType && Printable(true, NUL, args)
    ensures Flat(pieces) == Frame(true, NUL, args)
    ensures FeedAll(p, pieces).0 != Done && Resolve(Feed(p, Flat(pieces))).0 == Done
  {
    var a, b := Head(|args|) + TypeLine(NUL), Bodies(args);
    NulTypeOnce(p, |args|);
    TwoCalls(p, a, b);
    var q := Feed(NulRead(p, |args|), b);
    BodiesAvailable(args, "");
    assert b + "" == b && q.input == b && b[0] == '$';
    TypeMissed(q);
    pieces := [a, b];
    FrameResolves(p, NUL, args);
  }

  /** The split behind an LF inside an argument breaks a frame that one call would have read. */
  lemma BadSplit(p: Parser, t: char, args: seq<string>) returns (pieces: seq<string>)
    requires Boundary(p) && p.input == "" && Printable(p.hasType, t, args) && !OneLiners(args)
    ensures Flat(pieces) == Frame(p.hasType, t, args)
    ensures FeedAll(p, pieces).0 != Done && Resolve(Feed(p, Flat(pieces))).0 == Done
  {
    var s := Frame(p.hasType, t, args);
    var i :| 0 <= i < |args| && LF in args[i];
    var j := FirstLF(args[i]);
    CutFails(p, t, args, i, j);
    var cut := CutBytes(Typing(p, t), args, i, j);
    var u := CutIsPrefix(Typing(p, t), args, i, j);
    TwoPieces(p, cut, u);
    pieces := [cut, u];
    FrameResolves(p, t, args);
  }

  lemma FrameResolves(p: Parser, t: char, args: seq<string>)
    requires Boundary(p) && p.input == "" && Printable(p.hasType, t, args)
    ensures Resolve(Feed(p, Frame(p.hasType, t, args))).0 == Done
  {
    var s := Frame(p.hasType, t, args);
    assert s + "" == s && Feed(p, s).input == s;
    PrintThenParse(Feed(p, s), t, args, "");
  }

  lemma TwoPieces(p: Parser, s: string, u: string)
    requires Boundary(p) && p.input == "" && Resolve(Feed(p, s)).0 != Done
    ensures Flat([s, u]) == s + u && FeedAll(p, [s, u]).0 != Done
  {
    assert [s, u][..1] == [s] && [s][..0] == [];
    assert Flat([s]) == s;
    assert FeedAll(p, [s]) == Resolve(Feed(p, s));
  }
}
