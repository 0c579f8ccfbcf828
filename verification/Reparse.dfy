/** A completed command's bytes, given to a fresh parser, are the same command again. */
module Reparse {
  import opened EntryLog
  import opened Decimal
  import opened Protocol
  import opened RoundTrip
  import opened Chunking

  // ---------------------------------------------------------------- input that is never reached may go

  lemma AvailableUpTo(s: string, k: nat)
    requires k < |s| && s[k] == LF
    ensures Available(s)
  {
  }

  lemma StepTrim(p: Parser, t: string)
    requires Available(p.input + t) && ArgStep(Feed(p, t)).0 == Done
    requires |t| <= |ArgStep(Feed(p, t)).1.input|
    ensures Available(p.input) && ArgStep(p).0 == Done
    ensures Feed(ArgStep(p).1, t) == ArgStep(Feed(p, t)).1
  {
    var s := p.input + t;
    var k := if p.argvLen == -1 then FirstLF(s) else p.argvLen;
    assert k < |p.input| && s[k] == p.input[k] == LF;
    AvailableUpTo(p.input, k);
    if p.argvLen == -1 { FirstLFOfPrefix(p.input, t); }
    CutMore(p.input, t, k);
    assert ArgStep(p).0 == Done;
    ArgStepMore(p, t);
  }

  /** The first round of a loop that leaves exactly the rest t over, with and without t. */
  lemma FirstTrim(p: Parser, t: string)
    requires p.argc > 0 && Args(Feed(p, t)).0 == Done
    requires Args(Feed(p, t)).1.argc == 0 && Args(Feed(p, t)).1.input == t
    ensures Available(p.input) && Available(Feed(p, t).input) && ArgStep(p).0 == Done
    ensures Feed(ArgStep(p).1, t) == ArgStep(Feed(p, t)).1 && ArgStep(Feed(p, t)).0 == Done
    ensures |ArgStep(p).1.input| < |p.input| && (Stops(p) <==> Stops(Feed(p, t)))
    ensures !Stops(p) ==> ArgStep(p).1.argc > 0
  {
    ArgsShrink(ArgStep(Feed(p, t)).1);
    StepTrim(p, t);
    StepShrinks(p);
  }

  lemma Unfed(q: Parser, r: Parser, t: string)
    requires Feed(q, t) == r && r.input == t
    ensures q == r.(input := "")
  {
    assert q.input + t == t;
  }

  lemma {:induction false} ArgsTrim(p: Parser, t: string)
    requires p.argc > 0 && Args(Feed(p, t)).0 == Done
    requires Args(Feed(p, t)).1.argc == 0 && Args(Feed(p, t)).1.input == t
    ensures Available(p.input)
    ensures Args(p) == (Done, Args(Feed(p, t)).1.(input := ""))
    decreases |p.input|
  {
    FirstTrim(p, t);
    ArgsUnfold(Feed(p, t));
    ArgsUnfold(p);
    if Stops(p) {
      Unfed(ArgStep(p).1, ArgStep(Feed(p, t)).1, t);
    } else {
      ArgsTrim(ArgStep(p).1, t);
    }
  }

  lemma ArgsStageTrim(p: Parser, t: string)
    requires p.argc > 0 && !p.complete && ArgsStage(Feed(p, t)).0 == Done
    requires ArgsStage(Feed(p, t)).1.complete && ArgsStage(Feed(p, t)).1.input == t
    ensures Available(p.input)
    ensures ArgsStage(p) == (Done, ArgsStage(Feed(p, t)).1.(input := ""))
  {
    ArgsCount(Feed(p, t));
    ArgsTrim(p, t);
  }

  lemma StageShrinks(p: Parser)
    requires Available(p.input)
    ensures |TypeStage(p).parser.input| <= |p.input|
    ensures |AfterHeader(p).1.input| <= |TypeStage(p).parser.input|
  {
    ArgsShrink(TypeStage(p).parser);
  }

  lemma AfterHeaderTrim(p: Parser, t: string)
    requires Available(p.input + t) && p.argc > 0 && !p.complete && (p.hasType ==> p.commandType == NUL)
    requires AfterHeader(Feed(p, t)).0 == Done
    requires AfterHeader(Feed(p, t)).1.complete && AfterHeader(Feed(p, t)).1.input == t
    ensures Available(p.input)
    ensures AfterHeader(p) == (Done, AfterHeader(Feed(p, t)).1.(input := ""))
  {
    var r := Feed(p, t);
    assert TypeStage(r).Proceed?;
    if p.hasType {
      StageShrinks(r);
      var k := FirstLF(r.input);
      assert k < |p.input| && r.input[k] == p.input[k] == LF;
      AvailableUpTo(p.input, k);
      TypePrefix(p, t);
      ArgsStageTrim(TypeStage(p).parser, t);
    } else {
      ArgsStageTrim(p, t);
    }
  }

  lemma ResolveTrim(p: Parser, t: string)
    requires Boundary(p) && Resolve(Feed(p, t)).0 == Done
    requires Resolve(Feed(p, t)).1.complete && Resolve(Feed(p, t)).1.input == t
    ensures Resolve(p) == (Done, Resolve(Feed(p, t)).1.(input := ""))
  {
    var r := Feed(p, t);
    HeaderEats(r);
    var h := HeaderStage(r).parser;
    assert HeaderStage(r).Proceed?;
    StageShrinks(h);
    var k := FirstLF(r.input);
    assert k < |p.input| && r.input[k] == p.input[k] == LF;
    AvailableUpTo(p.input, k);
    HeaderPrefix(p, t);
    HeaderEats(p);
    AfterHeaderTrim(HeaderStage(p).parser, t);
  }

  // ---------------------------------------------------------------- main results

  /** Whatever completed a command in one call, its bytes alone complete it again and leave nothing over. */
  lemma CommandReparses(p: Parser)
    requires Boundary(p) && Resolve(p).0 == Done && Resolve(p).1.complete
    ensures var q := Resolve(p).1;
            Resolve(p.(input := q.current)) == (Done, q.(input := ""))
  {
    var q := Resolve(p).1;
    ResolveConserves(p);
    var trimmed := p.(input := q.current);
    assert p.current == "" && p.input == q.current + q.input;
    assert Feed(trimmed, q.input) == p;
    ResolveTrim(trimmed, q.input);
  }

  /** The same for a command that arrived in pieces, unless a call read a type byte NUL and then had to wait. */
  lemma PiecesReparse(p: Parser, pieces: seq<string>)
    requires Boundary(p) && p.input == "" && Remembers(p, pieces)
    requires FeedAll(p, pieces).0 == Done && FeedAll(p, pieces).1.complete
    ensures var q := FeedAll(p, pieces).1;
            Resolve(Feed(p, q.current)) == (Done, q.(input := ""))
  {
    SplitsAgree(p, pieces);
    CommandReparses(Feed(p, Flat(pieces)));
    var q := FeedAll(p, pieces).1;
    assert Feed(p, q.current) == Feed(p, Flat(pieces)).(input := q.current);
  }

  // ---------------------------------------------------------------- the type byte NUL

  /** Behind a type byte NUL the next call reads a second type line. */
  function NulRead(p: Parser, argc: int): Parser {
    p.(input := "", current := Head(argc) + TypeLine(NUL), argc := argc)
  }

  lemma NulTypeRead(p: Parser, argc: int, more: string)
    requires Boundary(p) && p.hasType && 1 <= argc <= INT_MAX
    requires p.input == Head(argc) + (TypeLine(NUL) + more)
    ensures var q := NulRead(p, argc).(input := more);
            Resolve(p) == if Available(more) then ArgsStage(q) else (Done, q)
  {
    HeaderRead(p, argc, TypeLine(NUL) + more);
    assert (TypeLine(NUL) + more)[2] == LF;
    var h := p.(input := TypeLine(NUL) + more, current := Head(argc), argc := argc);
    assert "" + Head(argc) == Head(argc);
    assert HeaderStage(p) == Proceed(h);
    TypeRead(h, NUL, more);
  }

  lemma BodiesEndIt(r: Parser, args: seq<string>)
    requires !r.wrap && !r.complete && r.argc == |args| && r.argvLen == -1 && r.argv == []
    requires args != [] && (forall i :: 0 <= i < |args| ==> |args[i]| <= INT_MAX) && r.input == Bodies(args)
    ensures ArgsStage(r) == (Done, r.(input := "", current := r.current + Bodies(args),
                                      argv := args, argc := 0, complete := true))
  {
    assert Bodies(args) + "" == Bodies(args) && [] + args == args;
    BodiesRead(r, args, "");
  }

  lemma SecondTypeRead(q: Parser, t: char, args: seq<string>)
    requires q.hasType && !q.wrap && q.commandType == NUL && !q.complete
    requires q.argc == |args| && q.argvLen == -1 && q.argv == []
    requires Printable(true, t, args) && q.input == TypeLine(t) + Bodies(args)
    ensures Resolve(q) == (Done, q.(input := "", current := q.current + TypeLine(t) + Bodies(args),
                                    commandType := t, argv := args, argc := 0, complete := true))
  {
    TypeRead(q, t, Bodies(args));
    BodiesAvailable(args, "");
    assert Bodies(args) + "" == Bodies(args);
    var r := q.(input := Bodies(args), current := q.current + TypeLine(t), commandType := t);
    assert HeaderStage(q) == Proceed(q) && TypeStage(q) == Proceed(r);
    BodiesEndIt(r, args);
  }

  lemma TwoCalls(p: Parser, a: string, b: string)
    requires !p.complete && Resolve(Feed(p, a)).0 == Done && !Resolve(Feed(p, a)).1.complete
    ensures FeedAll(p, [a, b]) == Resolve(Feed(Resolve(Feed(p, a)).1, b)) && Flat([a, b]) == a + b
  {
    assert [a, b][..1] == [a] && [a][..0] == [];
    assert Flat([a]) == a;
    assert FeedAll(p, [a]) == Resolve(Feed(p, a));
  }

  lemma NulTypeOnce(p: Parser, argc: int)
    requires Boundary(p) && p.input == "" && p.hasType && 1 <= argc <= INT_MAX
    ensures Resolve(Feed(p, Head(argc) + TypeLine(NUL))) == (Done, NulRead(p, argc))
  {
    assert Feed(p, Head(argc) + TypeLine(NUL)).input == Head(argc) + (TypeLine(NUL) + "");
    NulTypeRead(Feed(p, Head(argc) + TypeLine(NUL)), argc, "");
  }

  lemma NulTypeTwice(p: Parser, argc: int, b: string)
    requires Boundary(p) && p.input == "" && p.hasType && 1 <= argc <= INT_MAX
    requires Available(b) && b[0] != '$'
    ensures Resolve(Feed(p, Head(argc) + TypeLine(NUL) + b)).0 == Failed
  {
    var r := Feed(p, Head(argc) + TypeLine(NUL) + b);
    Assoc(Head(argc), TypeLine(NUL), b);
    assert r.input == Head(argc) + (TypeLine(NUL) + b);
    NulTypeRead(r, argc, b);
  }

  /** With the type byte NUL the split decides how a command is read, and its bytes do not parse again. */
  lemma NulTypeBreaks(p: Parser, t: char, args: seq<string>)
    requires Boundary(p) && p.input == "" && p.hasType && !p.wrap && Printable(true, t, args)
    ensures var pieces := [Head(|args|) + TypeLine(NUL), TypeLine(t) + Bodies(args)];
            var q := FeedAll(p, pieces).1;
            && FeedAll(p, pieces).0 == Done && q.complete && q.argv == args
            && q.current == Flat(pieces) && Resolve(Feed(p, q.current)).0 == Failed
  {
    var a, b := Head(|args|) + TypeLine(NUL), TypeLine(t) + Bodies(args);
    NulTypeOnce(p, |args|);
    TwoCalls(p, a, b);
    assert Feed(NulRead(p, |args|), b).input == b;
    SecondTypeRead(Feed(NulRead(p, |args|), b), t, args);
    Assoc(a, TypeLine(t), Bodies(args));
    assert b[2] == LF && b[0] == '#';
    NulTypeTwice(p, |args|, b);
  }
}
