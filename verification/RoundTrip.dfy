/** Printing then parsing is the identity, and no byte is ever lost or invented. */
module RoundTrip {
  import opened EntryLog
  import opened Decimal
  import opened Protocol
  import opened ProtocolProgram

  // ---------------------------------------------------------------- one line

  lemma FirstLFOfLine(line: string, rest: string)
    requires LF !in line
    ensures FirstLF(line + [LF] + rest) == |line|
  {
    var s := line + [LF] + rest;
    assert s[|line|] == LF;
    var k := FirstLF(s);
    assert forall j :: 0 <= j < |line| ==> s[j] == line[j] != LF;
    assert k >= |line|;
  }

  lemma NoLFInNumber(n: int)
    ensures LF !in ToString(n)
  {
    var digits := NatToString(if n < 0 then -n else n);
    assert forall i :: 0 <= i < |digits| ==> IsDigit(digits[i]);
  }

  /** A number line behind a one-byte mark reads as the number. */
  lemma NumberLine(mark: char, n: int, rest: string)
    requires IsInt(n) && mark != LF
    ensures var line := [mark] + ToString(n) + [LF];
            var s := line + rest;
            && FirstLF(s) == |line| - 1
            && s[0] == mark
            && Stoi(s[1..|line|]) == Some(n)
            && s[..|line|] == line && s[|line|..] == rest
            && Available(s)
  {
    var line := [mark] + ToString(n) + [LF];
    var s := line + rest;
    NoLFInNumber(n);
    assert LF !in [mark] + ToString(n);
    assert s == ([mark] + ToString(n)) + [LF] + rest;
    FirstLFOfLine([mark] + ToString(n), rest);
    assert s[1..|line|] == ToString(n) + [LF];
    StoiToString(n, [LF]);
    assert s[|line| - 1] == LF;
  }

  // ---------------------------------------------------------------- arguments

  lemma LengthRead(p: Parser, n: int, rest: string)
    requires p.argvLen == -1 && IsInt(n) && p.input == "$" + ToString(n) + [LF] + rest
    ensures Available(p.input)
    ensures ArgStep(p) == (Done, p.(input := rest, current := p.current + ("$" + ToString(n) + [LF]), argvLen := n))
  {
    assert "$" == ['$'];
    NumberLine('$', n, rest);
  }

  lemma PartRead(p: Parser, part: string, rest: string)
    requires p.argvLen == |part| && p.input == part + [LF] + rest
    ensures Available(p.input)
    ensures ArgStep(p) == (Done, p.(input := rest, current := p.current + (part + [LF]), argv := p.argv + [part],
                                    argvLen := -1, argc := p.argc - 1, complete := p.complete || p.argc == 1))
  {
    var s := p.input;
    assert s[|part|] == LF;
    assert s[..|part|] == part;
    assert s[..|part| + 1] == part + [LF];
    assert s[|part| + 1..] == rest;
  }

  /** The parser between the two rounds that read one printed argument. */
  function LengthDone(p: Parser, part: string, rest: string): Parser {
    p.(input := part + [LF] + rest, current := p.current + ("$" + ToString(|part|) + [LF]), argvLen := |part|)
  }

  function BodyDone(p: Parser, part: string, rest: string): Parser {
    p.(input := rest, current := p.current + Body(part), argv := p.argv + [part],
       argc := p.argc - 1, complete := p.complete || p.argc == 1)
  }

  lemma BodyRead(p: Parser, part: string, rest: string)
    requires p.argvLen == -1 && p.input == Body(part) + rest && |part| <= INT_MAX
    ensures Available(p.input) && ArgStep(p) == (Done, LengthDone(p, part, rest))
    ensures Available(LengthDone(p, part, rest).input)
    ensures ArgStep(LengthDone(p, part, rest)) == (Done, BodyDone(p, part, rest))
  {
    var line := "$" + ToString(|part|) + [LF];
    assert p.input == line + (part + [LF] + rest);
    LengthRead(p, |part|, part + [LF] + rest);
    BodyEnds(p, part, rest);
  }

  lemma BodyEnds(p: Parser, part: string, rest: string)
    requires p.argvLen == -1
    ensures Available(LengthDone(p, part, rest).input)
    ensures ArgStep(LengthDone(p, part, rest)) == (Done, BodyDone(p, part, rest))
  {
    var line := "$" + ToString(|part|) + [LF];
    PartRead(LengthDone(p, part, rest), part, rest);
    assert p.current + line + (part + [LF]) == p.current + Body(part);
  }

  lemma BodiesAvailable(args: seq<string>, rest: string)
    requires args != []
    ensures Available(Bodies(args) + rest)
  {
    var b := Bodies(args) + rest;
    assert b[|Body(args[0])| - 1] == LF;
  }

  lemma ArgsOverBody(p: Parser, part: string, rest: string)
    requires p.argvLen == -1 && p.input == Body(part) + rest && |part| <= INT_MAX
    ensures var q := BodyDone(p, part, rest);
            Args(p) == if p.argc == 1 then (Done, q) else Args(q)
  {
    BodyRead(p, part, rest);
    var p1 := LengthDone(p, part, rest);
    assert Args(p) == Args(p1);
  }

  /** The parser after all printed arguments. */
  function BodiesDone(p: Parser, args: seq<string>, rest: string): Parser {
    p.(input := rest, current := p.current + Bodies(args), argv := p.argv + args, argc := 0, complete := true)
  }

  lemma BodiesDoneStep(p: Parser, args: seq<string>, rest: string)
    requires args != []
    ensures BodiesDone(p.(current := p.current + Body(args[0]), argv := p.argv + [args[0]]), args[1..], rest)
            == BodiesDone(p, args, rest)
  {
    assert p.current + Body(args[0]) + Bodies(args[1..]) == p.current + Bodies(args);
    assert p.argv + [args[0]] + args[1..] == p.argv + args;
  }

  /** The argument loop reads all printed arguments and stops right behind them. */
  lemma {:induction false} BodiesRead(p: Parser, args: seq<string>, rest: string)
    requires args != [] && p.argvLen == -1 && p.argc == |args| && !p.complete
    requires forall i :: 0 <= i < |args| ==> |args[i]| <= INT_MAX
    requires p.input == Bodies(args) + rest
    ensures Args(p) == (Done, BodiesDone(p, args, rest))
    decreases |args|
  {
    var more := Bodies(args[1..]) + rest;
    assert p.input == Body(args[0]) + more;
    ArgsOverBody(p, args[0], more);
    BodiesDoneStep(p, args, rest);
    if |args| == 1 {
      assert args == [args[0]] && more == rest && Bodies(args) == Body(args[0]);
    } else {
      BodiesRead(BodyDone(p, args[0], more), args[1..], rest);
    }
  }

  // ---------------------------------------------------------------- header and type

  lemma HeaderRead(p: Parser, argc: int, rest: string)
    requires p.argc == -1 && 1 <= argc <= INT_MAX && p.input == Head(argc) + rest
    ensures Available(p.input)
    ensures HeaderStage(p) == ReturnIfDry(p.(input := rest, current := p.current + Head(argc), argc := argc))
  {
    NumberLine('*', argc, rest);
    assert Head(argc) == ['*'] + ToString(argc) + [LF];
  }

  lemma TypeRead(p: Parser, t: char, rest: string)
    requires p.hasType && p.commandType == NUL && t != LF && p.input == TypeLine(t) + rest
    ensures Available(p.input)
    ensures TypeStage(p) == ReturnIfDry(p.(input := rest, current := p.current + TypeLine(t), commandType := t))
  {
    FirstLFOfLine(['#', t], rest);
    assert p.input == ['#', t] + [LF] + rest;
    assert p.input[2] == LF && p.input[..3] == TypeLine(t) && p.input[3..] == rest;
  }

  function Typing(p: Parser, t: char): string { if p.hasType then TypeLine(t) else "" }

  /** The parser behind the first line, and behind the type line where the mode has one. */
  function HeadDone(p: Parser, t: char, argc: int, tail: string): Parser {
    p.(input := Typing(p, t) + tail, current := Head(argc), argc := argc)
  }

  function TypeDone(p: Parser, t: char, argc: int, tail: string): Parser {
    p.(input := tail, current := Head(argc) + Typing(p, t), argc := argc,
       commandType := if p.hasType then t else NUL)
  }

  lemma HeadLineRead(p: Parser, t: char, argc: int, tail: string)
    requires Boundary(p) && 1 <= argc <= INT_MAX && Available(Typing(p, t) + tail)
    requires p.input == Head(argc) + (Typing(p, t) + tail)
    ensures Available(p.input) && HeaderStage(p) == Proceed(HeadDone(p, t, argc, tail))
  {
    HeaderRead(p, argc, Typing(p, t) + tail);
    assert p.current == "" && "" + Head(argc) == Head(argc);
  }

  lemma AvailableBehind(s: string, t: string)
    requires Available(t)
    ensures Available(s + t)
  {
    assert (s + t)[|s| + FirstLF(t)] == LF;
  }

  /** The two leading stages on a printed command whose arguments are under way. */
  lemma LeadRead(p: Parser, t: char, argc: int, tail: string)
    requires Boundary(p) && 1 <= argc <= INT_MAX && (p.hasType ==> t != LF)
    requires p.input == Head(argc) + Typing(p, t) + tail && Available(tail)
    ensures Available(p.input) && HeaderStage(p) == Proceed(HeadDone(p, t, argc, tail))
    ensures Available(HeadDone(p, t, argc, tail).input)
    ensures TypeStage(HeadDone(p, t, argc, tail)) == Proceed(TypeDone(p, t, argc, tail))
  {
    Assoc(Head(argc), Typing(p, t), tail);
    AvailableBehind(Typing(p, t), tail);
    HeadLineRead(p, t, argc, tail);
    TypeLineRead(p, t, argc, tail);
  }

  lemma TypeLineRead(p: Parser, t: char, argc: int, tail: string)
    requires Boundary(p) && (p.hasType ==> t != LF) && Available(tail)
    requires Available(HeadDone(p, t, argc, tail).input)
    ensures TypeStage(HeadDone(p, t, argc, tail)) == Proceed(TypeDone(p, t, argc, tail))
  {
    if p.hasType {
      TypeRead(HeadDone(p, t, argc, tail), t, tail);
    } else {
      assert "" + tail == tail && Head(argc) + "" == Head(argc);
    }
  }

  lemma TypeDoneThenBodies(p: Parser, t: char, args: seq<string>, rest: string)
    requires Boundary(p)
    ensures Wrap(BodiesDone(TypeDone(p, t, |args|, Bodies(args) + rest), args, rest)) == Parsed(p, t, args, rest)
  {
    var q := BodiesDone(TypeDone(p, t, |args|, Bodies(args) + rest), args, rest);
    var frame := Frame(p.hasType, t, args);
    assert p.argv == [] && [] + args == args;
    assert q.current == Head(|args|) + Typing(p, t) + Bodies(args);
    assert q.current == frame;
    assert q == p.(input := rest, current := frame, argc := 0, argv := args, complete := true,
                   commandType := if p.hasType then t else NUL);
  }

  lemma ArgsRead(p: Parser, t: char, args: seq<string>, rest: string)
    requires Boundary(p) && Printable(p.hasType, t, args)
    ensures ArgsStage(TypeDone(p, t, |args|, Bodies(args) + rest)) == (Done, Parsed(p, t, args, rest))
  {
    var r := TypeDone(p, t, |args|, Bodies(args) + rest);
    BodiesRead(r, args, rest);
    ArgsStageDone(r, BodiesDone(r, args, rest));
    TypeDoneThenBodies(p, t, args, rest);
  }

  lemma ArgsStageDone(p: Parser, q: Parser)
    requires Args(p) == (Done, q)
    ensures ArgsStage(p) == (Done, Wrap(q))
  {
  }

  /**
   * Parsing a printed frame yields exactly its arguments and type, the frame as the current
   * command, and leaves whatever follows in the input.
   */
  lemma PrintThenParse(p: Parser, t: char, args: seq<string>, rest: string)
    requires Boundary(p) && Printable(p.hasType, t, args)
    requires p.input == Frame(p.hasType, t, args) + rest
    ensures Resolve(p) == (Done, Parsed(p, t, args, rest))
  {
    var tail := Bodies(args) + rest;
    BodiesAvailable(args, rest);
    assert p.input == Head(|args|) + Typing(p, t) + tail;
    LeadRead(p, t, |args|, tail);
    ArgsRead(p, t, args, rest);
  }

  /** A reply put together with initReplyHead, appendCommandType and appendReplyBody is a frame. */
  method Print(stream: ProtocolStream, typed: bool, t: char, args: seq<string>)
    modifies stream`outputBuf
    ensures stream.outputBuf == old(stream.outputBuf) + Frame(typed, t, args)
  {
    stream.InitReplyHead(|args|);
    if typed { stream.AppendCommandType(t); }
    ghost var lead := stream.outputBuf;
    assert lead + Bodies(args) == old(stream.outputBuf) + Frame(typed, t, args);
    PrintBodies(stream, args);
  }

  method PrintBodies(stream: ProtocolStream, args: seq<string>)
    modifies stream`outputBuf
    ensures stream.outputBuf == old(stream.outputBuf) + Bodies(args)
  {
    assert args[0..] == args;
    for i := 0 to |args|
      invariant stream.outputBuf + Bodies(args[i..]) == old(stream.outputBuf) + Bodies(args)
    {
      assert args[i..][1..] == args[i + 1..];
      Assoc(stream.outputBuf, Body(args[i]), Bodies(args[i + 1..]));
      stream.AppendReplyBody(args[i]);
    }
  }

  // ---------------------------------------------------------------- conservation

  /** The bytes received since the last command boundary. */
  function Bytes(p: Parser): string { p.current + p.input }

  lemma ConsumeConserves(p: Parser, n: nat)
    requires n <= |p.input|
    ensures Bytes(Consume(p, n)) == Bytes(p)
  {
    assert p.current + p.input[..n] + p.input[n..] == p.current + (p.input[..n] + p.input[n..]);
    assert p.input == p.input[..n] + p.input[n..];
  }

  lemma ArgStepConserves(p: Parser)
    requires Available(p.input)
    ensures Bytes(ArgStep(p).1) == Bytes(p)
  {
    var k := if p.argvLen == -1 then FirstLF(p.input) else p.argvLen;
    if ArgStep(p).0 == Done {
      ConsumeConserves(p, k + 1);
      var q := ArgStep(p).1;
      assert q.current == Consume(p, k + 1).current && q.input == Consume(p, k + 1).input;
    }
  }

  lemma {:induction false} ArgsConserve(p: Parser)
    ensures Bytes(Args(p).1) == Bytes(p)
    decreases |p.input|
  {
    if Available(p.input) {
      ArgStepConserves(p);
      var (o, q) := ArgStep(p);
      if o == Done && !(p.argvLen != -1 && q.argc == 0) { ArgsConserve(q); }
    }
  }

  lemma HeaderConserves(p: Parser)
    requires Available(p.input)
    ensures Bytes(HeaderStage(p).parser) == Bytes(p)
  {
    ConsumeConserves(p, FirstLF(p.input) + 1);
  }

  lemma TypeConserves(p: Parser)
    requires Available(p.input)
    ensures Bytes(TypeStage(p).parser) == Bytes(p)
  {
    ConsumeConserves(p, FirstLF(p.input) + 1);
  }

  /** No call loses, invents or reorders a byte, however it ends. */
  lemma ResolveConserves(p: Parser)
    ensures Bytes(Resolve(p).1) == Bytes(p)
  {
    if Available(p.input) {
      HeaderConserves(p);
      var q := HeaderStage(p).parser;
      if HeaderStage(p).Proceed? {
        TypeConserves(q);
        ArgsConserve(TypeStage(q).parser);
      }
    }
  }

  datatype Op = Arrive(bytes: string) | Call

  function Perform(p: Parser, ops: seq<Op>): Parser {
    if ops == [] then p
    else
      var q := Perform(p, ops[..|ops| - 1]);
      match ops[|ops| - 1]
      case Arrive(s) => Feed(q, s)
      case Call => Resolve(q).1
  }

  function Received(ops: seq<Op>): string {
    if ops == [] then ""
    else
      Received(ops[..|ops| - 1])
      + (match ops[|ops| - 1] case Arrive(s) => s case Call => "")
  }

  /** Whatever is received and however often the parser is called, the bytes since the boundary are all there. */
  lemma {:induction false} BytesConserved(p: Parser, ops: seq<Op>)
    requires Boundary(p)
    ensures Bytes(Perform(p, ops)) == p.input + Received(ops)
  {
    if ops == [] {
      assert Bytes(p) == p.input + "";
    } else {
      var before := ops[..|ops| - 1];
      var q := Perform(p, before);
      BytesConserved(p, before);
      ResolveConserves(q);
      match ops[|ops| - 1]
      case Arrive(s) =>
        assert Bytes(Feed(q, s)) == Bytes(q) + s;
        assert p.input + Received(before) + s == p.input + (Received(before) + s);
      case Call =>
        assert Received(before) + "" == Received(before);
    }
  }
}
