/**
 * The wire format of ProtocolStream as functions: the incremental parser, which keeps its
 * place between calls, and the printer. ProtocolStream.dfy runs them in place.
 */
module Protocol {
  import opened EntryLog
  import opened Decimal

  const LF := '\n'
  const NUL := 0 as char

  /** How a call ends: CABINET_OK, CABINET_ERR, an exception out of stoi, or an index outside the buffer. */
  datatype Outcome = Done | Failed | Thrown | OutOfBounds

  datatype Parser = Parser(
    hasType: bool,
    wrap: bool,
    wrapName: string,
    input: string,
    current: string,      // what has been consumed of the current command
    argc: int,            // -1 before a command, otherwise the arguments still to come
    argv: seq<string>,
    argvLen: int,         // -1 unless an argument's length is known
    complete: bool,
    commandType: char)

  /** The parser of a client that has received nothing: typed, without a wrapping command. */
  const NEW_STREAM := Parser(true, false, "none", "", "", -1, [], -1, false, NUL)

  /** The position of the first LF, or |s|. */
  function FirstLF(s: string): (k: nat)
    ensures k <= |s|
    ensures k < |s| ==> s[k] == LF
    ensures forall j :: 0 <= j < k ==> s[j] != LF
    ensures k < |s| <==> LF in s
  {
    if s == [] then 0 else if s[0] == LF then 0 else 1 + FirstLF(s[1..])
  }

  predicate Available(s: string) { LF in s }

  // ---------------------------------------------------------------- parser

  /** A stage of one call: it returns from the call, or falls through to the next stage. */
  datatype Stage = Return(outcome: Outcome, parser: Parser) | Proceed(parser: Parser)

  /** Moves the first n bytes of the input to the current command. */
  function Consume(p: Parser, n: nat): Parser
    requires n <= |p.input|
  {
    p.(current := p.current + p.input[..n], input := p.input[n..])
  }

  function ReturnIfDry(p: Parser): Stage {
    if Available(p.input) then Proceed(p) else Return(Done, p)
  }

  function HeaderStage(p: Parser): Stage
    requires Available(p.input)
  {
    if p.argc != -1 then Proceed(p)
    else if p.input[0] != '*' then Return(Failed, p)
    else
      var k := FirstLF(p.input);
      var n := Stoi(p.input[1..k + 1]);
      if n.None? then Return(Thrown, p)
      else if n.value <= 0 then Return(Failed, p.(argc := n.value))
      else ReturnIfDry(Consume(p.(argc := n.value), k + 1))
  }

  function TypeStage(p: Parser): Stage
    requires Available(p.input)
  {
    if !p.hasType || p.commandType != NUL then Proceed(p)
    else if p.input[0] != '#' then Return(Failed, p)
    else
      var k := FirstLF(p.input);
      if k != 2 then Return(Failed, p)
      else ReturnIfDry(Consume(p.(commandType := p.input[1]), k + 1))
  }

  /** One round of the argument loop: a length line or an argument. */
  function ArgStep(p: Parser): (Outcome, Parser)
    requires Available(p.input)
  {
    if p.argvLen == -1 then
      if p.input[0] != '$' then (Failed, p)
      else
        var k := FirstLF(p.input);
        var n := Stoi(p.input[1..k + 1]);
        if n.None? then (Thrown, p) else (Done, Consume(p.(argvLen := n.value), k + 1))
    else if p.argvLen < 0 || p.argvLen > |p.input| then (OutOfBounds, p)
    else if p.argvLen == |p.input| || p.input[p.argvLen] != LF then (Failed, p)
    else
      (Done, Consume(p, p.argvLen + 1).(argv := p.argv + [p.input[..p.argvLen]], argvLen := -1,
                                        argc := p.argc - 1, complete := p.complete || p.argc == 1))
  }

  /** The argument loop: until the input is dry, the command is complete, or something is wrong. */
  function Args(p: Parser): (r: (Outcome, Parser))
    decreases |p.input|
  {
    if !Available(p.input) then (Done, p)
    else
      var (o, q) := ArgStep(p);
      if o != Done || (p.argvLen != -1 && q.argc == 0) then (o, q) else Args(q)
  }

  function Wrap(p: Parser): Parser {
    if p.wrap then p.(argv := [p.wrapName, p.current]) else p
  }

  function ArgsStage(p: Parser): (Outcome, Parser) {
    var (o, q) := Args(p);
    if o == Done then (Done, Wrap(q)) else (o, q)
  }

  function AfterHeader(p: Parser): (Outcome, Parser)
    requires Available(p.input)
  {
    match TypeStage(p)
    case Return(o, q) => (o, q)
    case Proceed(q) => ArgsStage(q)
  }

  /** One call of resolveReceiveBuf. */
  function Resolve(p: Parser): (Outcome, Parser) {
    if !Available(p.input) then (Done, p)
    else
      match HeaderStage(p)
      case Return(o, q) => (o, q)
      case Proceed(q) => AfterHeader(q)
  }

  function Feed(p: Parser, s: string): Parser { p.(input := p.input + s) }

  /** getReadyForNextCommand. */
  function Ready(p: Parser): Parser {
    p.(current := "", argc := -1, argv := [], argvLen := -1, complete := false, commandType := NUL)
  }

  /** At a command boundary: nothing of a command has been consumed. */
  predicate Boundary(p: Parser) { p == Ready(p) }

  // ---------------------------------------------------------------- printer

  function Head(argc: int): string { "*" + ToString(argc) + [LF] }

  function TypeLine(t: char): string { ['#', t, LF] }

  function Body(part: string): string { "$" + ToString(|part|) + [LF] + part + [LF] }

  function Bodies(args: seq<string>): string {
    if args == [] then "" else Body(args[0]) + Bodies(args[1..])
  }

  /** A printed command; `typed` says whether the mode has a type line. */
  function Frame(typed: bool, t: char, args: seq<string>): string {
    Head(|args|) + (if typed then TypeLine(t) else "") + Bodies(args)
  }

  /** What can be printed and read back: at least one argument, int-sized numbers, a usable type byte. */
  predicate Printable(typed: bool, t: char, args: seq<string>) {
    && 1 <= |args| <= INT_MAX
    && (forall i :: 0 <= i < |args| ==> |args[i]| <= INT_MAX)
    && (typed ==> t != LF)
  }

  /** A type byte that the parser can tell from a type not yet read. */
  predicate Telling(typed: bool, t: char) { typed ==> t != NUL }

  /** The parser after a whole frame, with the rest of the input untouched. */
  function Parsed(p: Parser, t: char, args: seq<string>, rest: string): Parser {
    var frame := Frame(p.hasType, t, args);
    Wrap(p.(input := rest, current := frame, argc := 0, argv := args, complete := true,
            commandType := if p.hasType then t else p.commandType))
  }
}
