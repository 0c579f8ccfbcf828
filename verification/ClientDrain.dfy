/**
 * What the event loop does to one cluster client: resolve, execute, reset, and again while the
 * buffer holds a line. EventPoll.dfy runs it for all clients in turn.
 */
module ClientDrain {
  import opened EntryLog
  import opened Decimal
  import opened Protocol
  import opened RoundTrip
  import opened Chunking
  import opened FrameSplits

  datatype Command = Command(commandType: char, argv: seq<string>, bytes: string)

  datatype Client = Client(parser: Parser, executed: seq<Command>)

  /** How a pass leaves a client; a crash takes the process with it. */
  datatype End = Idle(client: Client) | Closed(executed: seq<Command>) | Crashed

  function CommandOf(p: Parser): Command { Command(p.commandType, p.argv, p.current) }

  /** The client after a command: recorded, and the parser ready for the next. */
  function Executed(c: Client, q: Parser): Client { Client(Ready(q), c.executed + [CommandOf(q)]) }

  /** What the leading stages leave: no more input, and none with a line if they end the call well. */
  lemma HeaderLeaves(p: Parser)
    requires Available(p.input)
    ensures var s := HeaderStage(p);
            && |s.parser.input| <= |p.input| && s.parser.complete == p.complete
            && (s.Return? && s.outcome == Done ==> !Available(s.parser.input))
            && (s.Proceed? && (p.argc == -1 || p.argc > 0) ==> s.parser.argc > 0)
  {
  }

  lemma TypeLeaves(p: Parser)
    requires Available(p.input)
    ensures var s := TypeStage(p);
            && |s.parser.input| <= |p.input| && s.parser.complete == p.complete && s.parser.argc == p.argc
            && (s.Return? && s.outcome == Done ==> !Available(s.parser.input))
  {
  }

  lemma RestShrinks(p: Parser)
    requires Available(p.input) && !p.complete && AfterHeader(p).0 == Done && AfterHeader(p).1.complete
    ensures |AfterHeader(p).1.input| < |p.input|
  {
    TypeLeaves(p);
    if TypeStage(p).Proceed? { LoopShrinks(TypeStage(p).parser); }
  }

  lemma CompleteShrinks(p: Parser)
    requires !p.complete && Resolve(p).0 == Done && Resolve(p).1.complete
    ensures |Resolve(p).1.input| < |p.input|
  {
    HeaderLeaves(p);
    if HeaderStage(p).Proceed? { RestShrinks(HeaderStage(p).parser); }
  }

  lemma LoopShrinks(p: Parser)
    requires !p.complete && Args(p).0 == Done
    ensures Args(p).1.complete ==> |Args(p).1.input| < |p.input|
  {
    if Available(p.input) {
      StepShrinks(p);
      ArgsShrink(ArgStep(p).1);
    }
  }

  /** A call that ends well without completing the command leaves no whole line behind. */
  lemma {:induction false} LoopRunsDry(p: Parser)
    requires p.argc > 0 && !p.complete && Args(p).0 == Done && !Args(p).1.complete
    ensures !Available(Args(p).1.input)
    decreases |p.input|
  {
    if Available(p.input) {
      StepCounts(p);
      var q := ArgStep(p).1;
      if !(p.argvLen != -1 && q.argc == 0) { LoopRunsDry(q); }
    }
  }

  lemma RestRunsDry(p: Parser)
    requires Available(p.input) && p.argc > 0 && !p.complete && AfterHeader(p).0 == Done && !AfterHeader(p).1.complete
    ensures !Available(AfterHeader(p).1.input)
  {
    TypeLeaves(p);
    if TypeStage(p).Proceed? { LoopRunsDry(TypeStage(p).parser); }
  }

  lemma IncompleteRunsDry(p: Parser)
    requires Underway(p) && Resolve(p).0 == Done && !Resolve(p).1.complete
    ensures !Available(Resolve(p).1.input)
  {
    if Available(p.input) {
      HeaderLeaves(p);
      if HeaderStage(p).Proceed? { RestRunsDry(HeaderStage(p).parser); }
    }
  }

  /** The whole pass over one client: it comes back to the queue as long as its buffer holds a line. */
  function Drained(accept: Command -> bool, c: Client): (e: End)
    requires !c.parser.complete
    ensures e.Idle? ==> !e.client.parser.complete
    decreases |c.parser.input|
  {
    var (o, q) := Resolve(c.parser);
    if o == Failed then Closed(c.executed)
    else if o != Done then Crashed
    else if !q.complete then
      Idle(Client(q, c.executed))
    else if !accept(CommandOf(q)) then Closed(c.executed)
    else
      CompleteShrinks(c.parser);
      if Available(q.input) then Drained(accept, Executed(c, q)) else Idle(Executed(c, q))
  }

  /** A client that a pass leaves idle is fit for the next pass. */
  lemma {:induction false} DrainedUnderway(accept: Command -> bool, c: Client)
    requires Underway(c.parser) && Drained(accept, c).Idle?
    ensures Underway(Drained(accept, c).client.parser)
    decreases |c.parser.input|
  {
    var q := Resolve(c.parser).1;
    ResolveUnderway(c.parser);
    if q.complete {
      CompleteShrinks(c.parser);
      if Available(q.input) { DrainedUnderway(accept, Executed(c, q)); }
    }
  }

  // ---------------------------------------------------------------- pipelined frames

  datatype Sent = Sent(commandType: char, args: seq<string>)

  function Stream(typed: bool, sent: seq<Sent>): string {
    if sent == [] then ""
    else Frame(typed, sent[0].commandType, sent[0].args) + Stream(typed, sent[1..])
  }

  /** What a client in the mode of p executes for a frame. */
  function Meant(p: Parser, s: Sent): Command {
    var frame := Frame(p.hasType, s.commandType, s.args);
    Command(if p.hasType then s.commandType else p.commandType,
            if p.wrap then [p.wrapName, frame] else s.args, frame)
  }

  function AllMeant(p: Parser, sent: seq<Sent>): seq<Command> {
    if sent == [] then [] else [Meant(p, sent[0])] + AllMeant(p, sent[1..])
  }

  predicate AllAccepted(accept: Command -> bool, p: Parser, sent: seq<Sent>) {
    forall i :: 0 <= i < |sent| ==> accept(Meant(p, sent[i]))
  }

  predicate AllPrintable(typed: bool, sent: seq<Sent>) {
    forall i :: 0 <= i < |sent| ==> Printable(typed, sent[i].commandType, sent[i].args)
  }

  function With(c: Client, input: string, more: seq<Command>): Client {
    Client(c.parser.(input := input), c.executed + more)
  }

  /** The pass over c goes on as the pass over d, which is where it stands. */
  predicate PassesOn(accept: Command -> bool, c: Client, d: Client)
    requires !c.parser.complete && !d.parser.complete
  {
    Drained(accept, c) == if Available(d.parser.input) then Drained(accept, d) else Idle(d)
  }

  lemma FrameDrained(accept: Command -> bool, c: Client, s: Sent, rest: string)
    requires Boundary(c.parser) && Printable(c.parser.hasType, s.commandType, s.args)
    requires accept(Meant(c.parser, s))
    requires c.parser.input == Frame(c.parser.hasType, s.commandType, s.args) + rest
    ensures PassesOn(accept, c, With(c, rest, [Meant(c.parser, s)]))
  {
    PrintThenParse(c.parser, s.commandType, s.args, rest);
    var q := Parsed(c.parser, s.commandType, s.args, rest);
    assert q.complete && CommandOf(q) == Meant(c.parser, s);
    assert Ready(q) == c.parser.(input := rest);
  }

  lemma Join(a: seq<Command>, b: seq<Command>, c: seq<Command>)
    ensures (a + b) + c == a + (b + c)
  {
  }

  lemma WithStep(c: Client, more: string, rest: string, sent: seq<Sent>)
    requires sent != []
    ensures var next := With(c, more, [Meant(c.parser, sent[0])]);
            With(next, rest, AllMeant(next.parser, sent[1..])) == With(c, rest, AllMeant(c.parser, sent))
  {
    SameMode(c.parser, more, sent[1..]);
    Join(c.executed, [Meant(c.parser, sent[0])], AllMeant(c.parser, sent[1..]));
  }

  lemma RestAccepted(accept: Command -> bool, c: Client, more: string, sent: seq<Sent>)
    requires sent != [] && AllAccepted(accept, c.parser, sent)
    ensures AllAccepted(accept, With(c, more, [Meant(c.parser, sent[0])]).parser, sent[1..])
  {
    SameMode(c.parser, more, sent[1..]);
  }

  lemma PassesOnTwice(accept: Command -> bool, c: Client, d: Client, e: Client)
    requires !c.parser.complete && !d.parser.complete && !e.parser.complete
    requires PassesOn(accept, c, d) && Available(d.parser.input) && PassesOn(accept, d, e)
    ensures PassesOn(accept, c, e)
  {
  }

  /**
   * Pipelined frames: one pass executes exactly these commands, in order, and is left with
   * whatever follows them.
   */
  lemma {:induction false} PipelineDrained(accept: Command -> bool, c: Client, sent: seq<Sent>, rest: string)
    requires Boundary(c.parser) && AllPrintable(c.parser.hasType, sent) && AllAccepted(accept, c.parser, sent)
    requires sent != [] && c.parser.input == Stream(c.parser.hasType, sent) + rest
    ensures PassesOn(accept, c, With(c, rest, AllMeant(c.parser, sent)))
    decreases |sent|
  {
    var typed := c.parser.hasType;
    var more := Stream(typed, sent[1..]) + rest;
    Assoc(Frame(typed, sent[0].commandType, sent[0].args), Stream(typed, sent[1..]), rest);
    FrameDrained(accept, c, sent[0], more);
    WithStep(c, more, rest, sent);
    var next := With(c, more, [Meant(c.parser, sent[0])]);
    if |sent| == 1 {
      assert Stream(typed, sent[1..]) == "" && AllMeant(next.parser, sent[1..]) == [];
      assert more == rest;
      assert next == With(next, rest, []);
    } else {
      RestAccepted(accept, c, more, sent);
      StreamAvailable(typed, sent[1..], rest);
      PipelineDrained(accept, next, sent[1..], rest);
      PassesOnTwice(accept, c, next, With(c, rest, AllMeant(c.parser, sent)));
    }
  }

  lemma {:induction false} SameMode(p: Parser, input: string, sent: seq<Sent>)
    ensures AllMeant(p.(input := input), sent) == AllMeant(p, sent)
    ensures forall i :: 0 <= i < |sent| ==> Meant(p.(input := input), sent[i]) == Meant(p, sent[i])
  {
    if sent != [] { SameMode(p, input, sent[1..]); }
  }

  lemma StreamAvailable(typed: bool, sent: seq<Sent>, rest: string)
    requires AllPrintable(typed, sent) && sent != []
    ensures Available(Stream(typed, sent) + rest)
  {
    var s := Stream(typed, sent) + rest;
    var h := Head(|sent[0].args|);
    assert s[|h| - 1] == LF;
  }
}
