/** A stream of commands served read by read: neither the reads nor the frames' borders in them matter. */
module Pipelines {
  import opened EntryLog
  import opened Decimal
  import opened Protocol
  import opened RoundTrip
  import opened Chunking
  import opened FrameSplits
  import opened ClientDrain

  function FeedClient(c: Client, s: string): Client { Client(Feed(c.parser, s), c.executed) }

  /** No call of the pass reads a type byte NUL and has to wait for the rest of the command. */
  predicate NulFree(accept: Command -> bool, c: Client)
    requires !c.parser.complete
    decreases |c.parser.input|
  {
    && !Forgets(c.parser)
    && var (o, q) := Resolve(c.parser);
       o == Done && q.complete && accept(CommandOf(q)) && Available(q.input) ==>
         (CompleteShrinks(c.parser);
          NulFree(accept, Executed(c, q)))
  }

  lemma FeedCommutes(c: Client, q: Parser, t: string)
    ensures CommandOf(Feed(q, t)) == CommandOf(q)
    ensures Executed(FeedClient(c, t), Feed(q, t)) == FeedClient(Executed(c, q), t)
  {
  }

  lemma DryIsIdle(accept: Command -> bool, c: Client)
    requires !c.parser.complete && !Available(c.parser.input)
    ensures Drained(accept, c) == Idle(c)
  {
  }

  lemma IncompleteMore(accept: Command -> bool, c: Client, t: string)
    requires Underway(c.parser) && !Forgets(c.parser)
    requires Resolve(c.parser).0 == Done && !Resolve(c.parser).1.complete
    ensures Drained(accept, FeedClient(c, t)) == Drained(accept, FeedClient(Client(Resolve(c.parser).1, c.executed), t))
  {
    ResolveMore(c.parser, t);
  }

  lemma CompleteMore(accept: Command -> bool, c: Client, t: string)
    requires Underway(c.parser) && !Forgets(c.parser)
    requires Resolve(c.parser).0 == Done && Resolve(c.parser).1.complete && accept(CommandOf(Resolve(c.parser).1))
    ensures Drained(accept, FeedClient(c, t)) == Drained(accept, FeedClient(Executed(c, Resolve(c.parser).1), t))
  {
    var q := Resolve(c.parser).1;
    ResolveMore(c.parser, t);
    FeedCommutes(c, q, t);
    if !Available(q.input + t) { DryIsIdle(accept, FeedClient(Executed(c, q), t)); }
  }

  /** A pass over what has come so far, then a pass over what comes next: the same as one pass over both. */
  lemma {:induction false} DrainedMore(accept: Command -> bool, c: Client, t: string)
    requires Underway(c.parser) && NulFree(accept, c) && Drained(accept, c).Idle?
    ensures Drained(accept, FeedClient(c, t)) == Drained(accept, FeedClient(Drained(accept, c).client, t))
    decreases |c.parser.input|
  {
    var q := Resolve(c.parser).1;
    if q.complete {
      CompleteMore(accept, c, t);
      CompleteShrinks(c.parser);
      if Available(q.input) { DrainedMore(accept, Executed(c, q), t); }
    } else {
      IncompleteMore(accept, c, t);
    }
  }

  /** The packets as they arrive, with a pass after each. */
  function Serve(accept: Command -> bool, c: Client, packets: seq<string>): (e: End)
    requires !c.parser.complete
    ensures e.Idle? ==> !e.client.parser.complete
  {
    if packets == [] then Idle(c)
    else
      match Serve(accept, c, packets[..|packets| - 1])
      case Idle(d) => Drained(accept, FeedClient(d, packets[|packets| - 1]))
      case e => e
  }

  // ---------------------------------------------------------------- prefixes of a stream

  /** Frames that may be split anywhere. */
  predicate Splittable(typed: bool, s: Sent) { Telling(typed, s.commandType) && OneLiners(s.args) }

  predicate AllSplittable(typed: bool, sent: seq<Sent>) { forall i :: 0 <= i < |sent| ==> Splittable(typed, sent[i]) }

  lemma FrameLeavesNothing(p: Parser, f: Sent)
    requires Boundary(p) && p.input == "" && Printable(p.hasType, f.commandType, f.args)
    ensures Resolve(Feed(p, Frame(p.hasType, f.commandType, f.args))).1.input == ""
  {
    var frame := Frame(p.hasType, f.commandType, f.args);
    assert Feed(p, frame).input == frame + "";
    PrintThenParse(Feed(p, frame), f.commandType, f.args, "");
  }

  lemma CompleteKeepsRest(p: Parser, u: string)
    requires Underway(p) && !Forgets(p)
    requires Resolve(p).0 == Done && Resolve(p).1.complete
    ensures |Resolve(Feed(p, u)).1.input| >= |u|
  {
    ResolveMore(p, u);
    var q := Resolve(p).1;
    assert Resolve(Feed(p, u)) == (Done, Feed(q, u));
  }

  /** A frame cut short is not yet a command. */
  lemma CutFrameIncomplete(p: Parser, f: Sent, s: string, u: string)
    requires Boundary(p) && p.input == "" && Printable(p.hasType, f.commandType, f.args) && Splittable(p.hasType, f)
    requires s + u == Frame(p.hasType, f.commandType, f.args) && u != ""
    ensures Resolve(Feed(p, s)).0 == Done && !Resolve(Feed(p, s)).1.complete && !Forgets(Feed(p, s))
  {
    var frame := Frame(p.hasType, f.commandType, f.args);
    assert frame + "" == frame;
    FramePrefix(p, f.commandType, f.args, "", s, u);
    if p.hasType { FrameNotNulTyped(f.commandType, f.args, ""); }
    NoNulRead(p, s, u);
    FrameLeavesNothing(p, f);
    FeedTwice(p, s, u);
    if Resolve(Feed(p, s)).1.complete { CompleteKeepsRest(Feed(p, s), u); }
  }

  predicate Fine(accept: Command -> bool, c: Client)
    requires !c.parser.complete
  {
    NulFree(accept, c) && Drained(accept, c).Idle?
  }

  lemma CutFrameFine(accept: Command -> bool, c: Client, f: Sent, s: string, u: string)
    requires Boundary(c.parser) && c.parser.input == ""
    requires Printable(c.parser.hasType, f.commandType, f.args) && Splittable(c.parser.hasType, f)
    requires s + u == Frame(c.parser.hasType, f.commandType, f.args) && u != ""
    ensures Fine(accept, FeedClient(c, s))
  {
    CutFrameIncomplete(c.parser, f, s, u);
  }

  lemma FineBefore(accept: Command -> bool, c: Client)
    requires !c.parser.complete && !Forgets(c.parser)
    requires var (o, q) := Resolve(c.parser);
             && o == Done && q.complete && accept(CommandOf(q))
             && (Available(q.input) ==> Fine(accept, Executed(c, q)))
    ensures Fine(accept, c)
  {
  }

  lemma WholeFrameFine(accept: Command -> bool, c: Client, f: Sent, s: string)
    requires Boundary(c.parser) && c.parser.input == ""
    requires Printable(c.parser.hasType, f.commandType, f.args) && accept(Meant(c.parser, f))
    requires var next := FeedClient(With(c, "", [Meant(c.parser, f)]), s);
             Available(s) ==> Fine(accept, next)
    ensures Fine(accept, FeedClient(c, Frame(c.parser.hasType, f.commandType, f.args) + s))
  {
    var p := c.parser;
    var input := Frame(p.hasType, f.commandType, f.args) + s;
    var d := FeedClient(c, input);
    assert d.parser.input == input;
    FrameExecuted(d, f, s);
    assert !Forgets(d.parser);
    assert FeedClient(With(c, "", [Meant(p, f)]), s) == With(d, s, [Meant(p, f)]);
    FineBefore(accept, d);
  }

  lemma FrameExecuted(c: Client, f: Sent, s: string)
    requires Boundary(c.parser) && Printable(c.parser.hasType, f.commandType, f.args)
    requires c.parser.input == Frame(c.parser.hasType, f.commandType, f.args) + s
    ensures var (o, q) := Resolve(c.parser);
            && o == Done && q.complete && CommandOf(q) == Meant(c.parser, f) && q.input == s
            && Executed(c, q) == With(c, s, [Meant(c.parser, f)])
  {
    PrintThenParse(c.parser, f.commandType, f.args, s);
  }

  lemma SplitAt(frame: string, more: string, s: string, u: string)
    requires s + u == frame + more
    ensures |s| >= |frame| ==> s == frame + s[|frame|..] && s[|frame|..] + u == more
    ensures |s| < |frame| ==> s + frame[|s|..] == frame
  {
    var w := s + u;
    assert w[..|frame|] == frame && w[|frame|..] == more && w[..|s|] == s && w[|s|..] == u;
  }

  lemma {:induction false} StreamPrefixFine(accept: Command -> bool, c: Client, sent: seq<Sent>, s: string, u: string)
    requires Boundary(c.parser) && c.parser.input == ""
    requires AllPrintable(c.parser.hasType, sent) && AllSplittable(c.parser.hasType, sent)
    requires AllAccepted(accept, c.parser, sent)
    requires s + u == Stream(c.parser.hasType, sent)
    ensures Fine(accept, FeedClient(c, s))
    decreases |sent|
  {
    if sent == [] {
      DryIsIdle(accept, FeedClient(c, s));
    } else {
      var f := sent[0];
      var frame := Frame(c.parser.hasType, f.commandType, f.args);
      SplitAt(frame, Stream(c.parser.hasType, sent[1..]), s, u);
      if |s| >= |frame| {
        RestAccepted(accept, c, "", sent);
        StreamPrefixFine(accept, With(c, "", [Meant(c.parser, f)]), sent[1..], s[|frame|..], u);
        WholeFrameFine(accept, c, f, s[|frame|..]);
      } else {
        CutFrameFine(accept, c, f, s, frame[|s|..]);
      }
    }
  }

  // ---------------------------------------------------------------- main results

  lemma ServeStep(accept: Command -> bool, c: Client, packets: seq<string>)
    requires Boundary(c.parser) && packets != []
    requires var front := packets[..|packets| - 1];
             && Fine(accept, FeedClient(c, Flat(front)))
             && Serve(accept, c, front) == Drained(accept, FeedClient(c, Flat(front)))
    ensures Serve(accept, c, packets) == Drained(accept, FeedClient(c, Flat(packets)))
  {
    var front, last := packets[..|packets| - 1], packets[|packets| - 1];
    DrainedMore(accept, FeedClient(c, Flat(front)), last);
    FeedTwice(c.parser, Flat(front), last);
  }

  /** Read by read or all at once: the client ends in the same state. */
  lemma {:induction false} ReadsDoNotMatter(accept: Command -> bool, c: Client, sent: seq<Sent>,
                                            packets: seq<string>, u: string)
    requires Boundary(c.parser) && c.parser.input == ""
    requires AllPrintable(c.parser.hasType, sent) && AllSplittable(c.parser.hasType, sent)
    requires AllAccepted(accept, c.parser, sent)
    requires Flat(packets) + u == Stream(c.parser.hasType, sent)
    ensures Serve(accept, c, packets) == Drained(accept, FeedClient(c, Flat(packets)))
    ensures Serve(accept, c, packets).Idle?
    decreases |packets|
  {
    if packets == [] {
      assert FeedClient(c, "") == c;
      DryIsIdle(accept, c);
    } else {
      var front, last := packets[..|packets| - 1], packets[|packets| - 1];
      Assoc(Flat(front), last, u);
      ReadsDoNotMatter(accept, c, sent, front, last + u);
      StreamPrefixFine(accept, c, sent, Flat(front), last + u);
      StreamPrefixFine(accept, c, sent, Flat(packets), u);
      ServeStep(accept, c, packets);
    }
  }

  /** However a stream of commands is cut into reads, exactly these commands are executed, in order. */
  lemma StreamServed(accept: Command -> bool, c: Client, sent: seq<Sent>, packets: seq<string>)
    requires Boundary(c.parser) && c.parser.input == ""
    requires AllPrintable(c.parser.hasType, sent) && AllSplittable(c.parser.hasType, sent)
    requires AllAccepted(accept, c.parser, sent)
    requires Flat(packets) == Stream(c.parser.hasType, sent)
    ensures Serve(accept, c, packets) == Idle(Client(c.parser, c.executed + AllMeant(c.parser, sent)))
  {
    var whole := Flat(packets);
    assert whole + "" == whole;
    ReadsDoNotMatter(accept, c, sent, packets, "");
    StreamDrained(accept, c, sent);
  }

  lemma StreamDrained(accept: Command -> bool, c: Client, sent: seq<Sent>)
    requires Boundary(c.parser) && c.parser.input == ""
    requires AllPrintable(c.parser.hasType, sent) && AllAccepted(accept, c.parser, sent)
    ensures Drained(accept, FeedClient(c, Stream(c.parser.hasType, sent)))
            == Idle(Client(c.parser, c.executed + AllMeant(c.parser, sent)))
  {
    var whole := Stream(c.parser.hasType, sent);
    var d := FeedClient(c, whole);
    assert d.parser.input == whole && whole + "" == whole;
    if sent == [] {
      DryIsIdle(accept, d);
      assert d == c && c.executed + [] == c.executed;
    } else {
      SameMode(c.parser, whole, sent);
      PipelineDrained(accept, d, sent, "");
    }
  }
}
