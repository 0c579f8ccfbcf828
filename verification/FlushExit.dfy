/** A run in which a node's own flush ends its process: the condition of Applied can be met. */
module FlushExit {
  import opened EntryLog
  import opened ClusterNode
  import opened World
  import opened TwoLeaders
  import opened Applied

  /** Node 1, tied to node 3. */
  ghost predicate Stage(n: Node, role: Role, term: int, commitIndex: int, log: seq<Entry>) {
    && !n.halted && n.id == 1 && n.role == role && n.term == term && n.commitIndex == commitIndex && n.log == log
    && n.winVoteBaseline == 2 && Tied(n.table, 3)
    && (role == Candidate ==> n.receiveVotes == 1)
    && (role == Leader ==> n.lastEntryIndex == |log|)
  }

  // ---------------------------------------------------------------- steps of single nodes

  lemma TakesEntry(n: Node, content: string)
    requires Stage(n, Leader, 2, 0, [])
    ensures var r := Step(n, Request(content)); r.out == [] && Stage(r.node, Leader, 2, 0, [Entry(1, 2, content)])
  {
  }

  lemma StepsDown(n: Node, term: int, commitIndex: int, log: seq<Entry>)
    requires Stage(n, Leader, term, commitIndex, log)
    ensures var r := Step(n, Cron(false, false)); r.out == [] && Stage(r.node, Follower, term, commitIndex, log)
  {
  }

  lemma Waits(n: Node, term: int, commitIndex: int, log: seq<Entry>)
    requires Stage(n, Follower, term, commitIndex, log)
    ensures SiblingsBaseline(n.table) && Step(n, Cron(true, false)) == Res(n, [])
  {
    TiedFacts(n.table, 3);
  }

  function Asks(term: int, log: seq<Entry>): Message { RequestVote(term, 1, Last(log).index, Last(log).term) }

  lemma StandsAgain(n: Node, term: int, commitIndex: int, log: seq<Entry>)
    requires Stage(n, Follower, term, commitIndex, log)
    ensures var r := Step(n, Cron(true, true));
            r.out == [Send(3, Asks(term + 1, log))] && Stage(r.node, Candidate, term + 1, commitIndex, log)
  {
    TiedFacts(n.table, 3);
    var c := n.(role := Candidate, term := term + 1, votedFor := n.id, receiveVotes := 1);
    assert [3][..0] == [] && ToAll([], VoteRequest(c)) == [];
    assert ToAll([3], VoteRequest(c)) == [Send(3, VoteRequest(c))];
  }

  lemma Leads(n: Node, term: int, commitIndex: int, log: seq<Entry>)
    requires Stage(n, Candidate, term, commitIndex, log) && Last(log).index == |log|
    ensures var r := Step(n, Receive(3, VoteReply(term, true)));
            r.out == [] && Stage(r.node, Leader, term, |log|, log)
  {
  }

  /** A node with an empty log and an older term, which votes for whoever asks. */
  ghost predicate Elector(n: Node, term: int) { !n.halted && n.log == [] && n.term <= term }

  lemma Votes(n: Node, term: int, log: seq<Entry>)
    requires Elector(n, term - 1) && 0 <= Last(log).index && 0 <= Last(log).term
    ensures var r := Step(n, Receive(1, Asks(term, log)));
            r.out == [Send(1, VoteReply(term, true))] && Elector(r.node, term)
  {
  }

  const HEARTBEAT := AppendEntry(2, 2, 0, 0, 0, 0, "", 0)

  lemma Beats(n: Node)
    requires Leading(n, 1) && n.id == 2
    ensures var r := Step(n, Cron(true, false)); r.out == [Send(1, HEARTBEAT)] && r.node.log == []
  {
    TiedFacts(n.table, 1);
    assert [1][..0] == [] && SendAppends(n, []) == Res(n, []);
    assert SendAppends(n, [1]) == Res(SendAppend(n, 1).node, [] + SendAppend(n, 1).out);
  }

  /** The old leader's heartbeat finds a log where it knows of none. */
  lemma LosesLog(n: Node, term: int, commitIndex: int, log: seq<Entry>)
    requires Stage(n, Follower, term, commitIndex, log) && term >= 2 && log != []
    ensures Stage(Step(n, Receive(2, HEARTBEAT)).node, Follower, term, commitIndex, [])
  {
  }

  // ---------------------------------------------------------------- the run

  type ServedSet = Served -> bool

  ghost predicate ClosedSet(reach: ServedSet) {
    && (forall s: Served {:trigger reach(s)} :: reach(s) ==> WellFormed(s.world))
    && (forall s: Served, e: Event {:trigger ServeEvent(s, e)} ::
          WellFormed(s.world) && reach(s) ==> reach(ServeEvent(s, e)))
  }

  /** Node x has taken the input; the flush has moved its lastApplied. */
  ghost predicate ServedMoved(s: Served, x: int, i: Input, packet: int, s': Served) {
    && x in s.world.nodes && Moved(s.world, x, Step(s.world.nodes[x], i), packet, s'.world)
    && s'.ended == s.ended && s'.applied == s.applied[x := NextApplied(s.world.nodes[x], i, AppliedAt(s, x))]
  }

  lemma ServesLocal(reach: ServedSet, s: Served, x: int, i: Input) returns (s': Served)
    requires ClosedSet(reach) && reach(s) && x in s.world.nodes && !s.world.nodes[x].halted && s.ended == {}
    requires !i.Receive? && !i.Confirm? && AppliedAt(s, x) <= s.world.nodes[x].commitIndex
    ensures reach(s') && ServedMoved(s, x, i, -1, s')
  {
    s' := ServeEvent(s, Local(x, i));
  }

  lemma ServesPacket(reach: ServedSet, s: Served, k: int, x: int, i: Input) returns (s': Served)
    requires ClosedSet(reach) && reach(s) && 0 <= k < |s.world.net| && x in s.world.nodes && s.ended == {}
    requires !s.world.nodes[x].halted && s.world.net[k].dst == x && !s.world.net[k].msg.AppendReply?
    requires i == Receive(s.world.net[k].src, s.world.net[k].msg)
    ensures reach(s') && ServedMoved(s, x, i, k, s')
  {
    s' := ServeEvent(s, Deliver(k));
  }

  /** The stage of node 1, and that node 3 votes. */
  ghost predicate Cast(s: Served, role: Role, term: int, commitIndex: int, log: seq<Entry>, applied: int, voted: int) {
    && s.world.nodes.Keys == {1, 2, 3} && s.ended == {} && !s.world.stray
    && Stage(s.world.nodes[1], role, term, commitIndex, log) && AppliedAt(s, 1) == applied
    && Elector(s.world.nodes[3], voted)
  }

  /** The heartbeat is on its way. */
  ghost predicate Sent(s: Served) { |s.world.net| > 4 && s.world.net[4] == Packet(2, 1, HEARTBEAT, -1, []) }

  lemma CastMoves(s: Served, x: int, i: Input, packet: int, s': Served, role: Role, term: int, commitIndex: int,
                  log: seq<Entry>, applied: int, voted: int)
    requires x == 1 && ServedMoved(s, x, i, packet, s') && s.world.nodes.Keys == {1, 2, 3}
    requires s.ended == {} && !s.world.stray
    requires Stage(Step(s.world.nodes[1], i).node, role, term, commitIndex, log)
    requires NextApplied(s.world.nodes[1], i, AppliedAt(s, 1)) == applied && Elector(s.world.nodes[3], voted)
    ensures Cast(s', role, term, commitIndex, log, applied, voted) && (Sent(s) ==> Sent(s'))
  {
    assert s'.world.nodes[3] == s.world.nodes[3];
  }

  lemma Request1(reach: ServedSet, s: Served, a: string, voted: int) returns (s': Served)
    requires ClosedSet(reach) && reach(s) && Cast(s, Leader, 2, 0, [], 0, voted) && Sent(s)
    ensures reach(s') && Cast(s', Leader, 2, 0, [Entry(1, 2, a)], 0, voted) && Sent(s')
  {
    TakesEntry(s.world.nodes[1], a);
    s' := ServesLocal(reach, s, 1, Request(a));
    CastMoves(s, 1, Request(a), -1, s', Leader, 2, 0, [Entry(1, 2, a)], 0, voted);
  }

  lemma StepDown1(reach: ServedSet, s: Served, term: int, commitIndex: int, log: seq<Entry>, voted: int)
    returns (s': Served)
    requires ClosedSet(reach) && reach(s) && Cast(s, Leader, term, commitIndex, log, 0, voted) && Sent(s)
    requires 0 <= commitIndex
    ensures reach(s') && Cast(s', Follower, term, commitIndex, log, 0, voted) && Sent(s')
  {
    var i := Cron(false, false);
    StepsDown(s.world.nodes[1], term, commitIndex, log);
    s' := ServesLocal(reach, s, 1, i);
    CastMoves(s, 1, i, -1, s', Follower, term, commitIndex, log, 0, voted);
  }

  lemma Flush1(reach: ServedSet, s: Served, term: int, log: seq<Entry>, voted: int) returns (s': Served)
    requires ClosedSet(reach) && reach(s) && Cast(s, Follower, term, 1, log, 0, voted) && Sent(s)
    ensures reach(s') && Cast(s', Follower, term, 1, log, 1, voted) && Sent(s')
  {
    var i := Cron(true, false);
    Waits(s.world.nodes[1], term, 1, log);
    s' := ServesLocal(reach, s, 1, i);
    CastMoves(s, 1, i, -1, s', Follower, term, 1, log, 1, voted);
  }

  lemma Stand1(reach: ServedSet, s: Served, term: int, commitIndex: int, log: seq<Entry>, voted: int)
    returns (s': Served)
    requires ClosedSet(reach) && reach(s) && Cast(s, Follower, term, commitIndex, log, commitIndex, voted) && Sent(s)
    ensures reach(s') && Cast(s', Candidate, term + 1, commitIndex, log, commitIndex, voted) && Sent(s')
    ensures var k := |s.world.net|;
            |s'.world.net| == k + 1 && s'.world.net[k].src == 1 && s'.world.net[k].dst == 3
            && s'.world.net[k].msg == Asks(term + 1, log)
  {
    var i := Cron(true, true);
    StandsAgain(s.world.nodes[1], term, commitIndex, log);
    s' := ServesLocal(reach, s, 1, i);
    CastMoves(s, 1, i, -1, s', Candidate, term + 1, commitIndex, log, commitIndex, voted);
  }

  lemma Vote3(reach: ServedSet, s: Served, k: int, term: int, commitIndex: int, log: seq<Entry>, applied: int)
    returns (s': Served)
    requires ClosedSet(reach) && reach(s) && Cast(s, Candidate, term, commitIndex, log, applied, term - 1) && Sent(s)
    requires 0 <= k < |s.world.net| && s.world.net[k].src == 1 && s.world.net[k].dst == 3
    requires s.world.net[k].msg == Asks(term, log) && 0 <= Last(log).index && 0 <= Last(log).term
    ensures reach(s') && Cast(s', Candidate, term, commitIndex, log, applied, term) && Sent(s')
    ensures var j := |s.world.net|;
            |s'.world.net| == j + 1 && s'.world.net[j].src == 3 && s'.world.net[j].dst == 1
            && s'.world.net[j].msg == VoteReply(term, true)
  {
    Votes(s.world.nodes[3], term, log);
    s' := ServesPacket(reach, s, k, 3, Receive(1, Asks(term, log)));
    assert s'.world.nodes[1] == s.world.nodes[1];
  }

  lemma Lead1(reach: ServedSet, s: Served, k: int, term: int, commitIndex: int, log: seq<Entry>, applied: int)
    returns (s': Served)
    requires ClosedSet(reach) && reach(s) && Cast(s, Candidate, term, commitIndex, log, applied, term) && Sent(s)
    requires 0 <= k < |s.world.net| && s.world.net[k].src == 3 && s.world.net[k].dst == 1
    requires s.world.net[k].msg == VoteReply(term, true) && Last(log).index == |log|
    ensures reach(s') && Cast(s', Leader, term, |log|, log, applied, term) && Sent(s')
  {
    Leads(s.world.nodes[1], term, commitIndex, log);
    s' := ServesPacket(reach, s, k, 1, Receive(3, VoteReply(term, true)));
    CastMoves(s, 1, Receive(3, VoteReply(term, true)), k, s', Leader, term, |log|, log, applied, term);
  }

  /** Node 1 stands and is elected by node 3; its commit index is the end of its log. */
  lemma Elect1(reach: ServedSet, s: Served, term: int, commitIndex: int, log: seq<Entry>) returns (s': Served)
    requires ClosedSet(reach) && reach(s) && Cast(s, Follower, term, commitIndex, log, commitIndex, term) && Sent(s)
    requires Last(log).index == |log| && 0 <= Last(log).term
    ensures reach(s') && Cast(s', Leader, term + 1, |log|, log, commitIndex, term + 1) && Sent(s')
  {
    var s1 := Stand1(reach, s, term, commitIndex, log, term);
    var s2 := Vote3(reach, s1, |s.world.net|, term + 1, commitIndex, log, commitIndex);
    s' := Lead1(reach, s2, |s1.world.net|, term + 1, commitIndex, log, commitIndex);
  }

  lemma Heartbeat1(reach: ServedSet, s: Served, term: int, commitIndex: int, log: seq<Entry>, voted: int)
    returns (s': Served)
    requires ClosedSet(reach) && reach(s) && Cast(s, Follower, term, commitIndex, log, commitIndex, voted) && Sent(s)
    requires term >= 2 && log != []
    ensures reach(s') && Cast(s', Follower, term, commitIndex, [], commitIndex, voted) && Sent(s')
  {
    LosesLog(s.world.nodes[1], term, commitIndex, log);
    s' := ServesPacket(reach, s, 4, 1, Receive(2, HEARTBEAT));
    CastMoves(s, 1, Receive(2, HEARTBEAT), 4, s', Follower, term, commitIndex, [], commitIndex, voted);
  }

  // ---------------------------------------------------------------- the start of the run

  ghost predicate ServedReachable(s: Served) { exists es :: s == ServeRun(THREE, es) }

  ghost function ServedReachables(): ServedSet { (s: Served) => ServedReachable(s) }

  lemma ServedClosed()
    ensures ClosedSet(ServedReachables())
  {
    forall s: Served, e: Event | ServedReachables()(s) && WellFormed(s.world)
      ensures ServedReachables()(ServeEvent(s, e))
    {
      ServedNext(s, e);
    }
  }

  lemma ServedNext(s: Served, e: Event)
    requires ServedReachable(s)
    ensures WellFormed(s.world) && ServedReachable(ServeEvent(s, e))
  {
    var es :| s == ServeRun(THREE, es);
    RunNext(es, e);
  }

  lemma RunNext(es: seq<Event>, e: Event)
    ensures ServeRun(THREE, es + [e]) == ServeEvent(ServeRun(THREE, es), e)
  {
    assert (es + [e])[..|es|] == es;
  }

  /** Nothing has been flushed on the way here. */
  ghost predicate Fresh(s: Served) { s.ended == {} && forall x :: AppliedAt(s, x) == 0 }

  ghost function Unserved(): WorldSet { (w: World) => exists s :: ServedReachable(s) && Fresh(s) && s.world == w }

  lemma FreshStays(s: Served, e: Event)
    requires WellFormed(s.world) && Fresh(s) && Unflushed(s.world, e)
    ensures Fresh(ServeEvent(s, e)) && ServeEvent(s, e).world == Apply(s.world, e)
  {
    if Serves(s, e) {
      var x := Actor(s.world, e);
      assert AppliedAt(s, x) == 0;
      forall y ensures AppliedAt(ServeEvent(s, e), y) == 0 { assert AppliedAt(s, y) == 0; }
    }
  }

  lemma UnservedClosed()
    ensures Closed(Unserved()) && Unserved()(Init(THREE))
  {
    ServedClosed();
    forall w: World | Unserved()(w) ensures WellFormed(w) {}
    forall w: World, e: Event | WellFormed(w) && Unserved()(w) && Unflushed(w, e) ensures Unserved()(Apply(w, e)) {
      var s :| ServedReachable(s) && Fresh(s) && s.world == w;
      FreshStays(s, e);
      assert ServedReachables()(s) && ServedReachables()(ServeEvent(s, e));
    }
    var s := ServeRun(THREE, []);
    assert ServedReachable(s) && Fresh(s) && s.world == Init(THREE);
  }

  lemma Beat2(reach: ServedSet, s: Served) returns (s': Served)
    requires ClosedSet(reach) && reach(s) && Fresh(s) && s.world.nodes.Keys == {1, 2, 3} && |s.world.net| == 4
    requires !s.world.stray && Leading(s.world.nodes[1], 3) && Leading(s.world.nodes[2], 1)
    requires Voter(s.world.nodes[3]) && Named(s.world)
    ensures reach(s') && Cast(s', Leader, 2, 0, [], 0, 2) && Sent(s')
  {
    Beats(s.world.nodes[2]);
    assert AppliedAt(s, 1) == 0 && AppliedAt(s, 2) == 0;
    s' := ServesLocal(reach, s, 2, Cron(true, false));
    BeatSent(s, s');
  }

  lemma BeatSent(s: Served, s': Served)
    requires s.world.nodes.Keys == {1, 2, 3} && |s.world.net| == 4 && Leading(s.world.nodes[1], 3)
    requires Voter(s.world.nodes[3]) && Named(s.world) && ServedMoved(s, 2, Cron(true, false), -1, s')
    requires AppliedAt(s, 1) == 0 && s.ended == {} && !s.world.stray
    requires var r := Step(s.world.nodes[2], Cron(true, false)); r.out == [Send(1, HEARTBEAT)] && r.node.log == []
    ensures Cast(s', Leader, 2, 0, [], 0, 2) && Sent(s')
  {
    assert s'.world.nodes[1] == s.world.nodes[1] && s'.world.nodes[3] == s.world.nodes[3];
  }

  lemma Opening() returns (s: Served)
    ensures ServedReachable(s) && Cast(s, Leader, 2, 0, [], 0, 2) && Sent(s)
  {
    UnservedClosed();
    ServedClosed();
    var w := BothElected(Unserved());
    var s0 :| ServedReachable(s0) && Fresh(s0) && s0.world == w;
    s := Beat2(ServedReachables(), s0);
  }

  lemma CommandFlushed(reach: ServedSet, s: Served, a: string) returns (s': Served)
    requires ClosedSet(reach) && reach(s) && Cast(s, Leader, 2, 0, [], 0, 2) && Sent(s)
    ensures reach(s') && Cast(s', Follower, 3, 1, [Entry(1, 2, a)], 1, 3) && Sent(s')
  {
    var log := [Entry(1, 2, a)];
    var s1 := Request1(reach, s, a, 2);
    var s2 := StepDown1(reach, s1, 2, 0, log, 2);
    var s3 := Elect1(reach, s2, 2, 0, log);
    var s4 := StepDown1(reach, s3, 3, 1, log, 3);
    s' := Flush1(reach, s4, 3, log, 3);
  }

  /** The flush has ended node 1, which leads with nothing committed but has applied a command; no reply was stray. */
  ghost predicate EndedEmpty(s: Served) {
    && 1 in s.ended && !s.world.stray && AppliedAt(s, 1) == 1
    && 1 in s.world.nodes && s.world.nodes[1].role == Leader && s.world.nodes[1].commitIndex == 0
    && s.world.nodes[1].log == []
  }

  lemma CommandLost(reach: ServedSet, s: Served, a: string) returns (s': Served)
    requires ClosedSet(reach) && reach(s) && Cast(s, Follower, 3, 1, [Entry(1, 2, a)], 1, 3) && Sent(s)
    ensures reach(s') && EndedEmpty(s')
  {
    var s1 := Heartbeat1(reach, s, 3, 1, [Entry(1, 2, a)], 3);
    var s2 := Elect1(reach, s1, 3, 1, []);
    s' := End1(reach, s2);
  }

  lemma End1(reach: ServedSet, s: Served) returns (s': Served)
    requires ClosedSet(reach) && reach(s) && Cast(s, Leader, 4, 0, [], 1, 4)
    ensures reach(s') && EndedEmpty(s')
  {
    TiedFacts(s.world.nodes[1].table, 3);
    s' := ServeEvent(s, Local(1, Cron(true, false)));
  }

  /**
   * The run: 1 takes a command, becomes leader a second time and so counts the command as
   * committed, flushes it, loses it to the heartbeat of the other leader of term 2, and becomes
   * leader a third time, with nothing committed. Its next cron ends the process.
   */
  lemma FlushEndsNode(a: string) returns (es: seq<Event>)
    ensures EndedEmpty(ServeRun(THREE, es))
  {
    ServedClosed();
    var reach := ServedReachables();
    var s0 := Opening();
    var s1 := CommandFlushed(reach, s0, a);
    var s2 := CommandLost(reach, s1, a);
    es :| s2 == ServeRun(THREE, es);
  }
}
