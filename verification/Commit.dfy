/**
 * A commit is backed by a quorum. When a leader raises its commitIndex to i, at least
 * half the cluster plus one, the leader counted, had logs equal to the leader's on 1..i.
 */
module Commit {
  import opened EntryLog
  import opened ClusterNode
  import opened NodeShape
  import opened World
  import opened LogMatching
  import opened Bookkeeping
  import opened Majority

  // ---------------------------------------------------------------- what success means

  /** A success is only ever the answer to an append that has just been grafted. */
  ghost predicate SuccessGrafts(n: Node, i: Input, r: Res) {
    forall j :: 0 <= j < |r.out| && r.out[j].msg.AppendReply? && r.out[j].msg.success ==>
      && i.Receive? && i.msg.AppendEntry?
      && r.out[j].dst == i.src
      && Grafted(n.log, i.msg, r.node.log)
  }

  lemma HandleAppendSuccess(n: Node, src: int, m: Message)
    requires ShapedNode(n) && m.AppendEntry? && ShapedMessage(m)
    ensures SuccessGrafts(n, Receive(src, m), HandleAppend(n, src, m))
  {
    if !TurnsAway(n, m) {
      FollowGrafts(n.log, m);
      assert Recognise(n, m).log == n.log;
      assert HandleAppend(n, src, m).node.log == Follow(n.log, m).log;
    }
  }

  lemma {:induction false} SendAppendsNoReply(n: Node, ids: seq<int>)
    ensures forall j :: 0 <= j < |SendAppends(n, ids).out| ==> SendAppends(n, ids).out[j].msg.AppendEntry?
  {
    if ids != [] { SendAppendsNoReply(n, ids[..|ids| - 1]); }
  }

  lemma StepSuccess(n: Node, i: Input)
    requires ShapedNode(n) && (i.Receive? ==> ShapedMessage(i.msg))
    ensures SuccessGrafts(n, i, Step(n, i))
  {
    if i.Receive? && i.msg.AppendEntry? {
      HandleAppendSuccess(n, i.src, i.msg);
    } else if i.Cron? {
      SendAppendsNoReply(n, NeedAppend(n.table, n.table.ids));
      var c := ToCandidate(n).node;
      NoAppends(NeedAppend(c.table, c.table.ids), VoteRequest(c));
    }
  }

  /** What an append asks the follower's log to become, as a length. */
  function Reach(m: Message): int
    requires m.AppendEntry?
  {
    m.prevIndex + (if m.index == 0 then 0 else 1)
  }

  /** The reply at j answers an append, and its sender's log was then the leader's up to it. */
  ghost predicate SuccessExact(w: World, j: int)
    requires 0 <= j < |w.net|
  {
    var p := w.net[j];
    && 0 <= p.answers < |w.net|
    && var a := w.net[p.answers];
       a.msg.AppendEntry? && a.src == p.dst && a.dst == p.src
       && var q := Reign(a.msg.leaderId, a.msg.term);
          q in w.reigns && 0 <= Reach(a.msg) <= |w.reigns[q]| && p.senderLog == w.reigns[q][..Reach(a.msg)]
  }

  ghost predicate SuccessesExact(w: World) {
    forall j :: 0 <= j < |w.net| && w.net[j].msg.AppendReply? && w.net[j].msg.success ==> SuccessExact(w, j)
  }

  ghost predicate SourcesNamed(w: World) {
    forall k :: 0 <= k < |w.net| && w.net[k].msg.AppendEntry? ==> w.net[k].msg.leaderId == w.net[k].src
  }

  ghost predicate RepliesExact(w: World) {
    SourcesNamed(w) && SuccessesExact(w)
  }

  lemma OldReply(w: World, w': World, j: int)
    requires w.net <= w'.net && Grown(w.reigns, w'.reigns)
    requires 0 <= j < |w.net| && SuccessExact(w, j)
    ensures SuccessExact(w', j)
  {
    var a := w.net[w.net[j].answers];
    assert w'.net[j] == w.net[j] && w'.net[w.net[j].answers] == a;
    var q := Reign(a.msg.leaderId, a.msg.term);
    assert w.reigns[q] <= w'.reigns[q];
  }

  /** Grafting an append makes the follower's log equal to its leader's, up to the append. */
  lemma GraftExact(w: World, x: int, a: Packet, log': seq<Entry>)
    requires Chronicled(w) && AllTraced(w) && x in w.nodes
    requires a in w.net && a.msg.AppendEntry? && Grafted(w.nodes[x].log, a.msg, log')
    ensures var q := Reign(a.msg.leaderId, a.msg.term);
            q in w.reigns && 0 <= Reach(a.msg) <= |w.reigns[q]| && log' == w.reigns[q][..Reach(a.msg)]
  {
    var q := Reign(a.msg.leaderId, a.msg.term);
    assert Backed(a.msg, w.reigns);
    GraftOntoLeader(w.nodes[x].log, w.reigns[q], a.msg, log', w.reigns);
  }

  lemma NewReply(w: World, w': World, x: int, packet: int, j: int)
    requires w.net <= w'.net && Grown(w.reigns, w'.reigns)
    requires 0 <= packet < |w.net| && 0 <= j < |w'.net|
    requires var a := w.net[packet];
             && a.dst == x && a.msg.AppendEntry?
             && w'.net[j] == Packet(x, a.src, w'.net[j].msg, packet, w'.net[j].senderLog)
             && var q := Reign(a.msg.leaderId, a.msg.term);
                q in w.reigns && 0 <= Reach(a.msg) <= |w.reigns[q]|
                  && w'.net[j].senderLog == w.reigns[q][..Reach(a.msg)]
    ensures SuccessExact(w', j)
  {
    var a := w.net[packet];
    assert w'.net[packet] == a;
    var q := Reign(a.msg.leaderId, a.msg.term);
    assert w.reigns[q] <= w'.reigns[q];
  }

  lemma RecordSuccesses(w: World, x: int, i: Input, packet: int, r: Res)
    requires Chronicled(w) && AllTraced(w) && SuccessesExact(w) && Fits(w, x, i, packet, r)
    requires SuccessGrafts(w.nodes[x], i, r)
    ensures SuccessesExact(Record(w, x, i, packet, r))
  {
    var w' := Record(w, x, i, packet, r);
    RecordReigns(w, x, i, packet, r);
    SuccessesStay(w, w', x, i, packet, r);
  }

  lemma SuccessesStay(w: World, w': World, x: int, i: Input, packet: int, r: Res)
    requires Chronicled(w) && AllTraced(w) && SuccessesExact(w) && Fits(w, x, i, packet, r)
    requires SuccessGrafts(w.nodes[x], i, r) && Grown(w.reigns, w'.reigns)
    requires w'.net == w.net + Packets(x, r.out, packet, r.node.log)
    ensures SuccessesExact(w')
  {
    forall j | 0 <= j < |w'.net| && w'.net[j].msg.AppendReply? && w'.net[j].msg.success
      ensures SuccessExact(w', j)
    {
      if j < |w.net| {
        OldReply(w, w', j);
      } else {
        GraftExact(w, x, w.net[packet], r.node.log);
        NewReply(w, w', x, packet, j);
      }
    }
  }

  lemma RecordSources(w: World, x: int, i: Input, packet: int, r: Res)
    requires Chronicled(w) && SourcesNamed(w) && Fits(w, x, i, packet, r)
    ensures SourcesNamed(Record(w, x, i, packet, r))
  {
    var w' := Record(w, x, i, packet, r);
    forall k | 0 <= k < |w'.net| && w'.net[k].msg.AppendEntry?
      ensures w'.net[k].msg.leaderId == w'.net[k].src
    {
      if k < |w.net| { assert w'.net[k] == w.net[k]; }
      else { assert w'.net[k].msg == r.out[k - |w.net|].msg; }
    }
  }

  // ---------------------------------------------------------------- matchIndex

  predicate Matches(n: Node, i: Input) {
    TakesReply(n, i) && i.msg.success && !Flag(n.table.empty, i.src)
  }

  /** How a step moves a leader's matchIndex and commitIndex. */
  ghost predicate MatchStep(n: Node, i: Input, n': Node) {
    n'.role == Leader ==>
      && (n.role != Leader ==> forall s :: s in n.table.ids ==> Number(n'.table.matched, s) == 0)
      && (n.role == Leader ==>
            && (forall s :: s in n.table.ids ==>
                  if Matches(n, i) && s == i.src then Number(n'.table.matched, s) == Number(n.table.next, s)
                  else Number(n'.table.matched, s) in {0, Number(n.table.matched, s)})
            && (n'.commitIndex != n.commitIndex ==>
                  && n'.commitIndex > n.commitIndex
                  && 1 + CountReached(n'.table.ids, n'.table.matched, n'.commitIndex) >= HalfNumber(n'.table)))
  }

  lemma ReplyMatch(n: Node, src: int, m: Message)
    requires m.AppendReply?
    ensures MatchStep(n, Receive(src, m), HandleAppendReply(n, src, m))
  {
  }

  lemma TickMatch(n: Node, childrenReady: bool, timedOut: bool)
    requires ShapedNode(n) && Booked(n)
    ensures MatchStep(n, Cron(childrenReady, timedOut), Tick(n, childrenReady, timedOut).node)
  {
    if n.role == Leader {
      CronBatch(n);
    }
  }

  lemma AppendMatch(n: Node, src: int, m: Message)
    requires m.AppendEntry?
    ensures MatchStep(n, Receive(src, m), HandleAppend(n, src, m).node)
  {
    HandleAppendCases(n, src, m);
  }

  lemma RequestMatch(n: Node, src: int, m: Message)
    requires m.RequestVote?
    ensures MatchStep(n, Receive(src, m), HandleRequestVote(n, src, m).node)
  {
  }

  lemma VoteMatch(n: Node, src: int, m: Message)
    requires m.VoteReply?
    ensures MatchStep(n, Receive(src, m), HandleVoteReply(n, m))
  {
  }

  lemma OtherMatch(n: Node, i: Input)
    requires ShapedNode(n) && Booked(n) && !i.Cron? && !i.Receive?
    ensures MatchStep(n, i, Step(n, i).node)
  {
  }

  lemma StepMatch(n: Node, i: Input)
    requires ShapedNode(n) && Booked(n) && (i.Receive? ==> ShapedMessage(i.msg))
    ensures MatchStep(n, i, Step(n, i).node)
  {
    match i
    case Receive(src, m) =>
      if m.AppendReply? { ReplyMatch(n, src, m); }
      else if m.AppendEntry? { AppendMatch(n, src, m); }
      else if m.RequestVote? { RequestMatch(n, src, m); }
      else { VoteMatch(n, src, m); }
    case Cron(childrenReady, timedOut) => TickMatch(n, childrenReady, timedOut);
    case _ => OtherMatch(n, i);
  }

  /** The reply on record for s in x's current reign, sent with a log equal to x's up to matchIndex. */
  ghost predicate Acked(w: World, x: int, s: int, upTo: int)
    requires x in w.nodes
  {
    && (x, s) in w.acks
    && 0 <= w.acks[(x, s)] < |w.net|
    && var p := w.net[w.acks[(x, s)]];
       && p.src == s && p.dst == x && p.msg == AppendReply(p.msg.term, true)
       && 0 <= p.answers < |w.net|
       && w.net[p.answers].msg.AppendEntry?
       && w.net[p.answers].msg.leaderId == x && w.net[p.answers].msg.term == w.nodes[x].term
       && 0 <= upTo <= |p.senderLog| && upTo <= |w.nodes[x].log|
       && p.senderLog[..upTo] == w.nodes[x].log[..upTo]
  }

  ghost predicate MatchesAcked(w: World) {
    forall x, s | x in w.nodes && w.nodes[x].role == Leader && s in w.nodes[x].table.ids ::
      Number(w.nodes[x].table.matched, s) > 0 ==> Acked(w, x, s, Number(w.nodes[x].table.matched, s))
  }

  /** The reply that a leader takes for a non-empty append was sent with the leader's log up to nextIndex. */
  lemma TakenAcks(w: World, x: int, i: Input, packet: int, r: Res)
    requires Chronicled(w) && AllBooked(w) && RepliesExact(w) && Fits(w, x, i, packet, r)
    requires !Record(w, x, i, packet, r).stray && Matches(w.nodes[x], i)
    requires r.node.role == Leader
    ensures Acked(Record(w, x, i, packet, r), x, i.src, Number(w.nodes[x].table.next, i.src))
  {
    var w' := Record(w, x, i, packet, r);
    TakenExact(w, x, i, packet, r);
    var p := w.net[packet];
    assert w'.net[packet] == p && w'.net[p.answers] == w.net[p.answers];
  }

  /** The success that is taken is of a sender whose log was the leader's up to the entry waited for. */
  lemma TakenExact(w: World, x: int, i: Input, packet: int, r: Res)
    requires Chronicled(w) && AllBooked(w) && RepliesExact(w) && Fits(w, x, i, packet, r)
    requires !Record(w, x, i, packet, r).stray && Matches(w.nodes[x], i)
    requires r.node.role == Leader
    ensures 0 <= packet < |w.net| && 0 <= w.net[packet].answers < |w.net|
    ensures var p := w.net[packet];
            var a := w.net[p.answers];
            var upTo := Number(w.nodes[x].table.next, i.src);
            && p.src == i.src && p.dst == x && p.msg == AppendReply(p.msg.term, true)
            && a.msg.AppendEntry? && a.msg.leaderId == x && a.msg.term == r.node.term
            && 0 <= upTo <= |p.senderLog| && upTo <= |r.node.log| && p.senderLog[..upTo] == r.node.log[..upTo]
  {
    var n := w.nodes[x];
    var p := w.net[packet];
    assert Waited(w, x, i.src, w.waiting[(x, i.src)]);
    assert SuccessExact(w, packet);
    var a := w.net[p.answers];
    assert p.senderLog == n.log[..Reach(a.msg)];
    assert n.log <= r.node.log;
  }

  lemma AckedStays(w: World, w': World, y: int, s: int, upTo: int)
    requires y in w.nodes && y in w'.nodes && Acked(w, y, s, upTo) && w.net <= w'.net
    requires (y, s) in w'.acks && w'.acks[(y, s)] == w.acks[(y, s)]
    requires w.nodes[y].log <= w'.nodes[y].log && w'.nodes[y].term == w.nodes[y].term
    ensures Acked(w', y, s, upTo)
  {
    var j := w.acks[(y, s)];
    assert w'.net[j] == w.net[j] && w'.net[w.net[j].answers] == w.net[w.net[j].answers];
    assert w.nodes[y].log[..upTo] == w'.nodes[y].log[..upTo];
  }

  lemma OldAck(w: World, x: int, i: Input, packet: int, r: Res, y: int, s: int, upTo: int)
    requires Chronicled(w) && Fits(w, x, i, packet, r)
    requires y in w.nodes && w.nodes[y].role == Leader && Acked(w, y, s, upTo)
    requires y == x ==> r.node.role == Leader && !(Matches(w.nodes[x], i) && i.src == s)
    ensures Acked(Record(w, x, i, packet, r), y, s, upTo)
  {
    var w' := Record(w, x, i, packet, r);
    assert w.net <= w'.net;
    assert (y, s) in w'.acks && w'.acks[(y, s)] == w.acks[(y, s)];
    assert w.nodes[y].log <= w'.nodes[y].log && w'.nodes[y].term == w.nodes[y].term;
    AckedStays(w, w', y, s, upTo);
  }

  lemma RecordAcks(w: World, x: int, i: Input, packet: int, r: Res)
    requires Chronicled(w) && AllBooked(w) && RepliesExact(w) && MatchesAcked(w) && Fits(w, x, i, packet, r)
    requires MatchStep(w.nodes[x], i, r.node) && !Record(w, x, i, packet, r).stray
    ensures MatchesAcked(Record(w, x, i, packet, r))
  {
    var w' := Record(w, x, i, packet, r);
    var n := w.nodes[x];
    forall y, s | y in w'.nodes && w'.nodes[y].role == Leader && s in w'.nodes[y].table.ids
                  && Number(w'.nodes[y].table.matched, s) > 0
      ensures Acked(w', y, s, Number(w'.nodes[y].table.matched, s))
    {
      if y == x && Matches(n, i) && i.src == s {
        TakenAcks(w, x, i, packet, r);
      } else {
        OldAck(w, x, i, packet, r, y, s, Number(w.nodes[y].table.matched, s));
      }
    }
  }

  // ---------------------------------------------------------------- runs

  lemma {:induction false} RunAcked(c: Config, es: seq<Event>)
    requires !Run(c, es).stray && OneLeaderPerTerm(Run(c, es))
    ensures RepliesExact(Run(c, es)) && MatchesAcked(Run(c, es))
  {
    if es != [] {
      var w := Run(c, es[..|es| - 1]);
      var e := es[|es| - 1];
      RunChronicled(c, es[..|es| - 1]);
      OneLeaderBefore(w, e);
      RunTraced(c, es[..|es| - 1]);
      RunBooked(c, es[..|es| - 1]);
      RunAcked(c, es[..|es| - 1]);
      if Enabled(w, e) { ActAcked(w, e); }
    }
  }

  lemma ActAcked(w: World, e: Event)
    requires Chronicled(w) && AllTraced(w) && AllBooked(w) && RepliesExact(w) && MatchesAcked(w)
    requires Enabled(w, e) && !Apply(w, e).stray
    ensures RepliesExact(Apply(w, e)) && MatchesAcked(Apply(w, e))
  {
    var x := Actor(w, e);
    var i := InputOf(w, e);
    EventFits(w, e);
    assert ShapedNode(w.nodes[x]) && Booked(w.nodes[x]);
    StepSuccess(w.nodes[x], i);
    StepMatch(w.nodes[x], i);
    RecordSources(w, x, i, PacketOf(e), Step(w.nodes[x], i));
    RecordSuccesses(w, x, i, PacketOf(e), Step(w.nodes[x], i));
    RecordAcks(w, x, i, PacketOf(e), Step(w.nodes[x], i));
  }

  // ---------------------------------------------------------------- when a commit index falls

  lemma {:induction false} SendAppendsCommit(n: Node, ids: seq<int>)
    ensures SendAppends(n, ids).node.commitIndex == n.commitIndex
  {
    if ids != [] {
      SendAppendsCommit(n, ids[..|ids| - 1]);
      SendAppendKeeps(SendAppends(n, ids[..|ids| - 1]).node, ids[|ids| - 1]);
    }
  }

  /** A followed append is accepted and says that less is committed, or the log it leaves is shorter. */
  predicate FollowsDown(n: Node, m: Message)
    requires m.AppendEntry?
  {
    && !TurnsAway(n, m) && m.leaderCommit != 0
    && var v := Follow(n.log, m);
       v.Accepted? && v.log != [] && Min(m.leaderCommit, Last(v.log).index) < n.commitIndex
  }

  /** The candidate becomes leader in this step. */
  predicate WinsNow(n: Node, i: Input) {
    && n.role == Candidate
    && match i
       case Receive(_, m) =>
         m.VoteReply? && m.term <= n.term && m.granted && n.receiveVotes + 1 >= n.winVoteBaseline
       case Cron(childrenReady, timedOut) =>
         childrenReady && timedOut && SiblingsBaseline(n.table) && n.receiveVotes >= n.winVoteBaseline
       case _ => false
  }

  predicate LowersCommit(n: Node, i: Input) {
    || (i.Receive? && i.msg.AppendEntry? && FollowsDown(n, i.msg))
    || (WinsNow(n, i) && Last(n.log).index < n.commitIndex)
  }

  lemma AppendLowers(n: Node, src: int, m: Message)
    requires m.AppendEntry?
    ensures HandleAppend(n, src, m).node.commitIndex < n.commitIndex <==> FollowsDown(n, m)
  {
  }

  lemma TickLowers(n: Node, childrenReady: bool, timedOut: bool)
    ensures Tick(n, childrenReady, timedOut).node.commitIndex < n.commitIndex
            <==> LowersCommit(n, Cron(childrenReady, timedOut))
  {
    SendAppendsCommit(n, NeedAppend(n.table, n.table.ids));
  }

  /**
   * Whatever the node and the input: its commit index falls exactly at an append that it accepts
   * and that commits less, and at a victory with a log shorter than what was committed.
   */
  lemma CommitFallsExactly(n: Node, i: Input)
    ensures Step(n, i).node.commitIndex < n.commitIndex <==> LowersCommit(n, i)
  {
    match i
    case Receive(src, m) => if m.AppendEntry? { AppendLowers(n, src, m); }
    case Cron(childrenReady, timedOut) => TickLowers(n, childrenReady, timedOut);
    case _ =>
  }

  lemma FollowingEndsLeading(n: Node, i: Input)
    requires n.role == Leader && LowersCommit(n, i)
    ensures Step(n, i).node.role != Leader
  {
    HandleAppendCases(n, i.src, i.msg);
  }

  /** The commit index of a leader that stays leader only ever rises. */
  lemma CommitNeverFalls(w: World, e: Event, x: int)
    requires Reachable(w) && x in w.nodes && x in Apply(w, e).nodes
    requires w.nodes[x].role == Leader && Apply(w, e).nodes[x].role == Leader
    ensures Apply(w, e).nodes[x].commitIndex >= w.nodes[x].commitIndex
  {
    if Enabled(w, e) && Actor(w, e) == x {
      var n, i := w.nodes[x], InputOf(w, e);
      CommitFallsExactly(n, i);
      if LowersCommit(n, i) { FollowingEndsLeading(n, i); }
    }
  }

  /** Node s is x itself, or sent x a success in its current reign with a log equal to x's up to the index. */
  ghost predicate Backs(w: World, x: int, s: int, index: int)
    requires x in w.nodes
  {
    s == x || Acked(w, x, s, index)
  }

  lemma AckedLess(w: World, x: int, s: int, upTo: int, index: int)
    requires x in w.nodes && Acked(w, x, s, upTo) && 0 <= index <= upTo
    ensures Acked(w, x, s, index)
  {
    var log := w.net[w.acks[(x, s)]].senderLog;
    assert log[..index] == log[..upTo][..index];
    assert w.nodes[x].log[..index] == w.nodes[x].log[..upTo][..index];
  }

  lemma ReachableAcked(w: World) returns (c: Config)
    requires Reachable(w) && !w.stray && OneLeaderPerTerm(w)
    ensures Chronicled(w) && AllBooked(w) && MatchesAcked(w) && Configured(w, c)
  {
    var c': Config, es :| 1 <= c'.idMin && w == Run(c', es);
    c := c';
    RunChronicled(c, es);
    RunBooked(c, es);
    RunAcked(c, es);
    RunConfigured(c, es);
  }

  lemma CommitRises(w: World, e: Event, x: int)
    requires Reachable(w) && !Apply(w, e).stray && x in w.nodes && x in Apply(w, e).nodes
    requires w.nodes[x].role == Leader && Apply(w, e).nodes[x].role == Leader
    requires Apply(w, e).nodes[x].commitIndex != w.nodes[x].commitIndex
    ensures var n := w.nodes[x];
            var n' := Apply(w, e).nodes[x];
            0 <= n.commitIndex < n'.commitIndex
            && 1 + CountReached(n'.table.ids, n'.table.matched, n'.commitIndex) >= HalfNumber(n'.table)
  {
    ReachableBooked(w);
    assert ShapedNode(w.nodes[x]) && Booked(w.nodes[x]);
    EventFits(w, e);
    StepCommits(w.nodes[x], InputOf(w, e));
  }

  /** A leader that stays leader changes its commit index only on a majority. */
  lemma StepCommits(n: Node, i: Input)
    requires ShapedNode(n) && Booked(n) && n.role == Leader && (i.Receive? ==> ShapedMessage(i.msg))
    requires Step(n, i).node.role == Leader && Step(n, i).node.commitIndex != n.commitIndex
    ensures var n' := Step(n, i).node;
            0 <= n.commitIndex < n'.commitIndex
            && 1 + CountReached(n'.table.ids, n'.table.matched, n'.commitIndex) >= HalfNumber(n'.table)
  {
    StepMatch(n, i);
  }

  lemma BackersOf(w: World, c: Config, x: int, i: int) returns (backers: set<int>)
    requires MatchesAcked(w) && Configured(w, c) && x in w.nodes && w.nodes[x].role == Leader && 0 < i
    requires 1 + CountReached(w.nodes[x].table.ids, w.nodes[x].table.matched, i) >= HalfNumber(w.nodes[x].table)
    ensures backers <= w.nodes.Keys && |backers| >= HalfNumber(w.nodes[x].table)
    ensures forall s :: s in backers ==> Backs(w, x, s, i)
  {
    var t := w.nodes[x].table;
    SiblingIdsComplete(c.idMin, c.idMax, x);
    CountReachedIsSize(t.ids, t.matched, i);
    var reached := Reached(t.ids, t.matched, i);
    backers := reached + {x};
    forall s | s in reached
      ensures Acked(w, x, s, i)
    {
      AckedLess(w, x, s, Number(t.matched, s), i);
    }
  }

  /**
   * When a step raises the commit index of a leader that stays leader, half the cluster plus
   * one back the new index, which lies inside the leader's log.
   */
  lemma CommitIsBacked(w: World, e: Event, x: int) returns (backers: set<int>)
    requires Reachable(w) && x in w.nodes && x in Apply(w, e).nodes
    requires !Apply(w, e).stray && OneLeaderPerTerm(Apply(w, e))
    requires w.nodes[x].role == Leader && Apply(w, e).nodes[x].role == Leader
    requires Apply(w, e).nodes[x].commitIndex != w.nodes[x].commitIndex
    ensures var w' := Apply(w, e);
            var i := w'.nodes[x].commitIndex;
            && w.nodes[x].commitIndex < i <= |w'.nodes[x].log|
            && backers <= w'.nodes.Keys
            && |backers| >= HalfNumber(w'.nodes[x].table)
            && forall s :: s in backers ==> Backs(w', x, s, i)
  {
    var w' := Apply(w, e);
    ApplyReachable(w, e);
    CommitRises(w, e, x);
    var c := ReachableAcked(w');
    assert Booked(w'.nodes[x]);
    backers := BackersOf(w', c, x, w'.nodes[x].commitIndex);
  }
}
