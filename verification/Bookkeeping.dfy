/**
 * A leader's bookkeeping. As long as every reply that a leader takes answers the append it
 * is waiting on, nextIndex and matchIndex stay inside the log, and no node ever leaves
 * through one of the fatal exits of the append path.
 */
module Bookkeeping {
  import opened EntryLog
  import opened ClusterNode
  import opened NodeShape
  import opened World
  import opened LogMatching

  // ---------------------------------------------------------------- one node

  ghost predicate NextInLog(n: Node, s: int) {
    1 <= Number(n.table.next, s) <= |n.log| + 1
  }

  ghost predicate Booked(n: Node) {
    && !n.halted
    && (forall s :: s in n.table.ids && Flag(n.table.connected, s) ==> Flag(n.table.registered, s))
    && (n.role == Leader ==>
          && n.commitIndex <= |n.log|
          && (forall s :: s in n.table.ids && Flag(n.table.registered, s) ==> NextInLog(n, s))
          && (forall s :: s in n.table.ids ==> Number(n.table.matched, s) <= |n.log|))
  }

  /** An append that carries no entry and no previous entry carries no commit index either. */
  ghost predicate EmptyMeansUncommitted(m: Message) {
    m.AppendEntry? && m.prevIndex == 0 && m.index == 0 ==> m.leaderCommit == 0
  }

  /** The reply answers an append that the leader's tables still describe. */
  ghost predicate Fitting(n: Node, i: Input) {
    && (TakesReply(n, i) ==>
          && Flag(n.table.registered, i.src)
          && (Flag(n.table.empty, i.src) || Number(n.table.next, i.src) <= |n.log|))
    && (i.Confirm? ==> Flag(n.table.registered, i.sibling))
  }

  ghost predicate AllUncommitted(out: seq<Send>) {
    forall j :: 0 <= j < |out| ==> EmptyMeansUncommitted(out[j].msg)
  }

  /** The append that a leader builds for s from the sibling's next index. */
  ghost predicate Built(n: Node, s: int, m: Message) {
    && m.AppendEntry?
    && m.term == n.term && m.leaderId == n.id
    && m.prevIndex == Number(n.table.next, s) - 1
    && (m.index == 0 <==> Number(n.table.next, s) > |n.log|)
    && EmptyMeansUncommitted(m)
  }

  /** A send to a well-booked sibling succeeds and leaves all but two flags alone. */
  lemma SendAppendBooked(n: Node, s: int)
    requires ShapedNode(n) && n.role == Leader && n.commitIndex <= |n.log| && NextInLog(n, s)
    ensures var r := SendAppend(n, s);
            && r.node == n.(table := n.table.(empty := n.table.empty[s := Number(n.table.next, s) > |n.log|],
                                              already := n.table.already[s := true]))
            && |r.out| == 1 && r.out[0].dst == s && Built(n, s, r.out[0].msg)
  {
    ContiguousAccess(n.log, Number(n.table.next, s));
    ContiguousAccess(n.log, Number(n.table.next, s) - 1);
  }

  /** Only the two send flags of the tables differ. */
  ghost predicate SameButFlags(n: Node, n': Node) {
    n' == n.(table := n.table.(empty := n'.table.empty, already := n'.table.already))
  }

  /** One append per id, each built from the sibling's next index and flagged accordingly. */
  ghost predicate Batch(n: Node, ids: seq<int>, r: Res) {
    && SameButFlags(n, r.node)
    && |r.out| == |ids|
    && (forall j :: 0 <= j < |ids| ==> r.out[j].dst == ids[j] && Built(n, ids[j], r.out[j].msg))
    && (forall s :: Flag(r.node.table.empty, s)
          == if s in ids then Number(n.table.next, s) > |n.log| else Flag(n.table.empty, s))
  }

  lemma BatchStep(n: Node, ids: seq<int>, r: Res, s: int)
    requires Batch(n, ids, r) && ShapedNode(n) && n.role == Leader && n.commitIndex <= |n.log| && NextInLog(n, s)
    ensures Batch(n, ids + [s], Res(SendAppend(r.node, s).node, r.out + SendAppend(r.node, s).out))
  {
    SendAppendBooked(r.node, s);
    assert forall t :: t in ids + [s] <==> t in ids || t == s;
  }

  lemma {:induction false} SendAppendsBatch(n: Node, ids: seq<int>)
    requires ShapedNode(n) && Booked(n) && n.role == Leader
    requires forall s :: s in ids ==> s in n.table.ids && Flag(n.table.registered, s)
    ensures Batch(n, ids, SendAppends(n, ids))
  {
    if ids != [] {
      var front, s := ids[..|ids| - 1], ids[|ids| - 1];
      assert ids == front + [s];
      SendAppendsBatch(n, front);
      RegisteredInLog(n, s);
      BatchStep(n, front, SendAppends(n, front), s);
      BatchLives(n, front, SendAppends(n, front));
    }
  }

  lemma RegisteredInLog(n: Node, s: int)
    requires Booked(n) && n.role == Leader && s in n.table.ids && Flag(n.table.registered, s)
    ensures NextInLog(n, s) && n.commitIndex <= |n.log|
  {
  }

  lemma BatchLives(n: Node, ids: seq<int>, r: Res)
    requires Batch(n, ids, r) && Booked(n)
    ensures !r.node.halted
  {
  }

  /** Those that are connected and not waiting, and nobody else. */
  lemma {:induction false} NeedAppendExactly(t: Table, ids: seq<int>)
    ensures forall s :: s in NeedAppend(t, ids) <==> s in ids && Flag(t.connected, s) && !Flag(t.already, s)
  {
    if ids != [] {
      var front, last := ids[..|ids| - 1], ids[|ids| - 1];
      NeedAppendExactly(t, front);
      assert forall s :: s in ids <==> s in front || s == last;
    }
  }

  lemma CronBatch(n: Node)
    requires ShapedNode(n) && Booked(n) && n.role == Leader
    ensures var ids := NeedAppend(n.table, n.table.ids);
            Batch(n, ids, SendAppends(n, ids))
            && forall s :: s in ids ==> s in n.table.ids && Flag(n.table.registered, s)
  {
    NeedAppendExactly(n.table, n.table.ids);
    SendAppendsBatch(n, NeedAppend(n.table, n.table.ids));
  }

  lemma LeadBooked(n: Node)
    requires ShapedNode(n) && Booked(n)
    ensures Booked(ToLead(n))
  {
    ContiguousAccess(n.log, 0);
  }

  lemma TickBooked(n: Node, childrenReady: bool, timedOut: bool)
    requires ShapedNode(n) && Booked(n)
    ensures Booked(Tick(n, childrenReady, timedOut).node) && AllUncommitted(Tick(n, childrenReady, timedOut).out)
  {
    if !SiblingsBaseline(n.table) || !childrenReady {
      IdleBooked(n);
    } else if n.role == Leader {
      LeaderTickBooked(n);
    } else {
      LeadBooked(n);
      CandidateBooked(n);
    }
  }

  lemma IdleBooked(n: Node)
    requires Booked(n)
    ensures var f := if n.role != Follower then ToFollow(n, n.term) else n;
            Booked(f) && Booked(f.(table := f.table.(leaderId := -1)))
  {
  }

  lemma CandidateBooked(n: Node)
    requires ShapedNode(n) && Booked(n)
    ensures Booked(ToCandidate(n).node) && AllUncommitted(ToCandidate(n).out)
  {
    var c := ToCandidate(n).node;
    NoAppends(NeedAppend(c.table, c.table.ids), VoteRequest(c));
  }

  lemma LeaderTickBooked(n: Node)
    requires ShapedNode(n) && Booked(n) && n.role == Leader
    ensures var r := SendAppends(n, NeedAppend(n.table, n.table.ids));
            Booked(r.node) && AllUncommitted(r.out)
  {
    CronBatch(n);
  }

  lemma AppendBooked(n: Node, src: int, m: Message)
    requires ShapedNode(n) && Booked(n) && m.AppendEntry? && ShapedMessage(m) && EmptyMeansUncommitted(m)
    ensures Booked(HandleAppend(n, src, m).node)
  {
    if !TurnsAway(n, m) {
      FollowGrafts(n.log, m);
      assert Recognise(n, m).log == n.log;
    }
  }

  lemma ReplyBooked(n: Node, src: int, m: Message)
    requires ShapedNode(n) && Booked(n) && m.AppendReply? && Fitting(n, Receive(src, m))
    ensures Booked(HandleAppendReply(n, src, m))
  {
  }

  lemma VoteBooked(n: Node, src: int, m: Message)
    requires ShapedNode(n) && Booked(n)
    ensures m.RequestVote? ==> Booked(HandleRequestVote(n, src, m).node)
    ensures m.VoteReply? ==> Booked(HandleVoteReply(n, m))
  {
    if m.RequestVote? { RequestBooked(n, src, m); }
    if m.VoteReply? { CountBooked(n, m); }
  }

  lemma RequestBooked(n: Node, src: int, m: Message)
    requires Booked(n) && m.RequestVote?
    ensures Booked(HandleRequestVote(n, src, m).node)
  {
  }

  lemma CountBooked(n: Node, m: Message)
    requires ShapedNode(n) && Booked(n) && m.VoteReply?
    ensures Booked(HandleVoteReply(n, m))
  {
    LeadBooked(n.(receiveVotes := n.receiveVotes + 1));
  }

  lemma ConnectionBooked(n: Node, s: int)
    requires ShapedNode(n) && Booked(n)
    ensures Booked(AddSibling(n, s)) && Booked(DeleteSibling(n, s))
    ensures Flag(n.table.registered, s) ==> Booked(ConfirmSibling(n, s))
  {
  }

  lemma StepBooked(n: Node, i: Input)
    requires ShapedNode(n) && Booked(n) && (i.Receive? ==> ShapedMessage(i.msg) && EmptyMeansUncommitted(i.msg))
    requires Fitting(n, i)
    ensures Booked(Step(n, i).node) && AllUncommitted(Step(n, i).out)
  {
    match i
    case Receive(src, m) =>
      if m.AppendEntry? { AppendBooked(n, src, m); }
      else if m.AppendReply? { ReplyBooked(n, src, m); }
      else { VoteBooked(n, src, m); }
    case Cron(childrenReady, timedOut) => TickBooked(n, childrenReady, timedOut);
    case Request(content) =>
    case Add(s) => ConnectionBooked(n, s);
    case Confirm(s) => ConnectionBooked(n, s);
    case Delete(s) => ConnectionBooked(n, s);
  }

  // ---------------------------------------------------------------- what a leader waits for

  /** The tables still describe the append that was sent to s. */
  ghost predicate Tracks(n: Node, s: int, m: Message) {
    && m.AppendEntry? && m.leaderId == n.id && m.term == n.term
    && s in n.table.ids
    && Flag(n.table.registered, s)
    && Number(n.table.next, s) == m.prevIndex + 1
    && (Flag(n.table.empty, s) <==> m.index == 0)
  }

  ghost predicate SentTo(out: seq<Send>, s: int) {
    exists j :: 0 <= j < |out| && out[j].dst == s && out[j].msg.AppendEntry?
  }

  /** A leader that stays leader tracks what it sends, and what it waited for unless it forgot or resent. */
  ghost predicate TrackStep(n: Node, i: Input, r: Res) {
    && (n.role != Leader ==> forall j :: 0 <= j < |r.out| ==> !r.out[j].msg.AppendEntry?)
    && (n.role == Leader && r.node.role == Leader ==>
          && (forall j :: 0 <= j < |r.out| && r.out[j].msg.AppendEntry? ==> Tracks(r.node, r.out[j].dst, r.out[j].msg))
          && (forall s, m :: Tracks(n, s, m) && !Resent(n, i, r, s) ==> Tracks(r.node, s, m)))
  }

  ghost predicate Resent(n: Node, i: Input, r: Res, s: int) {
    || SentTo(r.out, s)
    || (TakesReply(n, i) && i.src == s)
    || ((i.Add? || i.Delete?) && i.sibling == s && r.node != n)
  }

  lemma BatchTracks(n: Node, i: Input, ids: seq<int>, r: Res)
    requires n.role == Leader && Batch(n, ids, r)
    requires forall s :: s in ids ==> s in n.table.ids && Flag(n.table.registered, s)
    ensures TrackStep(n, i, r)
  {
    forall s | s in ids
      ensures SentTo(r.out, s)
    {
      var j :| 0 <= j < |ids| && ids[j] == s;
      assert r.out[j].dst == s;
    }
  }

  lemma StepTracks(n: Node, i: Input)
    requires ShapedNode(n) && Booked(n) && (i.Receive? ==> ShapedMessage(i.msg))
    ensures TrackStep(n, i, Step(n, i))
  {
    StepLog(n, i);
    if i.Cron? && n.role == Leader && Step(n, i).node.role == Leader {
      CronBatch(n);
      BatchTracks(n, i, NeedAppend(n.table, n.table.ids), Step(n, i));
    } else if n.role == Leader && Step(n, i).node.role == Leader {
      QuietTracks(n, i);
    }
  }

  lemma QuietTracks(n: Node, i: Input)
    requires ShapedNode(n) && Booked(n) && n.role == Leader && Step(n, i).node.role == Leader && !i.Cron?
    ensures TrackStep(n, i, Step(n, i))
  {
    if i.Receive? && i.msg.AppendReply? {
      ReplyTracks(n, i.src, i.msg);
    }
  }

  lemma ReplyTracks(n: Node, src: int, m: Message)
    requires n.role == Leader && m.AppendReply?
    ensures TrackStep(n, Receive(src, m), Res(HandleAppendReply(n, src, m), []))
  {
  }

  lemma {:induction false} AwaitFinds(x: int, out: seq<Send>, first: int, waiting: map<(int, int), int>, p: (int, int))
    requires p in Await(x, out, first, waiting)
    ensures var k := Await(x, out, first, waiting)[p];
            || (p in waiting && k == waiting[p] && (p.0 != x || !SentTo(out, p.1)))
            || (first <= k < first + |out| && p == (x, out[k - first].dst) && out[k - first].msg.AppendEntry?)
  {
    if out != [] {
      var k := |out| - 1;
      if out[k].msg.AppendEntry? && p == (x, out[k].dst) {
      } else {
        AwaitFinds(x, out[..k], first, waiting, p);
        if p.0 == x && SentTo(out, p.1) {
          var j :| 0 <= j < |out| && out[j].dst == p.1 && out[j].msg.AppendEntry?;
          assert out[..k][j] == out[j];
        }
      }
    }
  }

  ghost predicate WaitingTracked(w: World) {
    forall p :: p in w.waiting && p.0 in w.nodes && w.nodes[p.0].role == Leader ==>
      Waited(w, p.0, p.1, w.waiting[p])
  }

  ghost predicate Waited(w: World, x: int, s: int, k: int)
    requires x in w.nodes
  {
    0 <= k < |w.net| && w.net[k].src == x && w.net[k].dst == s && Tracks(w.nodes[x], s, w.net[k].msg)
  }

  ghost predicate AllBooked(w: World) {
    && (forall x :: x in w.nodes ==> Booked(w.nodes[x]))
    && (forall k :: 0 <= k < |w.net| ==> EmptyMeansUncommitted(w.net[k].msg))
    && WaitingTracked(w)
  }

  lemma TakenFits(w: World, x: int, i: Input, packet: int, r: Res)
    requires Chronicled(w) && AllBooked(w) && Fits(w, x, i, packet, r)
    requires !Record(w, x, i, packet, r).stray
    ensures Fitting(w.nodes[x], i)
  {
    var n := w.nodes[x];
    if TakesReply(n, i) {
      var k := w.waiting[(x, i.src)];
      assert Waited(w, x, i.src, k);
      assert Backed(w.net[k].msg, w.reigns);
    }
  }

  /** The bare record of one step on what a leader waits for. */
  ghost predicate WaitStep(w: World, w': World, x: int, i: Input, r: Res, packet: int)
    requires x in w.nodes
  {
    && w'.nodes == w.nodes[x := r.node]
    && w'.net == w.net + Packets(x, r.out, packet, r.node.log)
    && w'.waiting == Await(x, r.out, |w.net|, Forget(x, w.nodes[x], i, r.node, w.waiting))
  }

  lemma WaitedStays(w: World, w': World, x: int, i: Input, r: Res, packet: int, p: (int, int))
    requires x in w.nodes && w.nodes[x].id == x && WaitStep(w, w', x, i, r, packet) && TrackStep(w.nodes[x], i, r)
    requires LeaderStep(w.nodes[x], r.node)
    requires p in w'.waiting && p.0 in w'.nodes && w'.nodes[p.0].role == Leader
    requires p in w.waiting && w.nodes[p.0].role == Leader ==> Waited(w, p.0, p.1, w.waiting[p])
    ensures Waited(w', p.0, p.1, w'.waiting[p])
  {
    var kept := Forget(x, w.nodes[x], i, r.node, w.waiting);
    AwaitFinds(x, r.out, |w.net|, kept, p);
    var k := w'.waiting[p];
    if p in kept && k == kept[p] && (p.0 != x || !SentTo(r.out, p.1)) {
      assert p in w.waiting && w.waiting[p] == k;
      assert p.0 == x ==> !Resent(w.nodes[x], i, r, p.1);
      assert w.nodes[p.0].role == Leader;
      assert w'.net[k] == w.net[k];
    }
  }

  lemma RecordWaiting(w: World, x: int, i: Input, packet: int, r: Res)
    requires Chronicled(w) && WaitingTracked(w) && Fits(w, x, i, packet, r)
    requires TrackStep(w.nodes[x], i, r)
    ensures WaitingTracked(Record(w, x, i, packet, r))
  {
    var w' := Record(w, x, i, packet, r);
    assert WaitStep(w, w', x, i, r, packet);
    forall p | p in w'.waiting && p.0 in w'.nodes && w'.nodes[p.0].role == Leader
      ensures Waited(w', p.0, p.1, w'.waiting[p])
    {
      WaitedStays(w, w', x, i, r, packet, p);
    }
  }

  lemma RecordBooked(w: World, x: int, i: Input, packet: int, r: Res)
    requires Chronicled(w) && AllBooked(w) && Fits(w, x, i, packet, r)
    requires Booked(r.node) && AllUncommitted(r.out) && TrackStep(w.nodes[x], i, r)
    ensures AllBooked(Record(w, x, i, packet, r))
  {
    RecordWaiting(w, x, i, packet, r);
  }

  lemma ActBooked(w: World, e: Event)
    requires Chronicled(w) && AllBooked(w) && Enabled(w, e) && !Apply(w, e).stray
    ensures AllBooked(Apply(w, e))
  {
    var x := Actor(w, e);
    var i := InputOf(w, e);
    EventFits(w, e);
    TakenFits(w, x, i, PacketOf(e), Step(w.nodes[x], i));
    assert ShapedNode(w.nodes[x]) && Booked(w.nodes[x]);
    StepBooked(w.nodes[x], i);
    StepTracks(w.nodes[x], i);
    RecordBooked(w, x, i, PacketOf(e), Step(w.nodes[x], i));
  }

  // ---------------------------------------------------------------- runs

  lemma {:induction false} RunBooked(c: Config, es: seq<Event>)
    requires !Run(c, es).stray
    ensures AllBooked(Run(c, es))
  {
    if es != [] {
      var w := Run(c, es[..|es| - 1]);
      var e := es[|es| - 1];
      RunChronicled(c, es[..|es| - 1]);
      RunBooked(c, es[..|es| - 1]);
      if Enabled(w, e) { ActBooked(w, e); }
    }
  }

  lemma ReachableBooked(w: World)
    requires Reachable(w) && !w.stray
    ensures Chronicled(w) && AllBooked(w)
  {
    var c: Config, es :| 1 <= c.idMin && w == Run(c, es);
    RunChronicled(c, es);
    RunBooked(c, es);
  }

  /** No node has left through an exit of its handlers, and every leader's indexes are inside its log. */
  lemma LeaderBookkeeping(w: World, x: int)
    requires Reachable(w) && !w.stray && x in w.nodes
    ensures var n := w.nodes[x];
            && !n.halted
            && (n.role == Leader ==>
                  && n.commitIndex <= n.lastEntryIndex
                  && (forall s :: s in n.table.ids && Flag(n.table.connected, s) ==>
                        && 1 <= Number(n.table.next, s) <= n.lastEntryIndex + 1
                        && Number(n.table.matched, s) <= n.lastEntryIndex))
  {
    ReachableBooked(w);
    var n := w.nodes[x];
    assert Booked(n) && ShapedNode(n);
    forall s | n.role == Leader && s in n.table.ids && Flag(n.table.connected, s)
      ensures NextInLog(n, s)
    {
    }
  }

  /** A leader's cron never steps down half-way: it sends exactly one append to each sibling that needs one. */
  lemma CronServesAll(w: World, x: int, timedOut: bool)
    requires Reachable(w) && !w.stray && x in w.nodes && w.nodes[x].role == Leader
    requires SiblingsBaseline(w.nodes[x].table)
    ensures var n := w.nodes[x];
            var r := Step(n, Cron(true, timedOut));
            var ids := NeedAppend(n.table, n.table.ids);
            && r.node.role == Leader && !r.node.halted && r.node.term == n.term && r.node.log == n.log
            && |r.out| == |ids|
            && (forall j :: 0 <= j < |ids| ==> r.out[j].dst == ids[j] && r.out[j].msg.AppendEntry?)
            && (forall s :: s in ids <==> s in n.table.ids && Flag(n.table.connected, s) && !Flag(n.table.already, s))
  {
    ReachableBooked(w);
    var n := w.nodes[x];
    var ids := NeedAppend(n.table, n.table.ids);
    NeedAppendExactly(n.table, n.table.ids);
    assert Booked(n) && ShapedNode(n);
    CronBatch(n);
    assert Step(n, Cron(true, timedOut)) == SendAppends(n, ids);
    assert Batch(n, ids, SendAppends(n, ids));
  }
}
