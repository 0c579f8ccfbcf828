/**
 * From the runs of the cluster model down to bytes: in a run with contents that the file and the
 * wire can carry, every packet is printed, parsed and heard as the message that it is.
 */
module Deliveries {
  import opened EntryLog
  import opened Decimal
  import opened Protocol
  import opened RoundTrip
  import opened Records
  import opened ClusterNode
  import opened NodeShape
  import opened World
  import opened LogMatching
  import opened DiskLogs
  import opened Wire

  // ---------------------------------------------------------------- small steps

  predicate ShortLog(log: seq<Entry>) { forall i :: 0 <= i < |log| ==> |log[i].content| <= INT_MAX }

  predicate SmallMessage(m: Message, k: int) {
    match m
    case RequestVote(_, candidateId, lastIndex, lastTerm) =>
      IsInt(candidateId) && 0 <= lastIndex <= k && 0 <= lastTerm <= k + 1
    case AppendEntry(_, leaderId, prevIndex, prevTerm, _, entryTerm, content, leaderCommit) =>
      && IsInt(leaderId) && 0 <= prevIndex <= k && 0 <= prevTerm <= k + 1 && 0 <= entryTerm <= k + 1
      && 0 <= leaderCommit <= k && |content| <= INT_MAX
    case _ => true
  }

  ghost predicate SmallOut(out: seq<Send>, k: int) {
    forall j :: 0 <= j < |out| ==> SmallMessage(out[j].msg, k)
  }

  predicate SmallNext(next: map<int, int>, k: int) { forall s :: s in next ==> next[s] <= k + 1 }

  /** Numbers that k events can lead to, and contents of int-sized lengths. */
  predicate SmallNode(n: Node, k: int) {
    IsInt(n.id) && n.commitIndex <= k && SmallNext(n.table.next, k) && ShortLog(n.log)
  }

  predicate SmallInput(i: Input, k: int) {
    match i
    case Receive(_, m) => SmallMessage(m, k)
    case Request(content) => |content| <= INT_MAX
    case _ => true
  }

  lemma SmallSendNode(n: Node, s: int, k: int)
    requires SmallNode(n, k)
    ensures SmallNode(SendAppend(n, s).node, k)
  {
  }

  lemma SmallSendOut(n: Node, s: int, k: int)
    requires CleanNode(n, k) && SmallNode(n, k) && 0 <= k
    ensures SmallOut(SendAppend(n, s).out, k)
  {
    var next := Number(n.table.next, s);
    ContiguousAccess(n.log, next);
    ContiguousAccess(n.log, next - 1);
  }

  lemma {:induction false} SmallSends(n: Node, ids: seq<int>, k: int)
    requires CleanNode(n, k) && SmallNode(n, k) && 0 <= k
    ensures SmallNode(SendAppends(n, ids).node, k) && SmallOut(SendAppends(n, ids).out, k)
  {
    if ids != [] {
      var front := ids[..|ids| - 1];
      SmallSends(n, front, k);
      CleanSends(n, front, k);
      SmallSendNode(SendAppends(n, front).node, ids[|ids| - 1], k);
      SmallSendOut(SendAppends(n, front).node, ids[|ids| - 1], k);
    }
  }

  lemma {:induction false} SmallToAll(ids: seq<int>, m: Message, k: int)
    requires SmallMessage(m, k)
    ensures SmallOut(ToAll(ids, m), k)
  {
    if ids != [] { SmallToAll(ids[..|ids| - 1], m, k); }
  }

  lemma SmallLead(n: Node, k: int)
    requires CleanNode(n, k) && SmallNode(n, k) && 0 <= k
    ensures SmallNode(ToLead(n), k)
  {
    ContiguousAccess(n.log, 0);
  }

  lemma SmallCandidate(n: Node, k: int)
    requires CleanNode(n, k) && SmallNode(n, k) && 0 <= k
    ensures SmallNode(ToCandidate(n).node, k) && SmallOut(ToCandidate(n).out, k + 1)
  {
    ContiguousAccess(n.log, 0);
    var c := ToCandidate(n).node;
    SmallToAll(NeedAppend(c.table, c.table.ids), VoteRequest(c), k + 1);
  }

  lemma SmallLater(n: Node, out: seq<Send>, k: int)
    requires SmallNode(n, k) && SmallOut(out, k)
    ensures SmallNode(n, k + 1) && SmallOut(out, k + 1)
  {
  }

  /** What a cron can come to: nothing sent, appends sent, a victory, or a candidacy. */
  lemma SmallTick(n: Node, childrenReady: bool, timedOut: bool, k: int)
    requires CleanNode(n, k) && SmallNode(n, k) && 0 <= k
    ensures var r := Tick(n, childrenReady, timedOut); SmallNode(r.node, k) && SmallOut(r.out, k + 1)
  {
    var working := SiblingsBaseline(n.table) && childrenReady;
    if working && n.role == Leader {
      var sent := SendAppends(n, NeedAppend(n.table, n.table.ids));
      SmallSends(n, NeedAppend(n.table, n.table.ids), k);
      SmallLater(sent.node, sent.out, k);
    } else if working && timedOut {
      SmallLead(n, k);
      SmallCandidate(n, k);
    }
  }

  lemma SmallFollow(log: seq<Entry>, m: Message, k: int)
    requires ShortLog(log) && m.AppendEntry? && SmallMessage(m, k)
    ensures ShortLog(Follow(log, m).log)
  {
    assert ShortLog(CheckPrevious(log, m).log);
  }

  lemma SmallAppend(n: Node, src: int, m: Message, k: int)
    requires SmallNode(n, k) && m.AppendEntry? && SmallMessage(m, k)
    ensures SmallNode(HandleAppend(n, src, m).node, k) && SmallOut(HandleAppend(n, src, m).out, k)
  {
    SmallFollow(n.log, m, k);
  }

  lemma SmallReply(n: Node, src: int, m: Message, k: int)
    requires SmallNode(n, k) && m.AppendReply? && 0 <= k
    ensures SmallNode(HandleAppendReply(n, src, m), k + 1)
  {
  }

  lemma SmallVote(n: Node, m: Message, k: int)
    requires CleanNode(n, k) && SmallNode(n, k) && m.VoteReply? && 0 <= k
    ensures SmallNode(HandleVoteReply(n, m), k)
  {
    SmallLead(n.(receiveVotes := n.receiveVotes + 1), k);
  }

  lemma SmallRequest(n: Node, src: int, m: Message, k: int)
    requires SmallNode(n, k) && m.RequestVote?
    ensures SmallNode(HandleRequestVote(n, src, m).node, k) && SmallOut(HandleRequestVote(n, src, m).out, k)
  {
  }

  lemma SmallReceive(n: Node, src: int, m: Message, k: int)
    requires CleanNode(n, k) && SmallNode(n, k) && SmallMessage(m, k) && 0 <= k
    ensures var r := Step(n, Receive(src, m)); SmallNode(r.node, k + 1) && SmallOut(r.out, k + 1)
  {
    match m
    case RequestVote(_, _, _, _) =>
      var r := HandleRequestVote(n, src, m);
      SmallRequest(n, src, m, k);
      SmallLater(r.node, r.out, k);
    case VoteReply(_, _) =>
      SmallVote(n, m, k);
      SmallLater(HandleVoteReply(n, m), [], k);
    case AppendEntry(_, _, _, _, _, _, _, _) =>
      var r := HandleAppend(n, src, m);
      SmallAppend(n, src, m, k);
      SmallLater(r.node, r.out, k);
    case AppendReply(_, _) => SmallReply(n, src, m, k);
  }

  lemma SmallStep(n: Node, i: Input, k: int)
    requires CleanNode(n, k) && SmallNode(n, k) && SmallInput(i, k) && 0 <= k
    ensures SmallNode(Step(n, i).node, k + 1) && SmallOut(Step(n, i).out, k + 1)
  {
    match i
    case Receive(src, m) => SmallReceive(n, src, m, k);
    case Cron(childrenReady, timedOut) => SmallTick(n, childrenReady, timedOut, k);
    case _ =>
  }

  // ---------------------------------------------------------------- small runs

  /** The ids are ints, and the commands that clients send have int-sized lengths. */
  ghost predicate SmallRun(c: Config, es: seq<Event>) {
    && IsInt(c.idMin) && IsInt(c.idMax)
    && forall k :: 0 <= k < |es| && es[k].Local? && es[k].input.Request? ==> |es[k].input.content| <= INT_MAX
  }

  ghost predicate SmallWorld(w: World, k: int) {
    && (forall x :: x in w.nodes ==> SmallNode(w.nodes[x], k))
    && (forall j :: 0 <= j < |w.net| ==> SmallMessage(w.net[j].msg, k))
  }

  lemma SmallRecord(w: World, x: int, i: Input, packet: int, r: Res, k: int)
    requires WellFormed(w) && x in w.nodes && (0 <= packet < |w.net| || packet == -1) && SmallWorld(w, k)
    requires SmallNode(r.node, k + 1) && SmallOut(r.out, k + 1)
    ensures SmallWorld(Record(w, x, i, packet, r), k + 1)
  {
    var w' := Record(w, x, i, packet, r);
    forall j | 0 <= j < |w'.net| ensures SmallMessage(w'.net[j].msg, k + 1) {
      if j < |w.net| { assert w'.net[j] == w.net[j]; } else { assert w'.net[j].msg == r.out[j - |w.net|].msg; }
    }
  }

  lemma SmallEvent(w: World, e: Event, k: int)
    requires Chronicled(w) && CleanWorld(w, k) && SmallWorld(w, k) && Enabled(w, e) && 0 <= k
    requires e.Local? && e.input.Request? ==> |e.input.content| <= INT_MAX
    ensures SmallWorld(Apply(w, e), k + 1)
  {
    var x, i := Actor(w, e), InputOf(w, e);
    EventFits(w, e);
    assert CleanNode(w.nodes[x], k);
    SmallStep(w.nodes[x], i, k);
    SmallRecord(w, x, i, PacketOf(e), Step(w.nodes[x], i), k);
  }

  lemma {:induction false} RunIsSmall(c: Config, es: seq<Event>)
    requires CleanRun(es) && SmallRun(c, es)
    ensures SmallWorld(Run(c, es), |es|)
  {
    if es == [] {
      InitIsSmall(c);
    } else {
      var front, e := es[..|es| - 1], es[|es| - 1];
      assert forall k :: 0 <= k < |front| ==> front[k] == es[k];
      RunIsSmall(c, front);
      RunIsClean(c, front);
      RunChronicled(c, front);
      EventIsSmall(Run(c, front), e, |es| - 1);
    }
  }

  lemma InitIsSmall(c: Config)
    requires IsInt(c.idMin) && IsInt(c.idMax)
    ensures SmallWorld(Init(c), 0)
  {
  }

  lemma EventIsSmall(w: World, e: Event, k: int)
    requires Chronicled(w) && CleanWorld(w, k) && SmallWorld(w, k) && 0 <= k
    requires e.Local? && e.input.Request? ==> |e.input.content| <= INT_MAX
    ensures SmallWorld(Apply(w, e), k + 1)
  {
    if Enabled(w, e) { SmallEvent(w, e, k); }
  }

  lemma PacketSized(m: Message, k: int)
    requires ShapedMessage(m) && CleanMessage(m, k) && SmallMessage(m, k) && 0 <= k < INT_MAX
    ensures Sized(m) && (m.AppendEntry? ==> MessageFits(m))
  {
  }

  /** In such a run every packet has the sizes of the wire, and what it carries can be stored. */
  lemma PacketsFit(c: Config, es: seq<Event>, j: nat)
    requires CleanRun(es) && SmallRun(c, es) && |es| < INT_MAX && j < |Run(c, es).net|
    ensures var m := Run(c, es).net[j].msg; Sized(m) && (m.AppendEntry? ==> MessageFits(m))
  {
    var w := Run(c, es);
    RunIsSmall(c, es);
    RunIsClean(c, es);
    RunChronicled(c, es);
    PacketSized(w.net[j].msg, |es|);
  }

  /**
   * A delivery of the cluster model is what happens to the bytes: the packet printed, parsed on a
   * connection at a command boundary, and heard, makes the step that the event makes.
   */
  lemma DeliveryIsHearing(c: Config, es: seq<Event>, j: nat, p: Parser, rest: string)
    requires CleanRun(es) && SmallRun(c, es) && |es| < INT_MAX && Enabled(Run(c, es), Deliver(j))
    requires Boundary(p) && p.hasType && !p.wrap && p.input == MessageFrame(Run(c, es).net[j].msg) + rest
    ensures var w := Run(c, es);
            var packet := w.net[j];
            var n := w.nodes[packet.dst];
            var (o, q) := Resolve(p);
            && o == Done && q.complete && q.input == rest && q.argv != [] && IsMessageName(q.argv[0])
            && Hear(n, packet.src, q.argv) == (true, Step(n, Receive(packet.src, packet.msg)))
            && StoresWell(n, Receive(packet.src, packet.msg))
  {
    var w := Run(c, es);
    PacketsFit(c, es, j);
    MessageArrives(w.nodes[w.net[j].dst], w.net[j].src, w.net[j].msg, p, rest);
  }
}
