/**
 * Log repair. A leader and one follower that exchange append and reply, over and over,
 * bring the follower's log in line with the leader's in a number of rounds known beforehand.
 */
module Repair {
  import opened EntryLog
  import opened ClusterNode
  import opened NodeShape
  import opened LogMatching
  import opened Bookkeeping

  // ---------------------------------------------------------------- the exchange on logs

  /** nextIndex and the follower's log. */
  datatype State = State(next: int, log: seq<Entry>)

  /** The follower finds what the leader says comes before `next`. */
  predicate Succeeds(leader: seq<Entry>, s: State)
    requires 1 <= s.next <= |leader| + 1
  {
    if s.next == 1 then s.log == []
    else s.next - 1 <= |s.log| && s.log[s.next - 2].term == leader[s.next - 2].term
  }

  function Next(leader: seq<Entry>, s: State): (s': State)
    requires 1 <= s.next <= |leader| + 1
    ensures 1 <= s'.next <= |leader| + 1
  {
    if Succeeds(leader, s) then
      if s.next <= |leader| then State(s.next + 1, s.log[..s.next - 1] + [leader[s.next - 1]])
      else State(s.next, s.log[..s.next - 1])
    else if s.next == 1 then State(1, [])
    else State(s.next - 1, if s.next - 1 <= |s.log| then s.log[..s.next - 2] else s.log)
  }

  function After(leader: seq<Entry>, s: State, k: nat): (s': State)
    requires 1 <= s.next <= |leader| + 1
    ensures 1 <= s'.next <= |leader| + 1
    decreases k
  {
    if k == 0 then s else After(leader, Next(leader, s), k - 1)
  }

  /** The highest position up to p at which both logs have the same term; 0 if there is none. */
  function Meet(leader: seq<Entry>, log: seq<Entry>, p: nat): (a: nat)
    requires p <= |leader|
    ensures a <= p && a <= |log|
  {
    if p == 0 then 0
    else if p <= |log| && log[p - 1].term == leader[p - 1].term then p
    else Meet(leader, log, p - 1)
  }

  /** What the follower ends up with: its own log up to the meeting point, then the leader's. */
  function Repaired(leader: seq<Entry>, s: State): seq<Entry>
    requires 1 <= s.next <= |leader| + 1
  {
    var a := Meet(leader, s.log, s.next - 1);
    s.log[..a] + leader[a..]
  }

  /** Rounds until nextIndex is past the leader's log: back to the meeting point, then forward. */
  function RoundsNeeded(leader: seq<Entry>, s: State): nat
    requires 1 <= s.next <= |leader| + 1
  {
    var a := Meet(leader, s.log, s.next - 1);
    (s.next - 1 - a) + (if s.next == 1 && s.log != [] then 1 else 0) + (|leader| - a)
  }

  lemma MeetPrefix(leader: seq<Entry>, log: seq<Entry>, log': seq<Entry>, p: nat)
    requires p <= |leader| && p <= |log| && p <= |log'| && log[..p] == log'[..p]
    ensures Meet(leader, log, p) == Meet(leader, log', p)
  {
    if p > 0 {
      assert log[p - 1] == log[..p][p - 1] == log'[..p][p - 1] == log'[p - 1];
      assert log[..p - 1] == log[..p][..p - 1] == log'[..p][..p - 1] == log'[..p - 1];
      MeetPrefix(leader, log, log', p - 1);
    }
  }

  /** A log cut at q meets the leader where the whole log would have met it from q downwards. */
  lemma {:induction false} MeetCut(leader: seq<Entry>, log: seq<Entry>, p: nat, q: nat)
    requires q <= p <= |leader| && q <= |log|
    ensures Meet(leader, log[..q], p) == Meet(leader, log, q)
  {
    if p == q {
      MeetPrefix(leader, log[..q], log, q);
    } else {
      MeetCut(leader, log, p - 1, q);
    }
  }

  /** A failed round keeps the meeting point and brings it one round nearer. */
  lemma FailedRound(leader: seq<Entry>, s: State)
    requires 1 <= s.next <= |leader| + 1 && !Succeeds(leader, s)
    ensures RoundsNeeded(leader, s) == 1 + RoundsNeeded(leader, Next(leader, s))
    ensures Repaired(leader, s) == Repaired(leader, Next(leader, s))
  {
    if s.next > 1 {
      var p := s.next - 1;
      if p <= |s.log| {
        MeetCut(leader, s.log, p - 1, p - 1);
        var a := Meet(leader, s.log, p - 1);
        assert s.log[..p - 1][..a] == s.log[..a];
      }
    }
  }

  /** A success is followed by a success, and its result is the meeting point's. */
  lemma GoodRound(leader: seq<Entry>, s: State)
    requires 1 <= s.next <= |leader| + 1 && Succeeds(leader, s)
    ensures Succeeds(leader, Next(leader, s))
    ensures Repaired(leader, Next(leader, s)) == Repaired(leader, s)
    ensures s.next <= |leader| ==> RoundsNeeded(leader, s) == 1 + RoundsNeeded(leader, Next(leader, s))
    ensures s.next == |leader| + 1 ==>
              RoundsNeeded(leader, s) == 0 && Next(leader, s) == State(s.next, Repaired(leader, s))
              && Next(leader, Next(leader, s)) == Next(leader, s)
  {
    var p := s.next - 1;
    var s' := Next(leader, s);
    if s.next <= |leader| {
      assert s.log[..p] + leader[p..] == s'.log[..p + 1] + leader[p + 1..];
    } else {
      assert s.log[..p] + leader[p..] == s.log[..p];
    }
  }

  /**
   * From any nextIndex and any follower log, the rounds needed are at most nextIndex plus the
   * leader's length; after them nextIndex is past the leader's log, and one heartbeat later the
   * follower holds the repaired log, which no further round changes.
   */
  lemma {:induction false} RepairConverges(leader: seq<Entry>, s: State)
    requires 1 <= s.next <= |leader| + 1
    ensures var k := RoundsNeeded(leader, s);
            && k <= s.next + |leader|
            && After(leader, s, k).next == |leader| + 1
            && Succeeds(leader, After(leader, s, k))
            && After(leader, s, k + 1) == State(|leader| + 1, Repaired(leader, s))
            && Next(leader, After(leader, s, k + 1)) == After(leader, s, k + 1)
    decreases RoundsNeeded(leader, s)
  {
    if Succeeds(leader, s) {
      GoodRound(leader, s);
      if s.next <= |leader| {
        RepairConverges(leader, Next(leader, s));
      } else {
        assert After(leader, s, 1) == After(leader, Next(leader, s), 0);
      }
    } else {
      FailedRound(leader, s);
      RepairConverges(leader, Next(leader, s));
    }
  }

  /** The two logs satisfy Log Matching. */
  ghost predicate Matching(a: seq<Entry>, b: seq<Entry>) {
    forall i :: 0 <= i < |a| && i < |b| && a[i].term == b[i].term ==> a[..i + 1] == b[..i + 1]
  }

  lemma {:induction false} MeetAgrees(leader: seq<Entry>, log: seq<Entry>, p: nat)
    requires p <= |leader|
    ensures var a := Meet(leader, log, p); a > 0 ==> log[a - 1].term == leader[a - 1].term
  {
    if p > 0 && !(p <= |log| && log[p - 1].term == leader[p - 1].term) { MeetAgrees(leader, log, p - 1); }
  }

  /** Under Log Matching the repaired log is the leader's. */
  lemma RepairedIsLeaders(leader: seq<Entry>, s: State)
    requires 1 <= s.next <= |leader| + 1 && Matching(leader, s.log)
    ensures Repaired(leader, s) == leader
  {
    MeetAgrees(leader, s.log, s.next - 1);
    var a := Meet(leader, s.log, s.next - 1);
    assert leader[..a] == s.log[..a] by {
        if a > 0 { assert leader[..a - 1 + 1] == s.log[..a - 1 + 1]; }
    }
    assert leader == leader[..a] + leader[a..];
  }

  // ---------------------------------------------------------------- the exchange on nodes

  /** One round between a leader and a follower: append, handling, reply. */
  function Round(l: Node, f: Node): (Node, Node) {
    var sent := SendAppend(l, f.id);
    if sent.out == [] || !sent.out[0].msg.AppendEntry? then (sent.node, f)
    else
      var handled := HandleAppend(f, l.id, sent.out[0].msg);
      if handled.out == [] || !handled.out[0].msg.AppendReply? then (sent.node, handled.node)
      else (HandleAppendReply(sent.node, f.id, handled.out[0].msg), handled.node)
  }

  /** A working leader and a follower that is not ahead of its term. */
  ghost predicate Pair(l: Node, f: Node) {
    && ShapedNode(l) && ShapedNode(f)
    && l.role == Leader && !l.halted && !f.halted
    && l.commitIndex <= |l.log|
    && f.id in l.table.ids && f.id != l.id
    && NextInLog(l, f.id)
    && f.term <= l.term
  }

  ghost function StateOf(l: Node, f: Node): State { State(Number(l.table.next, f.id), f.log) }

  /** What two nodes do to each other in one round; the induction over rounds sees no more of it. */
  type Exchange = (Node, Node) -> (Node, Node)

  function Iterate(exchange: Exchange, l: Node, f: Node, k: nat): (Node, Node)
    decreases k
  {
    if k == 0 then (l, f) else var r := exchange(l, f); Iterate(exchange, r.0, r.1, k - 1)
  }

  function Rounds(l: Node, f: Node, k: nat): (Node, Node) { Iterate((x: Node, y: Node) => Round(x, y), l, f, k) }

  /** The append of a round, built from nextIndex. */
  ghost predicate RoundMessage(l: Node, f: Node, m: Message) {
    var next := Number(l.table.next, f.id);
    && Built(l, f.id, m) && TakenFrom(m, l.log) && ShapedMessage(m)
    && m.leaderCommit == l.commitIndex
    && (next <= |l.log| ==> l.log[next - 1] == Entry(m.index, m.entryTerm, m.content) && m.index != 0)
  }

  lemma RoundSends(l: Node, f: Node)
    requires Pair(l, f)
    ensures var sent := SendAppend(l, f.id);
            && |sent.out| == 1 && RoundMessage(l, f, sent.out[0].msg)
            && sent.node.id == l.id && SameButFlags(l, sent.node)
            && sent.node.table.empty == l.table.empty[f.id := Number(l.table.next, f.id) > |l.log|]
  {
    SendAppendBooked(l, f.id);
    SendAppendShape(l, f.id);
    SendAppendLog(l, f.id);
    ContiguousAccess(l.log, Number(l.table.next, f.id));
  }

  /** The follower's side of a round. */
  lemma RoundHandled(l: Node, f: Node, m: Message)
    requires Pair(l, f) && RoundMessage(l, f, m)
    ensures var h := HandleAppend(f, l.id, m);
            var s := StateOf(l, f);
            && |h.out| == 1 && h.out[0].msg.AppendReply?
            && h.out[0].msg.term <= l.term
            && (h.out[0].msg.success <==> Succeeds(l.log, s))
            && h.node.log == Next(l.log, s).log
            && ShapedNode(h.node) && !h.node.halted && h.node.id == f.id && h.node.term <= l.term
  {
    var r := Recognise(f, m);
    assert r.log == f.log && r.term <= l.term && !TurnsAway(f, m);
    CheckPreviousOnContiguous(f.log, m);
    HandleAppendShape(f, l.id, m);
    assert m.prevIndex == StateOf(l, f).next - 1;
  }

  /** The leader's side of a round. */
  lemma RoundTaken(l: Node, f: Node, l1: Node, m: Message)
    requires Pair(l, f) && SameButFlags(l, l1)
    requires l1.table.empty == l.table.empty[f.id := Number(l.table.next, f.id) > |l.log|]
    requires m.AppendReply? && m.term <= l.term && (m.success <==> Succeeds(l.log, StateOf(l, f)))
    ensures var l' := HandleAppendReply(l1, f.id, m);
            && l'.log == l.log && l'.term == l.term && l'.id == l.id && l'.table.ids == l.table.ids
            && l'.role == Leader && !l'.halted && l'.lastEntryIndex == l.lastEntryIndex
            && 0 <= l'.commitIndex <= |l.log|
            && Number(l'.table.next, f.id) == Next(l.log, StateOf(l, f)).next
  {
  }

  /** A round on nodes is a round on logs, and leaves a pair that can go on. */
  lemma RoundIsNext(l: Node, f: Node)
    requires Pair(l, f)
    ensures var r := Round(l, f);
            && Pair(r.0, r.1) && r.0.log == l.log && r.1.id == f.id
            && StateOf(r.0, r.1) == Next(l.log, StateOf(l, f))
  {
    RoundSends(l, f);
    var sent := SendAppend(l, f.id);
    RoundHandled(l, f, sent.out[0].msg);
    var handled := HandleAppend(f, l.id, sent.out[0].msg);
    RoundTaken(l, f, sent.node, handled.out[0].msg);
  }

  /** The nodes stand where k rounds of the exchange on logs lead. */
  ghost predicate LedTo(l: Node, f: Node, k: nat, r: (Node, Node))
    requires Pair(l, f)
  {
    && Pair(r.0, r.1) && r.0.log == l.log && r.1.id == f.id
    && StateOf(r.0, r.1) == After(l.log, StateOf(l, f), k)
  }

  lemma LedToLater(l: Node, f: Node, k: nat, first: (Node, Node), r: (Node, Node))
    requires Pair(l, f) && k > 0
    requires Pair(first.0, first.1) && first.0.log == l.log && first.1.id == f.id
    requires StateOf(first.0, first.1) == Next(l.log, StateOf(l, f))
    requires LedTo(first.0, first.1, k - 1, r)
    ensures LedTo(l, f, k, r)
  {
  }

  /** The exchange is one round of the exchange on logs. */
  ghost predicate Exchanges(exchange: Exchange) {
    forall l: Node, f: Node {:trigger exchange(l, f)} :: Pair(l, f) ==> Exchanged(l, f, exchange(l, f))
  }

  ghost predicate Exchanged(l: Node, f: Node, r: (Node, Node))
    requires Pair(l, f)
  {
    && Pair(r.0, r.1) && r.0.log == l.log && r.1.id == f.id
    && StateOf(r.0, r.1) == Next(l.log, StateOf(l, f))
  }

  lemma {:induction false} IterateLeadsTo(exchange: Exchange, l: Node, f: Node, k: nat)
    requires Exchanges(exchange) && Pair(l, f)
    ensures LedTo(l, f, k, Iterate(exchange, l, f, k))
    decreases k
  {
    if k > 0 {
      var first := exchange(l, f);
      assert Exchanged(l, f, first);
      IterateLeadsTo(exchange, first.0, first.1, k - 1);
      LedToLater(l, f, k, first, Iterate(exchange, first.0, first.1, k - 1));
    }
  }

  lemma RoundExchanges()
    ensures Exchanges((x: Node, y: Node) => Round(x, y))
  {
    forall l: Node, f: Node | Pair(l, f) ensures Exchanged(l, f, Round(l, f)) { RoundIsNext(l, f); }
  }

  lemma RoundsAreAfter(l: Node, f: Node, k: nat)
    requires Pair(l, f)
    ensures LedTo(l, f, k, Rounds(l, f, k))
  {
    RoundExchanges();
    IterateLeadsTo((x: Node, y: Node) => Round(x, y), l, f, k);
  }

  lemma StandsAt(l: Node, f: Node, k: nat, r: (Node, Node))
    requires Pair(l, f) && LedTo(l, f, k, r)
    ensures var s := After(l.log, StateOf(l, f), k);
            Pair(r.0, r.1) && Number(r.0.table.next, f.id) == s.next && r.1.log == s.log
  {
  }

  /** Nobody has left or changed role, nextIndex is past the leader's log, and the follower's log is repaired. */
  ghost predicate Repairing(l: Node, f: Node, r: (Node, Node))
    requires Pair(l, f)
  {
    && Pair(r.0, r.1)
    && Number(r.0.table.next, f.id) == |l.log| + 1
    && r.1.log == Repaired(l.log, StateOf(l, f))
    && (Matching(l.log, f.log) ==> r.1.log == l.log)
  }

  lemma RepairedLedTo(l: Node, f: Node, k: nat, r: (Node, Node))
    requires Pair(l, f) && LedTo(l, f, k, r)
    requires After(l.log, StateOf(l, f), k) == State(|l.log| + 1, Repaired(l.log, StateOf(l, f)))
    ensures Repairing(l, f, r)
  {
    StandsAt(l, f, k, r);
    if Matching(l.log, f.log) { RepairedIsLeaders(l.log, StateOf(l, f)); }
  }

  /**
   * Repair is totally correct. Within nextIndex plus |log| rounds nextIndex is past the leader's
   * log, nobody has left, and after one more round the follower holds the repaired log, which is
   * the leader's if the logs satisfied Log Matching at the start.
   */
  lemma RepairIsTotal(l: Node, f: Node) returns (k: nat)
    requires Pair(l, f)
    ensures k <= Number(l.table.next, f.id) + |l.log|
    ensures Number(Rounds(l, f, k).0.table.next, f.id) == |l.log| + 1
    ensures Repairing(l, f, Rounds(l, f, k + 1))
  {
    var s := StateOf(l, f);
    k := RoundsNeeded(l.log, s);
    RepairConverges(l.log, s);
    RoundsAreAfter(l, f, k);
    StandsAt(l, f, k, Rounds(l, f, k));
    RoundsAreAfter(l, f, k + 1);
    RepairedLedTo(l, f, k + 1, Rounds(l, f, k + 1));
  }

  /** After the first success every round succeeds. */
  lemma {:induction false} SuccessLasts(leader: seq<Entry>, s: State, k: nat)
    requires 1 <= s.next <= |leader| + 1 && Succeeds(leader, s)
    ensures Succeeds(leader, After(leader, s, k))
    decreases k
  {
    if k > 0 {
      GoodRound(leader, s);
      SuccessLasts(leader, Next(leader, s), k - 1);
    }
  }
}
