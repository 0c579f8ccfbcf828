/**
 * Log Matching (section 5.3 of the Raft paper). In every run in which no term has two
 * leaders, two logs that hold an entry with the same index and term agree up to it.
 */
module LogMatching {
  import opened EntryLog
  import opened ClusterNode
  import opened NodeShape
  import opened World

  // ---------------------------------------------------------------- one step, seen from the log

  /** The append describes the log it was built from. */
  ghost predicate TakenFrom(m: Message, log: seq<Entry>)
    requires m.AppendEntry?
  {
    && 0 <= m.prevIndex <= |log|
    && (m.prevIndex > 0 ==> log[m.prevIndex - 1].term == m.prevTerm)
    && (m.index != 0 ==> m.prevIndex < |log| && log[m.prevIndex] == Entry(m.index, m.entryTerm, m.content))
  }

  /** The log after accepting the append on top of a matching previous entry. */
  ghost predicate Grafted(log: seq<Entry>, m: Message, log': seq<Entry>)
    requires m.AppendEntry?
  {
    && 0 <= m.prevIndex <= |log|
    && (m.prevIndex > 0 ==> log[m.prevIndex - 1].term == m.prevTerm)
    && log' == log[..m.prevIndex] + (if m.index == 0 then [] else [Entry(m.index, m.entryTerm, m.content)])
  }

  /** One more entry of the given term at the end. */
  ghost predicate Extended(log: seq<Entry>, term: int, log': seq<Entry>) {
    |log'| == |log| + 1 && log <= log' && log'[|log|].index == |log'| && log'[|log|].term == term
  }

  /** All that a step can do to a log: cut it, extend it as leader, or graft an append onto it. */
  ghost predicate LogStep(n: Node, i: Input, n': Node) {
    || n'.log <= n.log
    || (n.role == n'.role == Leader && n'.term == n.term
        && Extended(n.log, n.term, n'.log))
    || (i.Receive? && i.msg.AppendEntry? && n'.role == Follower && Grafted(n.log, i.msg, n'.log))
  }

  /** A leader was already one with a shorter log, or has just won with the log it had. */
  ghost predicate LeaderStep(n: Node, n': Node) {
    n'.role == Leader ==>
      && n'.term == n.term
      && n.log <= n'.log
      && (n.role == Leader || (n.role == Candidate && n'.log == n.log))
  }

  /** A candidate has kept its term and log, or has just started a new term. */
  ghost predicate CandidateStep(n: Node, n': Node) {
    n'.role == Candidate ==>
      n'.term == n.term + 1 || (n.role == Candidate && n'.term == n.term && n'.log == n.log)
  }

  ghost predicate RoleStep(n: Node, n': Node) {
    LeaderStep(n, n') && CandidateStep(n, n') && n'.id == n.id && n.term <= n'.term
  }

  ghost predicate AppendsFrom(n: Node, out: seq<Send>) {
    forall j :: 0 <= j < |out| && out[j].msg.AppendEntry? ==>
      && n.role == Leader
      && out[j].msg.term == n.term
      && out[j].msg.leaderId == n.id
      && TakenFrom(out[j].msg, n.log)
  }

  ghost predicate LogKept(n: Node, n': Node) {
    n'.log == n.log && n'.term == n.term && n'.id == n.id
  }

  lemma {:induction false} NoAppends(ids: seq<int>, m: Message)
    requires !m.AppendEntry?
    ensures forall j :: 0 <= j < |ToAll(ids, m)| ==> ToAll(ids, m)[j].msg == m
  {
    if ids != [] { NoAppends(ids[..|ids| - 1], m); }
  }

  lemma SendAppendLog(n: Node, s: int)
    requires ShapedNode(n)
    ensures var r := SendAppend(n, s);
            AppendsFrom(n, r.out) && LogKept(n, r.node) && (r.node.role == n.role || r.node.role == Follower)
  {
    var next := Number(n.table.next, s);
    ContiguousAccess(n.log, next);
    ContiguousAccess(n.log, next - 1);
  }

  lemma {:induction false} SendAppendsLog(n: Node, ids: seq<int>)
    requires ShapedNode(n)
    ensures var r := SendAppends(n, ids);
            AppendsFrom(n, r.out) && LogKept(n, r.node) && (r.node.role == n.role || r.node.role == Follower)
  {
    if ids != [] {
      var r := SendAppends(n, ids[..|ids| - 1]);
      SendAppendsLog(n, ids[..|ids| - 1]);
      SendAppendsShape(n, ids[..|ids| - 1]);
      SendAppendLog(r.node, ids[|ids| - 1]);
    }
  }

  lemma FollowGrafts(log: seq<Entry>, m: Message)
    requires Contiguous(log) && m.AppendEntry? && ShapedMessage(m)
    ensures Follow(log, m).log <= log || Grafted(log, m, Follow(log, m).log)
    ensures Follow(log, m).Accepted? ==> Grafted(log, m, Follow(log, m).log)
    ensures Follow(log, m).Rejected? ==> Follow(log, m).log <= log
  {
    CheckPreviousOnContiguous(log, m);
  }

  lemma HandleAppendLog(n: Node, src: int, m: Message)
    requires ShapedNode(n) && m.AppendEntry? && ShapedMessage(m)
    ensures var r := HandleAppend(n, src, m);
            LogStep(n, Receive(src, m), r.node) && RoleStep(n, r.node) && AppendsFrom(n, r.out)
  {
    HandleAppendCases(n, src, m);
    if !TurnsAway(n, m) { FollowGrafts(n.log, m); }
  }

  lemma HandleAppendCases(n: Node, src: int, m: Message)
    requires m.AppendEntry?
    ensures var r := HandleAppend(n, src, m);
            && r.node.id == n.id && n.term <= r.node.term
            && (forall j :: 0 <= j < |r.out| ==> r.out[j].msg.AppendReply?)
            && (if TurnsAway(n, m) then r.node == n
                else r.node.role == Follower && r.node.log == Follow(n.log, m).log)
  {
    if !TurnsAway(n, m) {
      var f := Recognise(n, m);
      assert f.role == Follower && f.log == n.log;
    }
  }

  lemma TickLog(n: Node, i: Input)
    requires ShapedNode(n) && i.Cron?
    ensures var r := Step(n, i);
            LogStep(n, i, r.node) && RoleStep(n, r.node) && AppendsFrom(n, r.out)
  {
    SendAppendsLog(n, NeedAppend(n.table, n.table.ids));
    var c := ToCandidate(n).node;
    NoAppends(NeedAppend(c.table, c.table.ids), VoteRequest(c));
  }

  lemma ReplyLog(n: Node, i: Input)
    requires ShapedNode(n) && i.Receive? && ShapedMessage(i.msg) && !i.msg.AppendEntry?
    ensures var r := Step(n, i);
            LogStep(n, i, r.node) && RoleStep(n, r.node) && AppendsFrom(n, r.out)
  {
  }

  lemma StepLog(n: Node, i: Input)
    requires ShapedNode(n) && (i.Receive? ==> ShapedMessage(i.msg))
    ensures var r := Step(n, i);
            LogStep(n, i, r.node) && RoleStep(n, r.node) && AppendsFrom(n, r.out)
  {
    match i
    case Receive(src, m) => if m.AppendEntry? { HandleAppendLog(n, src, m); } else { ReplyLog(n, i); }
    case Cron(childrenReady, timedOut) => TickLog(n, i);
    case Request(content) =>
    case Add(s) =>
    case Confirm(s) =>
    case Delete(s) =>
  }

  // ---------------------------------------------------------------- the world without hypotheses

  ghost predicate ShapedWorld(w: World) {
    && WellFormed(w)
    && (forall x :: x in w.nodes ==> w.nodes[x].id == x && ShapedNode(w.nodes[x]))
    && (forall k :: 0 <= k < |w.net| ==> ShapedMessage(w.net[k].msg))
  }

  /** What leaders hold is on record. */
  ghost predicate LeadersRecorded(w: World) {
    forall x :: x in w.nodes && w.nodes[x].role == Leader ==>
      Reign(x, w.nodes[x].term) in w.reigns && w.reigns[Reign(x, w.nodes[x].term)] == w.nodes[x].log
  }

  /** No node has led a term that it has not reached, or for which it is still a candidate. */
  ghost predicate ReignPast(w: World, r: Reign) {
    && r.node in w.nodes
    && r.term <= w.nodes[r.node].term
    && (r.term == w.nodes[r.node].term ==> w.nodes[r.node].role != Candidate)
  }

  ghost predicate ReignsPast(w: World) {
    forall r :: r in w.reigns ==> ReignPast(w, r)
  }

  ghost predicate ReignsShaped(w: World) {
    forall r :: r in w.reigns ==> Contiguous(w.reigns[r]) && TermsOrdered(w.reigns[r], r.term)
  }

  ghost predicate Backed(m: Message, reigns: map<Reign, seq<Entry>>)
    requires m.AppendEntry?
  {
    Reign(m.leaderId, m.term) in reigns && TakenFrom(m, reigns[Reign(m.leaderId, m.term)])
  }

  ghost predicate AppendsBacked(w: World) {
    forall k :: 0 <= k < |w.net| && w.net[k].msg.AppendEntry? ==> Backed(w.net[k].msg, w.reigns)
  }

  ghost predicate Chronicled(w: World) {
    ShapedWorld(w) && LeadersRecorded(w) && ReignsPast(w) && ReignsShaped(w) && AppendsBacked(w)
  }

  /** What the proofs below use of a step; StepSound shows that every step has it. */
  ghost predicate Sound(n: Node, i: Input, r: Res) {
    && ShapedNode(r.node) && ShapedOut(r.out) && SameBut(n, r.node)
    && LogStep(n, i, r.node) && RoleStep(n, r.node) && AppendsFrom(n, r.out)
  }

  lemma StepSound(n: Node, i: Input)
    requires ShapedNode(n) && (i.Receive? ==> ShapedMessage(i.msg))
    ensures Sound(n, i, Step(n, i))
  {
    StepShape(n, i);
    StepLog(n, i);
  }

  /** Where a step may be recorded. */
  ghost predicate Fits(w: World, x: int, i: Input, packet: int, r: Res) {
    && x in w.nodes && x in w.ballots && x in w.tally
    && (0 <= packet < |w.net| || packet == -1)
    && (i.Receive? ==> ShapedMessage(i.msg))
    && (i.Receive? <==> packet != -1)
    && (packet != -1 ==> i == Receive(w.net[packet].src, w.net[packet].msg) && w.net[packet].dst == x)
    && Sound(w.nodes[x], i, r)
    && (i.Confirm? ==> Flag(w.nodes[x].table.registered, i.sibling))
  }

  /** No reign is forgotten and none shrinks. */
  ghost predicate Grown(reigns: map<Reign, seq<Entry>>, reigns': map<Reign, seq<Entry>>) {
    forall q :: q in reigns ==> q in reigns' && reigns[q] <= reigns'[q]
  }

  lemma InitChronicled(c: Config)
    ensures Chronicled(Init(c))
  {
  }

  lemma RecordShaped(w: World, x: int, i: Input, packet: int, r: Res)
    requires ShapedWorld(w) && Fits(w, x, i, packet, r)
    ensures ShapedWorld(Record(w, x, i, packet, r))
  {
  }

  /** Reigns only grow, and only the acting node's current one. */
  /** A node that is not the leader of its term has never been. */
  lemma NotYetLed(w: World, x: int, i: Input, packet: int, r: Res)
    requires Chronicled(w) && Fits(w, x, i, packet, r)
    ensures Elected(w.nodes[x], r.node) ==> Reign(x, w.nodes[x].term) !in w.reigns
  {
    assert Reign(x, w.nodes[x].term) in w.reigns ==> ReignPast(w, Reign(x, w.nodes[x].term));
  }

  lemma ReignGrows(w: World, x: int, i: Input, packet: int, r: Res)
    requires Chronicled(w) && Fits(w, x, i, packet, r)
    requires Elected(w.nodes[x], r.node) ==> Reign(x, w.nodes[x].term) !in w.reigns
    ensures Grown(w.reigns, Record(w, x, i, packet, r).reigns)
  {
    var q := Reign(x, r.node.term);
    assert r.node.role == Leader && q in w.reigns ==> ReignPast(w, q);
  }

  lemma RecordReigns(w: World, x: int, i: Input, packet: int, r: Res)
    requires Chronicled(w) && Fits(w, x, i, packet, r)
    ensures Grown(w.reigns, Record(w, x, i, packet, r).reigns)
    ensures Elected(w.nodes[x], r.node) ==> Reign(x, w.nodes[x].term) !in w.reigns
  {
    NotYetLed(w, x, i, packet, r);
    ReignGrows(w, x, i, packet, r);
  }

  lemma RecordLeaders(w: World, x: int, i: Input, packet: int, r: Res)
    requires Chronicled(w) && Fits(w, x, i, packet, r)
    ensures LeadersRecorded(Record(w, x, i, packet, r))
  {
  }

  lemma RecordPast(w: World, x: int, i: Input, packet: int, r: Res)
    requires Chronicled(w) && Fits(w, x, i, packet, r)
    ensures ReignsPast(Record(w, x, i, packet, r)) && ReignsShaped(Record(w, x, i, packet, r))
  {
    var w' := Record(w, x, i, packet, r);
    forall q | q in w'.reigns
      ensures ReignPast(w', q)
    {
      if q in w.reigns { assert ReignPast(w, q); }
    }
  }

  lemma PacketBacked(w: World, x: int, i: Input, packet: int, r: Res, k: nat)
    requires Chronicled(w) && Fits(w, x, i, packet, r) && k < |w.net| + |r.out|
    ensures var m := (w.net + Packets(x, r.out, packet, r.node.log))[k].msg; m.AppendEntry? ==> Backed(m, w.reigns)
  {
    var p := (w.net + Packets(x, r.out, packet, r.node.log))[k];
    if p.msg.AppendEntry? {
      if k < |w.net| {
        assert p == w.net[k] && Backed(w.net[k].msg, w.reigns);
      } else {
        assert p.msg == r.out[k - |w.net|].msg;
        SentIsBacked(w, x, i, packet, r, k - |w.net|);
      }
    }
  }

  lemma RecordBacked(w: World, x: int, i: Input, packet: int, r: Res)
    requires Chronicled(w) && Fits(w, x, i, packet, r)
    ensures AppendsBacked(Record(w, x, i, packet, r))
  {
    var w' := Record(w, x, i, packet, r);
    RecordReigns(w, x, i, packet, r);
    forall k | 0 <= k < |w'.net| && w'.net[k].msg.AppendEntry?
      ensures Backed(w'.net[k].msg, w'.reigns)
    {
      PacketBacked(w, x, i, packet, r, k);
      BackedLater(w'.net[k].msg, w.reigns, w'.reigns);
    }
  }

  lemma BackedLater(m: Message, reigns: map<Reign, seq<Entry>>, reigns': map<Reign, seq<Entry>>)
    requires m.AppendEntry? && Backed(m, reigns) && Grown(reigns, reigns')
    ensures Backed(m, reigns')
  {
    var q := Reign(m.leaderId, m.term);
    assert reigns[q] <= reigns'[q];
  }

  /** What a leader sends is taken from the log of its reign. */
  lemma SentIsBacked(w: World, x: int, i: Input, packet: int, r: Res, j: nat)
    requires Chronicled(w) && Fits(w, x, i, packet, r) && j < |r.out| && r.out[j].msg.AppendEntry?
    ensures Backed(r.out[j].msg, w.reigns)
  {
    assert TakenFrom(r.out[j].msg, w.nodes[x].log);
  }

  lemma RecordChronicled(w: World, x: int, i: Input, packet: int, r: Res)
    requires Chronicled(w) && Fits(w, x, i, packet, r)
    ensures Chronicled(Record(w, x, i, packet, r))
  {
    RecordShaped(w, x, i, packet, r);
    RecordLeaders(w, x, i, packet, r);
    RecordPast(w, x, i, packet, r);
    RecordBacked(w, x, i, packet, r);
  }

  lemma EventFits(w: World, e: Event)
    requires ShapedWorld(w) && Enabled(w, e)
    ensures var x := Actor(w, e); var i := InputOf(w, e);
            x in w.nodes && Fits(w, x, i, PacketOf(e), Step(w.nodes[x], i))
            && Apply(w, e) == Record(w, x, i, PacketOf(e), Step(w.nodes[x], i))
  {
    StepSound(w.nodes[Actor(w, e)], InputOf(w, e));
  }

  lemma {:induction false} RunChronicled(c: Config, es: seq<Event>)
    ensures Chronicled(Run(c, es))
  {
    if es == [] {
      InitChronicled(c);
    } else {
      var w := Run(c, es[..|es| - 1]);
      var e := es[|es| - 1];
      RunChronicled(c, es[..|es| - 1]);
      if Enabled(w, e) {
        EventFits(w, e);
        RecordChronicled(w, Actor(w, e), InputOf(w, e), PacketOf(e), Step(w.nodes[Actor(w, e)], InputOf(w, e)));
      }
    }
  }

  // ---------------------------------------------------------------- matching

  ghost predicate OnePerTerm(reigns: map<Reign, seq<Entry>>) {
    forall q, r :: q in reigns && r in reigns && q.term == r.term ==> q == r
  }

  /** No term has been led by two nodes. */
  ghost predicate OneLeaderPerTerm(w: World) {
    OnePerTerm(w.reigns)
  }

  ghost predicate Known(term: int, reigns: map<Reign, seq<Entry>>) {
    exists r :: r in reigns && r.term == term
  }

  /** Every entry was created in a recorded reign, with the log before it equal to that reign's. */
  ghost predicate Traced(log: seq<Entry>, reigns: map<Reign, seq<Entry>>) {
    && (forall r, i :: r in reigns && 0 <= i < |log| && log[i].term == r.term ==>
          i < |reigns[r]| && log[..i + 1] == reigns[r][..i + 1])
    && (forall i :: 0 <= i < |log| ==> Known(log[i].term, reigns))
  }

  ghost predicate AllTraced(w: World) {
    && (forall x :: x in w.nodes ==> Traced(w.nodes[x].log, w.reigns))
    && (forall q :: q in w.reigns ==> Traced(w.reigns[q], w.reigns))
  }

  lemma TracedPrefix(log: seq<Entry>, k: nat, reigns: map<Reign, seq<Entry>>)
    requires Traced(log, reigns) && k <= |log|
    ensures Traced(log[..k], reigns)
  {
    forall r, i | r in reigns && 0 <= i < k && log[..k][i].term == r.term
      ensures i < |reigns[r]| && log[..k][..i + 1] == reigns[r][..i + 1]
    {
      assert log[i].term == r.term;
      assert log[..k][..i + 1] == log[..i + 1];
    }
    forall i | 0 <= i < k
      ensures Known(log[..k][i].term, reigns)
    {
      assert Known(log[i].term, reigns);
    }
  }

  /** Traced logs that agree on the term at one position agree up to it. */
  lemma TracedMeet(a: seq<Entry>, b: seq<Entry>, k: nat, reigns: map<Reign, seq<Entry>>)
    requires Traced(a, reigns) && Traced(b, reigns)
    requires k < |a| && k < |b| && a[k].term == b[k].term
    ensures a[..k + 1] == b[..k + 1]
  {
    assert Known(a[k].term, reigns);
    var r :| r in reigns && r.term == a[k].term;
    assert a[..k + 1] == reigns[r][..k + 1] == b[..k + 1];
  }

  /** A log stays traced while reigns grow, unless a second leader of one of its terms appears. */
  lemma TracedStays(log: seq<Entry>, reigns: map<Reign, seq<Entry>>, reigns': map<Reign, seq<Entry>>)
    requires Traced(log, reigns) && Grown(reigns, reigns') && OnePerTerm(reigns')
    ensures Traced(log, reigns')
  {
    forall k | 0 <= k < |log|
      ensures Known(log[k].term, reigns')
      ensures forall q :: q in reigns' && log[k].term == q.term ==>
                k < |reigns'[q]| && log[..k + 1] == reigns'[q][..k + 1]
    {
      assert Known(log[k].term, reigns);
      var p :| p in reigns && p.term == log[k].term;
      assert reigns[p] <= reigns'[p];
    }
  }

  lemma GraftOntoLeader(log: seq<Entry>, leader: seq<Entry>, m: Message, log': seq<Entry>,
                        reigns: map<Reign, seq<Entry>>)
    requires Traced(log, reigns) && Traced(leader, reigns)
    requires m.AppendEntry? && TakenFrom(m, leader) && Grafted(log, m, log')
    ensures log' == leader[..|log'|] && |log'| == m.prevIndex + (if m.index == 0 then 0 else 1) <= |leader|
  {
    if m.prevIndex > 0 { TracedMeet(log, leader, m.prevIndex - 1, reigns); }
  }

  lemma ExtensionTraced(log: seq<Entry>, log': seq<Entry>, own: Reign, reigns: map<Reign, seq<Entry>>)
    requires Traced(log, reigns) && Extended(log, own.term, log')
    requires own in reigns && reigns[own] == log'
    requires forall q :: q in reigns && q.term == own.term ==> q == own
    ensures Traced(log', reigns)
  {
    forall q, k | q in reigns && 0 <= k < |log'| && log'[k].term == q.term
      ensures k < |reigns[q]| && log'[..k + 1] == reigns[q][..k + 1]
    {
      if k < |log| {
        assert log[k].term == q.term;
        assert log'[..k + 1] == log[..k + 1];
      }
    }
    forall k | 0 <= k < |log'|
      ensures Known(log'[k].term, reigns)
    {
      if k < |log| { assert Known(log[k].term, reigns); }
    }
  }

  lemma StepTraced(n: Node, i: Input, n': Node, reigns: map<Reign, seq<Entry>>, reigns': map<Reign, seq<Entry>>)
    requires LogStep(n, i, n') && Traced(n.log, reigns) && Grown(reigns, reigns') && OnePerTerm(reigns')
    requires i.Receive? && i.msg.AppendEntry? ==>
               Backed(i.msg, reigns) && Traced(reigns[Reign(i.msg.leaderId, i.msg.term)], reigns)
    requires n'.role == Leader ==> Reign(n.id, n'.term) in reigns' && reigns'[Reign(n.id, n'.term)] == n'.log
    ensures Traced(n'.log, reigns')
  {
    if n'.log <= n.log {
      TracedPrefix(n.log, |n'.log|, reigns);
      assert n.log[..|n'.log|] == n'.log;
      TracedStays(n'.log, reigns, reigns');
    } else if i.Receive? && i.msg.AppendEntry? && n'.role == Follower {
      var leader := reigns[Reign(i.msg.leaderId, i.msg.term)];
      GraftOntoLeader(n.log, leader, i.msg, n'.log, reigns);
      TracedPrefix(leader, |n'.log|, reigns);
      TracedStays(n'.log, reigns, reigns');
    } else {
      TracedStays(n.log, reigns, reigns');
      ExtensionTraced(n.log, n'.log, Reign(n.id, n.term), reigns');
    }
  }

  lemma RecordTraced(w: World, x: int, i: Input, packet: int, r: Res)
    requires Chronicled(w) && AllTraced(w) && Fits(w, x, i, packet, r)
    requires OneLeaderPerTerm(Record(w, x, i, packet, r))
    ensures AllTraced(Record(w, x, i, packet, r))
  {
    var w' := Record(w, x, i, packet, r);
    RecordReigns(w, x, i, packet, r);
    OwnTraced(w, x, i, packet, r);
    OthersTraced(w, w', x);
  }

  lemma OwnTraced(w: World, x: int, i: Input, packet: int, r: Res)
    requires Chronicled(w) && AllTraced(w) && Fits(w, x, i, packet, r)
    requires OneLeaderPerTerm(Record(w, x, i, packet, r)) && Grown(w.reigns, Record(w, x, i, packet, r).reigns)
    ensures Traced(r.node.log, Record(w, x, i, packet, r).reigns)
  {
    if i.Receive? && i.msg.AppendEntry? { assert Backed(w.net[packet].msg, w.reigns); }
    StepTraced(w.nodes[x], i, r.node, w.reigns, Record(w, x, i, packet, r).reigns);
  }

  lemma OthersTraced(w: World, w': World, x: int)
    requires AllTraced(w) && Grown(w.reigns, w'.reigns) && OneLeaderPerTerm(w')
    requires x in w'.nodes && w'.nodes == w.nodes[x := w'.nodes[x]] && Traced(w'.nodes[x].log, w'.reigns)
    requires forall q :: q in w'.reigns ==>
               (q in w.reigns && w'.reigns[q] == w.reigns[q]) || w'.reigns[q] == w'.nodes[x].log
    ensures AllTraced(w')
  {
    forall y | y in w'.nodes
      ensures Traced(w'.nodes[y].log, w'.reigns)
    {
      if y != x { TracedStays(w.nodes[y].log, w.reigns, w'.reigns); }
    }
    forall q | q in w'.reigns
      ensures Traced(w'.reigns[q], w'.reigns)
    {
      if q in w.reigns && w'.reigns[q] == w.reigns[q] { TracedStays(w.reigns[q], w.reigns, w'.reigns); }
    }
  }

  /** Reigns are never forgotten, so a term with two leaders stays one with two leaders. */
  lemma OneLeaderBefore(w: World, e: Event)
    requires Chronicled(w) && OneLeaderPerTerm(Apply(w, e))
    ensures OneLeaderPerTerm(w)
  {
    if Enabled(w, e) { EventFits(w, e); }
  }

  lemma {:induction false} RunTraced(c: Config, es: seq<Event>)
    requires OneLeaderPerTerm(Run(c, es))
    ensures AllTraced(Run(c, es))
  {
    if es != [] {
      var w := Run(c, es[..|es| - 1]);
      var e := es[|es| - 1];
      RunChronicled(c, es[..|es| - 1]);
      OneLeaderBefore(w, e);
      RunTraced(c, es[..|es| - 1]);
      if Enabled(w, e) {
        EventFits(w, e);
        RecordTraced(w, Actor(w, e), InputOf(w, e), PacketOf(e), Step(w.nodes[Actor(w, e)], InputOf(w, e)));
      }
    }
  }

  lemma ReachableTraced(w: World)
    requires Reachable(w) && OneLeaderPerTerm(w)
    ensures Chronicled(w) && AllTraced(w)
  {
    var c: Config, es :| 1 <= c.idMin && w == Run(c, es);
    RunChronicled(c, es);
    RunTraced(c, es);
  }

  /** Two logs that hold an entry with the same index and term are identical up to it. */
  lemma LogMatching(w: World, x: int, y: int, i: nat, j: nat)
    requires Reachable(w) && OneLeaderPerTerm(w)
    requires x in w.nodes && y in w.nodes && i < |w.nodes[x].log| && j < |w.nodes[y].log|
    requires w.nodes[x].log[i].index == w.nodes[y].log[j].index
    requires w.nodes[x].log[i].term == w.nodes[y].log[j].term
    ensures i == j && w.nodes[x].log[..i + 1] == w.nodes[y].log[..j + 1]
  {
    ReachableTraced(w);
    assert ShapedNode(w.nodes[x]) && ShapedNode(w.nodes[y]);
    TracedMeet(w.nodes[x].log, w.nodes[y].log, i, w.reigns);
  }

  // ---------------------------------------------------------------- log shape, without hypotheses

  lemma ReachableChronicled(w: World)
    requires Reachable(w)
    ensures Chronicled(w)
  {
    var c: Config, es :| 1 <= c.idMin && w == Run(c, es);
    RunChronicled(c, es);
  }

  /** Indexes 1..n, ordered terms below the node's own, and a leader that knows its log's length. */
  lemma LogShape(w: World, x: int)
    requires Reachable(w) && x in w.nodes
    ensures Contiguous(w.nodes[x].log)
    ensures TermsOrdered(w.nodes[x].log, w.nodes[x].term)
    ensures w.nodes[x].role == Leader ==> w.nodes[x].lastEntryIndex == |w.nodes[x].log|
  {
    ReachableChronicled(w);
    assert ShapedNode(w.nodes[x]);
  }

  /** No event ever lowers a node's term or makes a node disappear. */
  lemma TermsNeverFall(w: World, e: Event, x: int)
    requires Reachable(w) && x in w.nodes
    ensures x in Apply(w, e).nodes && w.nodes[x].term <= Apply(w, e).nodes[x].term
  {
    ReachableChronicled(w);
    if Enabled(w, e) { EventFits(w, e); }
  }

  lemma CutsHit(log: seq<Entry>, m: Message)
    requires Contiguous(log) && m.AppendEntry? && 0 <= m.prevIndex
    requires m.prevIndex != 0 && Find(log, m.prevIndex).Some?
    ensures DeleteFrom(log, m.prevIndex).Some?
    ensures Find(log, m.prevIndex).value.term == m.prevTerm && Last(log) != Find(log, m.prevIndex).value
            ==> DeleteFrom(log, m.prevIndex + 1).Some?
  {
    ContiguousAccess(log, m.prevIndex);
    ContiguousAccess(log, m.prevIndex + 1);
  }

  /** Whatever append is ever in the network, a node that finds its previous entry finds what it wants to cut. */
  lemma CutsNeverMiss(w: World, x: int, k: nat)
    requires Reachable(w) && x in w.nodes && k < |w.net| && w.net[k].msg.AppendEntry?
    requires w.net[k].msg.prevIndex != 0 && Find(w.nodes[x].log, w.net[k].msg.prevIndex).Some?
    ensures var m := w.net[k].msg;
            var prev := Find(w.nodes[x].log, m.prevIndex).value;
            var last := Last(w.nodes[x].log);
            if prev.term != m.prevTerm then DeleteFrom(w.nodes[x].log, m.prevIndex).Some?
            else last.index != m.prevIndex || last.term != m.prevTerm ==>
              DeleteFrom(w.nodes[x].log, m.prevIndex + 1).Some?
  {
    ReachableChronicled(w);
    assert ShapedNode(w.nodes[x]) && ShapedMessage(w.net[k].msg);
    CutsHit(w.nodes[x].log, w.net[k].msg);
  }
}
