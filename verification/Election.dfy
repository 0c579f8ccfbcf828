/**
 * Election Safety, with attribution (section 5.2 of the Raft paper). The node forgets its
 * vote whenever it becomes leader or follows again in the same term, and it counts grants
 * from older terms. These are the only ways in which a term can get two leaders.
 */
module Election {
  import opened EntryLog
  import opened ClusterNode
  import opened NodeShape
  import opened World
  import opened LogMatching
  import opened Majority

  // ---------------------------------------------------------------- one step, seen from the vote

  /** The step grants the vote request that it received. */
  ghost predicate Grants(n: Node, i: Input, r: Res) {
    && i.Receive? && i.msg.RequestVote?
    && r.out == [Send(i.src, VoteReply(i.msg.term, true))]
    && r.node.term == i.msg.term && r.node.votedFor == i.msg.candidateId && r.node.log == n.log
    && (r.node.role == Follower || (r.node.role == n.role && r.node.term == n.term))
    && (n.term < r.node.term || n.votedFor == -1)
    && Last(n.log).index <= i.msg.lastIndex && Last(n.log).term <= i.msg.lastTerm
  }

  /** The step starts a candidacy. */
  ghost predicate Stands(n: Node, r: Res) {
    && r.node.role == Candidate && r.node.term == n.term + 1 && r.node.votedFor == n.id
    && r.node.receiveVotes == 1 && r.node.log == n.log
    && (forall j :: 0 <= j < |r.out| ==> r.out[j].msg == VoteRequest(r.node))
  }

  /** The vote is kept, or dropped, and nothing about votes is sent. */
  ghost predicate Abstains(n: Node, r: Res) {
    && (r.node.votedFor == -1 || (r.node.votedFor == n.votedFor && r.node.term == n.term))
    && (r.node.role == Candidate ==> n.role == Candidate && r.node.votedFor == n.votedFor)
    && (forall j :: 0 <= j < |r.out| ==>
          !r.out[j].msg.RequestVote? && !(r.out[j].msg.VoteReply? && r.out[j].msg.granted))
  }

  ghost predicate VoteStep(n: Node, i: Input, r: Res) {
    Grants(n, i, r) || Stands(n, r) || Abstains(n, r)
  }

  /** How votes are counted towards an election. */
  ghost predicate CountStep(n: Node, i: Input, n': Node) {
    var counted := if CountsVote(n, i) then 1 else 0;
    && (n'.role == Candidate && n'.term == n.term ==>
          n.role == Candidate && n'.receiveVotes == n.receiveVotes + counted)
    && (n'.role == Candidate && n'.term != n.term ==> counted == 0 && n'.receiveVotes == 1)
    && (Elected(n, n') ==>
          && n.role == Candidate && n'.term == n.term && n'.log == n.log
          && n'.winVoteBaseline == n.winVoteBaseline
          && n.receiveVotes + counted >= n.winVoteBaseline)
  }

  lemma {:induction false} SendAppendsVotes(n: Node, ids: seq<int>)
    ensures var r := SendAppends(n, ids);
            && (r.node.role == n.role || r.node.role == Follower) && r.node.term == n.term
            && (r.node.votedFor == n.votedFor || r.node.votedFor == -1)
            && (forall j :: 0 <= j < |r.out| ==> r.out[j].msg.AppendEntry?)
  {
    if ids != [] { SendAppendsVotes(n, ids[..|ids| - 1]); }
  }

  lemma TickVotes(n: Node, i: Input)
    requires i.Cron?
    ensures VoteStep(n, i, Step(n, i)) && CountStep(n, i, Step(n, i).node)
  {
    SendAppendsVotes(n, NeedAppend(n.table, n.table.ids));
    var c := ToCandidate(n).node;
    NoAppends(NeedAppend(c.table, c.table.ids), VoteRequest(c));
  }

  lemma RequestVoteVotes(n: Node, i: Input)
    requires i.Receive? && i.msg.RequestVote?
    ensures VoteStep(n, i, Step(n, i)) && CountStep(n, i, Step(n, i).node)
  {
  }

  lemma VoteReplyVotes(n: Node, i: Input)
    requires i.Receive? && i.msg.VoteReply?
    ensures VoteStep(n, i, Step(n, i)) && CountStep(n, i, Step(n, i).node)
  {
  }

  lemma AppendVotes(n: Node, i: Input)
    requires i.Receive? && i.msg.AppendEntry?
    ensures VoteStep(n, i, Step(n, i)) && CountStep(n, i, Step(n, i).node)
  {
  }

  lemma AppendReplyVotes(n: Node, i: Input)
    requires i.Receive? && i.msg.AppendReply?
    ensures VoteStep(n, i, Step(n, i)) && CountStep(n, i, Step(n, i).node)
  {
  }

  lemma StepVotes(n: Node, i: Input)
    ensures VoteStep(n, i, Step(n, i)) && CountStep(n, i, Step(n, i).node)
  {
    match i
    case Receive(src, m) =>
      if m.RequestVote? { RequestVoteVotes(n, i); }
      else if m.VoteReply? { VoteReplyVotes(n, i); }
      else if m.AppendEntry? { AppendVotes(n, i); }
      else { AppendReplyVotes(n, i); }
    case Cron(childrenReady, timedOut) => TickVotes(n, i);
    case Request(content) =>
    case Add(s) =>
    case Confirm(s) =>
    case Delete(s) =>
  }

  // ---------------------------------------------------------------- ballots

  /** Between two votes of one term the node forgot the first. */
  ghost predicate Spaced(h: seq<Ballot>) {
    forall a, b :: 0 <= a < b < |h| && h[a].Voted? && h[b].Voted? && h[a].term == h[b].term ==>
      ClearedBetween(h, a, b, h[a].term)
  }

  ghost predicate ClearedBetween(h: seq<Ballot>, a: int, b: int, term: int) {
    exists k :: 0 <= a < k < b <= |h| && h[k] == Cleared(term)
  }

  /** The ballots of a node fit its term and votedFor. */
  ghost predicate Balloted(n: Node, h: seq<Ballot>) {
    && Spaced(h)
    && n.id != -1
    && (n.role == Candidate ==> n.votedFor == n.id)
    && (forall a :: 0 <= a < |h| ==> h[a].term <= n.term)
    && (n.votedFor == -1 ==>
          forall a :: 0 <= a < |h| && h[a].Voted? && h[a].term == n.term ==> ClearedBetween(h, a, |h|, n.term))
  }

  lemma ClearedStays(h: seq<Ballot>, e: Ballot, a: int, b: int, term: int)
    requires ClearedBetween(h, a, b, term)
    ensures ClearedBetween(h + [e], a, b, term) && ClearedBetween(h + [e], a, b + 1, term)
  {
    var k :| 0 <= a < k < b <= |h| && h[k] == Cleared(term);
    assert (h + [e])[k] == Cleared(term);
  }

  lemma StepBalloted(n: Node, i: Input, r: Res, h: seq<Ballot>, first: int)
    requires Balloted(n, h) && VoteStep(n, i, r) && SameBut(n, r.node)
    ensures Balloted(r.node, h + BallotsOf(n, r.node, first))
  {
    var n' := r.node;
    var more := BallotsOf(n, n', first);
    var h' := h + more;
    if more == [] {
      assert h' == h;
    } else {
      var e := more[0];
      forall a, b | 0 <= a < b < |h'| && h'[a].Voted? && h'[b].Voted? && h'[a].term == h'[b].term
        ensures ClearedBetween(h', a, b, h'[a].term)
      {
        assert ClearedBetween(h, a, b, h[a].term);
        ClearedStays(h, e, a, b, h[a].term);
      }
      if n'.votedFor == -1 {
        forall a | 0 <= a < |h'| && h'[a].Voted? && h'[a].term == n'.term
          ensures ClearedBetween(h', a, |h'|, n'.term)
        {
          assert h'[|h|] == Cleared(n'.term);
        }
      }
    }
  }

  // ---------------------------------------------------------------- the world's votes

  ghost predicate Granted(p: Packet) {
    p.msg.VoteReply? && p.msg.granted
  }

  ghost predicate HasBallot(w: World, x: int, b: Ballot) {
    x in w.ballots && exists a :: 0 <= a < |w.ballots[x]| && w.ballots[x][a] == b
  }

  ghost predicate BallotsKept(w: World)
    requires WellFormed(w)
  {
    forall x :: x in w.nodes ==> Balloted(w.nodes[x], w.ballots[x])
  }

  /** A request names its sender, and describes its log for as long as that candidacy lasts. */
  ghost predicate RequestHonest(w: World, p: Packet)
    requires p.msg.RequestVote?
  {
    var m := p.msg;
    && p.src in w.nodes && m.candidateId == p.src
    && m.term <= w.nodes[p.src].term
    && (m.term == w.nodes[p.src].term && w.nodes[p.src].role == Candidate ==>
          m.lastIndex == Last(w.nodes[p.src].log).index && m.lastTerm == Last(w.nodes[p.src].log).term)
    && (Reign(p.src, m.term) in w.wins ==>
          m.lastIndex == Last(w.wins[Reign(p.src, m.term)].log).index
          && m.lastTerm == Last(w.wins[Reign(p.src, m.term)].log).term)
  }

  ghost predicate RequestsHonest(w: World) {
    forall k :: 0 <= k < |w.net| && w.net[k].msg.RequestVote? ==> RequestHonest(w, w.net[k])
  }

  /** A grant stands on the voter's ballots, and answers a request whose log was no shorter and no older. */
  ghost predicate GrantHonest(w: World, k: int)
    requires 0 <= k < |w.net|
  {
    var p := w.net[k];
    && HasBallot(w, p.src, Voted(p.msg.term, p.dst, k))
    && 0 <= p.answers < |w.net|
    && var q := w.net[p.answers];
       && q.msg.RequestVote? && q.src == p.dst && q.msg.term == p.msg.term
       && Last(p.senderLog).index <= q.msg.lastIndex && Last(p.senderLog).term <= q.msg.lastTerm
  }

  ghost predicate GrantsHonest(w: World) {
    forall k :: 0 <= k < |w.net| && Granted(w.net[k]) ==> GrantHonest(w, k)
  }

  /** The votes are grants to c from its term or an older one. */
  ghost predicate CountedFor(w: World, c: int, term: int, votes: seq<int>) {
    forall a :: 0 <= a < |votes| ==>
      0 <= votes[a] < |w.net| && Granted(w.net[votes[a]]) && w.net[votes[a]].dst == c
        && w.net[votes[a]].msg.term <= term
  }

  ghost predicate CandidatesCount(w: World)
    requires WellFormed(w)
  {
    forall x :: x in w.nodes && w.nodes[x].role == Candidate ==>
      && HasBallot(w, x, Voted(w.nodes[x].term, x, -1))
      && CountedFor(w, x, w.nodes[x].term, w.tally[x])
      && w.nodes[x].receiveVotes == 1 + |w.tally[x]|
  }

  ghost predicate WinFair(w: World, r: Reign)
    requires r in w.wins
  {
    && r.node in w.nodes
    && HasBallot(w, r.node, Voted(r.term, r.node, -1))
    && CountedFor(w, r.node, r.term, w.wins[r].votes)
    && 1 + |w.wins[r].votes| >= w.nodes[r.node].winVoteBaseline
  }

  ghost predicate WinsFair(w: World) {
    w.wins.Keys == w.reigns.Keys && forall r :: r in w.wins ==> WinFair(w, r)
  }

  ghost predicate DeliveredKnown(w: World) {
    forall a :: 0 <= a < |w.delivered| ==> 0 <= w.delivered[a] < |w.net|
  }

  ghost predicate ElectionKept(w: World) {
    WellFormed(w) && DeliveredKnown(w) && BallotsKept(w) && RequestsHonest(w) && GrantsHonest(w)
      && CandidatesCount(w) && WinsFair(w)
  }

  /** What the election proofs use of the record of one step. */
  ghost predicate VoteRecord(w: World, w': World, x: int, i: Input, packet: int, r: Res) {
    && WellFormed(w) && x in w.nodes
    && w'.nodes == w.nodes[x := r.node]
    && w'.net == w.net + Packets(x, r.out, packet, r.node.log)
    && w'.ballots == w.ballots[x := w.ballots[x] + BallotsOf(w.nodes[x], r.node, |w.net|)]
    && w'.tally == w.tally[x := TallyOf(w.nodes[x], i, r.node, w.tally[x], packet)]
    && w'.wins == (if Elected(w.nodes[x], r.node)
                   then w.wins[Reign(x, r.node.term) := Win(r.node.log, w'.tally[x])] else w.wins)
    && w'.delivered == (if packet == -1 then w.delivered else w.delivered + [packet])
    && (packet != -1 ==>
          0 <= packet < |w.net| && i == Receive(w.net[packet].src, w.net[packet].msg) && w.net[packet].dst == x)
    && (i.Receive? ==> packet != -1)
    && VoteStep(w.nodes[x], i, r) && CountStep(w.nodes[x], i, r.node) && RoleStep(w.nodes[x], r.node)
    && SameBut(w.nodes[x], r.node) && w.nodes[x].id == x
  }

  lemma BallotStays(w: World, w': World, x: int, i: Input, packet: int, r: Res, y: int, b: Ballot)
    requires VoteRecord(w, w', x, i, packet, r) && HasBallot(w, y, b)
    ensures HasBallot(w', y, b)
  {
    var a :| 0 <= a < |w.ballots[y]| && w.ballots[y][a] == b;
    assert w'.ballots[y][a] == b;
  }

  lemma NewBallot(w: World, w': World, x: int, i: Input, packet: int, r: Res)
    requires VoteRecord(w, w', x, i, packet, r) && BallotsKept(w)
    ensures Stands(w.nodes[x], r) ==> HasBallot(w', x, Voted(r.node.term, x, -1))
    ensures Grants(w.nodes[x], i, r) && i.msg.candidateId != -1
            ==> HasBallot(w', x, Voted(r.node.term, i.msg.candidateId, |w.net|))
  {
    assert Balloted(w.nodes[x], w.ballots[x]);
    var more := BallotsOf(w.nodes[x], r.node, |w.net|);
    if more != [] { assert w'.ballots[x][|w.ballots[x]|] == more[0]; }
  }

  lemma RecordBallots(w: World, w': World, x: int, i: Input, packet: int, r: Res)
    requires VoteRecord(w, w', x, i, packet, r) && BallotsKept(w)
    ensures BallotsKept(w')
  {
    StepBalloted(w.nodes[x], i, r, w.ballots[x], |w.net|);
  }

  lemma RecordRequests(w: World, w': World, x: int, i: Input, packet: int, r: Res)
    requires VoteRecord(w, w', x, i, packet, r) && RequestsHonest(w) && WinsFair(w) && ReignsPast(w)
    ensures RequestsHonest(w')
  {
    forall k | 0 <= k < |w'.net| && w'.net[k].msg.RequestVote?
      ensures RequestHonest(w', w'.net[k])
    {
      if k < |w.net| {
        assert w'.net[k] == w.net[k] && RequestHonest(w, w.net[k]);
      } else {
        assert w'.net[k].msg == r.out[k - |w.net|].msg == VoteRequest(r.node);
        var q := Reign(x, r.node.term);
        assert q in w.reigns ==> ReignPast(w, q);
      }
    }
  }

  lemma NewGrant(w: World, w': World, x: int, i: Input, packet: int, r: Res, k: int)
    requires VoteRecord(w, w', x, i, packet, r) && RequestsHonest(w) && BallotsKept(w)
    requires forall y :: y in w.nodes ==> w.nodes[y].id == y
    requires |w.net| <= k < |w'.net| && Granted(w'.net[k])
    ensures GrantHonest(w', k)
  {
    var q := w.net[packet];
    assert w'.net[k].msg == r.out[k - |w.net|].msg;
    assert Grants(w.nodes[x], i, r) && k == |w.net|;
    assert RequestHonest(w, q) && w'.net[packet] == q;
    assert Balloted(w.nodes[q.src], w.ballots[q.src]);
    NewBallot(w, w', x, i, packet, r);
    assert w'.net[k].dst == q.src;
  }

  lemma RecordGrants(w: World, w': World, x: int, i: Input, packet: int, r: Res)
    requires VoteRecord(w, w', x, i, packet, r) && RequestsHonest(w) && GrantsHonest(w) && BallotsKept(w)
    requires forall y :: y in w.nodes ==> w.nodes[y].id == y
    ensures GrantsHonest(w')
  {
    forall k | 0 <= k < |w'.net| && Granted(w'.net[k])
      ensures GrantHonest(w', k)
    {
      if k < |w.net| {
        var p := w.net[k];
        assert w'.net[k] == p && GrantHonest(w, k);
        BallotStays(w, w', x, i, packet, r, p.src, Voted(p.msg.term, p.dst, k));
        assert w'.net[p.answers] == w.net[p.answers];
      } else {
        NewGrant(w, w', x, i, packet, r, k);
      }
    }
  }

  lemma CountedStays(w: World, w': World, c: int, term: int, votes: seq<int>)
    requires w.net <= w'.net && CountedFor(w, c, term, votes)
    ensures CountedFor(w', c, term, votes)
  {
    forall a | 0 <= a < |votes|
      ensures 0 <= votes[a] < |w'.net| && w'.net[votes[a]] == w.net[votes[a]]
    {
    }
  }

  /** The votes counted in the current candidacy, with the one that the step may add. */
  lemma TallyCounted(w: World, w': World, x: int, i: Input, packet: int, r: Res)
    requires VoteRecord(w, w', x, i, packet, r) && CandidatesCount(w)
    requires w.nodes[x].role == Candidate && r.node.term == w.nodes[x].term
    ensures CountedFor(w', x, r.node.term, w'.tally[x])
    ensures |w'.tally[x]| == |w.tally[x]| + (if CountsVote(w.nodes[x], i) then 1 else 0)
  {
    CountedStays(w, w', x, r.node.term, w.tally[x]);
    if packet != -1 { assert w'.net[packet] == w.net[packet]; }
  }

  lemma RecordCandidates(w: World, w': World, x: int, i: Input, packet: int, r: Res)
    requires VoteRecord(w, w', x, i, packet, r) && CandidatesCount(w) && BallotsKept(w)
    ensures WellFormed(w') && CandidatesCount(w')
  {
    forall y | y in w'.nodes && w'.nodes[y].role == Candidate
      ensures HasBallot(w', y, Voted(w'.nodes[y].term, y, -1))
      ensures CountedFor(w', y, w'.nodes[y].term, w'.tally[y])
      ensures w'.nodes[y].receiveVotes == 1 + |w'.tally[y]|
    {
      if y == x && r.node.term != w.nodes[x].term {
        NewBallot(w, w', x, i, packet, r);
      } else {
        BallotStays(w, w', x, i, packet, r, y, Voted(w.nodes[y].term, y, -1));
        if y == x {
          TallyCounted(w, w', x, i, packet, r);
        } else {
          CountedStays(w, w', y, w.nodes[y].term, w.tally[y]);
        }
      }
    }
  }

  lemma NewWin(w: World, w': World, x: int, i: Input, packet: int, r: Res)
    requires VoteRecord(w, w', x, i, packet, r) && CandidatesCount(w) && WinsFair(w) && LeadersRecorded(w)
    requires Elected(w.nodes[x], r.node)
    ensures WinFair(w', Reign(x, r.node.term))
  {
    BallotStays(w, w', x, i, packet, r, x, Voted(r.node.term, x, -1));
    TallyCounted(w, w', x, i, packet, r);
  }

  lemma OldWin(w: World, w': World, x: int, i: Input, packet: int, r: Res, q: Reign)
    requires VoteRecord(w, w', x, i, packet, r) && q in w.wins && w'.wins[q] == w.wins[q]
    requires q in w'.wins && q in w'.reigns && WinFair(w, q)
    ensures WinFair(w', q)
  {
    BallotStays(w, w', x, i, packet, r, q.node, Voted(q.term, q.node, -1));
    CountedStays(w, w', q.node, q.term, w.wins[q].votes);
  }

  lemma RecordWins(w: World, w': World, x: int, i: Input, packet: int, r: Res)
    requires VoteRecord(w, w', x, i, packet, r) && CandidatesCount(w) && WinsFair(w) && LeadersRecorded(w)
    requires w'.reigns.Keys == w.reigns.Keys + (if r.node.role == Leader then {Reign(x, r.node.term)} else {})
    ensures WinsFair(w')
  {
    forall q | q in w'.wins ensures WinFair(w', q) {
      if q == Reign(x, r.node.term) && Elected(w.nodes[x], r.node) {
        NewWin(w, w', x, i, packet, r);
      } else {
        assert WinFair(w, q);
        OldWin(w, w', x, i, packet, r, q);
      }
    }
  }

  lemma EventVotes(w: World, e: Event)
    requires Chronicled(w) && Enabled(w, e)
    ensures var x := Actor(w, e);
            var w' := Apply(w, e);
            VoteRecord(w, w', x, InputOf(w, e), PacketOf(e), Step(w.nodes[x], InputOf(w, e)))
            && w'.reigns.Keys
               == w.reigns.Keys + (if w'.nodes[x].role == Leader then {Reign(x, w'.nodes[x].term)} else {})
  {
    EventFits(w, e);
    StepVotes(w.nodes[Actor(w, e)], InputOf(w, e));
    RecordOfVotes(w, Actor(w, e), InputOf(w, e), PacketOf(e), Step(w.nodes[Actor(w, e)], InputOf(w, e)));
  }

  lemma RecordOfVotes(w: World, x: int, i: Input, packet: int, r: Res)
    requires WellFormed(w) && Fits(w, x, i, packet, r) && VoteStep(w.nodes[x], i, r) && CountStep(w.nodes[x], i, r.node)
    requires w.nodes[x].id == x
    ensures var w' := Record(w, x, i, packet, r);
            && VoteRecord(w, w', x, i, packet, r)
            && w'.reigns.Keys == w.reigns.Keys + (if r.node.role == Leader then {Reign(x, r.node.term)} else {})
  {
  }

  lemma RecordKnown(w: World, w': World, x: int, i: Input, packet: int, r: Res)
    requires VoteRecord(w, w', x, i, packet, r) && WellFormed(w) && DeliveredKnown(w)
    ensures WellFormed(w') && DeliveredKnown(w')
  {
  }

  lemma ElectionStays(w: World, w': World, x: int, i: Input, packet: int, r: Res)
    requires VoteRecord(w, w', x, i, packet, r) && ElectionKept(w) && Chronicled(w)
    requires w'.reigns.Keys == w.reigns.Keys + (if r.node.role == Leader then {Reign(x, r.node.term)} else {})
    ensures ElectionKept(w')
  {
    RecordKnown(w, w', x, i, packet, r);
    RecordBallots(w, w', x, i, packet, r);
    RecordRequests(w, w', x, i, packet, r);
    RecordGrants(w, w', x, i, packet, r);
    RecordCandidates(w, w', x, i, packet, r);
    RecordWins(w, w', x, i, packet, r);
  }

  lemma ActElection(w: World, e: Event)
    requires Chronicled(w) && ElectionKept(w) && Enabled(w, e)
    ensures ElectionKept(Apply(w, e))
  {
    var x := Actor(w, e);
    EventVotes(w, e);
    ElectionStays(w, Apply(w, e), x, InputOf(w, e), PacketOf(e), Step(w.nodes[x], InputOf(w, e)));
  }

  lemma InitElection(c: Config)
    requires 1 <= c.idMin
    ensures ElectionKept(Init(c))
  {
  }

  lemma {:induction false} RunElection(c: Config, es: seq<Event>)
    requires 1 <= c.idMin
    ensures ElectionKept(Run(c, es))
  {
    if es == [] {
      InitElection(c);
    } else {
      RunChronicled(c, es[..|es| - 1]);
      RunElection(c, es[..|es| - 1]);
      if Enabled(Run(c, es[..|es| - 1]), es[|es| - 1]) { ActElection(Run(c, es[..|es| - 1]), es[|es| - 1]); }
    }
  }

  // ---------------------------------------------------------------- each reply delivered at most once

  /** No vote reply has been delivered twice. */
  ghost predicate VoteRepliesOnce(w: World) {
    forall a, b :: 0 <= a < b < |w.delivered| && w.delivered[a] == w.delivered[b] ==>
      !(0 <= w.delivered[a] < |w.net| && w.net[w.delivered[a]].msg.VoteReply?)
  }

  ghost predicate TallyFresh(delivered: seq<int>, tally: seq<int>) {
    Distinct(tally) && forall a :: 0 <= a < |tally| ==> tally[a] in delivered
  }

  ghost predicate VotesFresh(w: World)
    requires WellFormed(w)
  {
    && (forall x :: x in w.nodes && w.nodes[x].role == Candidate ==> TallyFresh(w.delivered, w.tally[x]))
    && (forall r :: r in w.wins ==> Distinct(w.wins[r].votes))
  }

  lemma OnceBefore(w: World, w': World)
    requires w.net <= w'.net && w.delivered <= w'.delivered && VoteRepliesOnce(w')
    requires DeliveredKnown(w)
    ensures VoteRepliesOnce(w)
  {
    forall a, b | 0 <= a < b < |w.delivered| && w.delivered[a] == w.delivered[b]
      ensures !(0 <= w.delivered[a] < |w.net| && w.net[w.delivered[a]].msg.VoteReply?)
    {
      assert w'.delivered[a] == w'.delivered[b];
    }
  }

  lemma TallyStaysFresh(w: World, w': World, x: int, i: Input, packet: int, r: Res)
    requires VoteRecord(w, w', x, i, packet, r) && VotesFresh(w) && DeliveredKnown(w) && VoteRepliesOnce(w')
    requires w.nodes[x].role == Candidate && r.node.term == w.nodes[x].term
    ensures TallyFresh(w'.delivered, w'.tally[x])
  {
    if CountsVote(w.nodes[x], i) {
      var n := |w.delivered|;
      assert forall a :: 0 <= a < n ==> w'.delivered[a] == w.delivered[a];
      assert w'.delivered[n] == packet && w'.net[packet] == w.net[packet];
      assert packet !in w.tally[x];
    }
  }

  lemma RecordFresh(w: World, w': World, x: int, i: Input, packet: int, r: Res)
    requires VoteRecord(w, w', x, i, packet, r) && VotesFresh(w) && DeliveredKnown(w) && VoteRepliesOnce(w')
      && WellFormed(w')
    ensures VotesFresh(w')
  {
    if w.nodes[x].role == Candidate && r.node.term == w.nodes[x].term { TallyStaysFresh(w, w', x, i, packet, r); }
    forall y | y in w'.nodes && w'.nodes[y].role == Candidate
      ensures TallyFresh(w'.delivered, w'.tally[y])
    {
      if y != x { assert TallyFresh(w.delivered, w.tally[y]); }
    }
  }

  lemma ActFresh(w: World, e: Event)
    requires Chronicled(w) && ElectionKept(w) && Enabled(w, e) && VoteRepliesOnce(Apply(w, e))
    ensures VoteRepliesOnce(w)
    ensures VotesFresh(w) ==> VotesFresh(Apply(w, e))
  {
    var w' := Apply(w, e);
    var x := Actor(w, e);
    EventVotes(w, e);
    OnceBefore(w, w');
    if VotesFresh(w) { RecordFresh(w, w', x, InputOf(w, e), PacketOf(e), Step(w.nodes[x], InputOf(w, e))); }
  }

  lemma {:induction false} RunFresh(c: Config, es: seq<Event>)
    requires 1 <= c.idMin && VoteRepliesOnce(Run(c, es))
    ensures VotesFresh(Run(c, es))
  {
    if es != [] {
      var w := Run(c, es[..|es| - 1]);
      RunChronicled(c, es[..|es| - 1]);
      RunElection(c, es[..|es| - 1]);
      if Enabled(w, es[|es| - 1]) { ActFresh(w, es[|es| - 1]); }
      RunFresh(c, es[..|es| - 1]);
    }
  }

  // ---------------------------------------------------------------- Election Safety with attribution

  /** The node cast two votes in the term and forgot the first one in between. */
  ghost predicate VotedTwice(h: seq<Ballot>, term: int) {
    exists a, b :: 0 <= a < b < |h| && h[a].Voted? && h[b].Voted? && h[a].term == term && h[b].term == term
                   && ClearedBetween(h, a, b, term)
  }

  ghost predicate SomeoneVotedTwice(w: World, term: int) {
    exists v :: v in w.ballots && VotedTwice(w.ballots[v], term)
  }

  /** One of the votes that won the reign was granted in an older term. */
  ghost predicate WonWithStaleVote(w: World, r: Reign) {
    r in w.wins && exists a :: 0 <= a < |w.wins[r].votes| && 0 <= w.wins[r].votes[a] < |w.net|
                               && w.net[w.wins[r].votes[a]].msg.term < r.term
  }

  lemma TwoBallots(w: World, v: int, b1: Ballot, b2: Ballot, term: int)
    requires ElectionKept(w) && v in w.nodes && HasBallot(w, v, b1) && HasBallot(w, v, b2)
    requires b1.Voted? && b2.Voted? && b1 != b2 && b1.term == b2.term == term
    ensures VotedTwice(w.ballots[v], term)
  {
    var h := w.ballots[v];
    assert Balloted(w.nodes[v], h);
    SpacedVotes(h, b1, b2, term);
  }

  lemma SpacedVotes(h: seq<Ballot>, b1: Ballot, b2: Ballot, term: int)
    requires Spaced(h) && b1 in h && b2 in h
    requires b1.Voted? && b2.Voted? && b1 != b2 && b1.term == b2.term == term
    ensures VotedTwice(h, term)
  {
    var i :| 0 <= i < |h| && h[i] == b1;
    var j :| 0 <= j < |h| && h[j] == b2;
    if i < j { assert ClearedBetween(h, i, j, term); } else { assert ClearedBetween(h, j, i, term); }
  }

  /** The voters behind a list of grants. */
  ghost function Voters(w: World, votes: seq<int>): (s: set<int>)
    requires forall a :: 0 <= a < |votes| ==> 0 <= votes[a] < |w.net|
    ensures forall v :: v in s <==> exists a :: 0 <= a < |votes| && w.net[votes[a]].src == v
  {
    if votes == [] then {}
    else Voters(w, votes[..|votes| - 1]) + {w.net[votes[|votes| - 1]].src}
  }

  lemma {:induction false} VotersCount(w: World, votes: seq<int>)
    requires forall a :: 0 <= a < |votes| ==> 0 <= votes[a] < |w.net|
    requires forall a, b :: 0 <= a < b < |votes| ==> w.net[votes[a]].src != w.net[votes[b]].src
    ensures |Voters(w, votes)| == |votes|
  {
    if votes != [] {
      VotersCount(w, votes[..|votes| - 1]);
      assert w.net[votes[|votes| - 1]].src !in Voters(w, votes[..|votes| - 1]);
    }
  }

  /** v's ballots hold a vote for the reign's node in the reign's term. */
  ghost predicate VotedFor(w: World, v: int, r: Reign) {
    exists k :: HasBallot(w, v, Voted(r.term, r.node, k))
  }

  lemma VoteOnBallot(w: World, r: Reign, a: int)
    requires ElectionKept(w) && r in w.wins && !WonWithStaleVote(w, r) && 0 <= a < |w.wins[r].votes|
    ensures 0 <= w.wins[r].votes[a] < |w.net|
    ensures HasBallot(w, w.net[w.wins[r].votes[a]].src, Voted(r.term, r.node, w.wins[r].votes[a]))
  {
    assert WinFair(w, r);
    assert GrantHonest(w, w.wins[r].votes[a]);
  }

  /** The voters of a reign differ from each other and from its node. */
  lemma VotersDiffer(w: World, r: Reign, a: int, b: int)
    requires ElectionKept(w) && VotesFresh(w) && r in w.wins && 0 <= a < |w.wins[r].votes|
    requires !SomeoneVotedTwice(w, r.term) && !WonWithStaleVote(w, r)
    ensures 0 <= w.wins[r].votes[a] < |w.net| && w.net[w.wins[r].votes[a]].src != r.node
    ensures a < b < |w.wins[r].votes| ==>
              0 <= w.wins[r].votes[b] < |w.net| && w.net[w.wins[r].votes[a]].src != w.net[w.wins[r].votes[b]].src
  {
    var votes := w.wins[r].votes;
    assert WinFair(w, r);
    VoteOnBallot(w, r, a);
    var v := w.net[votes[a]].src;
    if v == r.node {
      TwoBallots(w, v, Voted(r.term, r.node, votes[a]), Voted(r.term, r.node, -1), r.term);
    }
    if a < b < |votes| {
      VoteOnBallot(w, r, b);
      if v == w.net[votes[b]].src {
        TwoBallots(w, v, Voted(r.term, r.node, votes[a]), Voted(r.term, r.node, votes[b]), r.term);
      }
    }
  }

  lemma VotersMany(w: World, r: Reign)
    requires ElectionKept(w) && VotesFresh(w) && r in w.wins
    requires !SomeoneVotedTwice(w, r.term) && !WonWithStaleVote(w, r)
    ensures var votes := w.wins[r].votes;
            && (forall a :: 0 <= a < |votes| ==> 0 <= votes[a] < |w.net|)
            && r.node !in Voters(w, votes)
            && |Voters(w, votes)| == |votes|
  {
    var votes := w.wins[r].votes;
    forall a | 0 <= a < |votes|
      ensures 0 <= votes[a] < |w.net| && w.net[votes[a]].src != r.node
    {
      VotersDiffer(w, r, a, a);
    }
    forall a, b | 0 <= a < b < |votes|
      ensures w.net[votes[a]].src != w.net[votes[b]].src
    {
      VotersDiffer(w, r, a, b);
    }
    VotersCount(w, votes);
  }

  lemma VoterVoted(w: World, c: Config, r: Reign, v: int)
    requires ElectionKept(w) && Configured(w, c) && r in w.wins && !WonWithStaleVote(w, r)
    requires forall a :: 0 <= a < |w.wins[r].votes| ==> 0 <= w.wins[r].votes[a] < |w.net|
    requires v == r.node || v in Voters(w, w.wins[r].votes)
    ensures VotedFor(w, v, r) && c.idMin <= v <= c.idMax
  {
    var votes := w.wins[r].votes;
    assert WinFair(w, r);
    if v != r.node {
      var a :| 0 <= a < |votes| && w.net[votes[a]].src == v;
      VoteOnBallot(w, r, a);
    }
  }

  lemma BaselineMet(w: World, c: Config, r: Reign)
    requires ElectionKept(w) && Configured(w, c) && r in w.wins
    ensures 1 + |w.wins[r].votes| >= (c.idMax - c.idMin + 1) / 2 + 1
  {
    assert WinFair(w, r);
  }

  ghost predicate Elects(w: World, c: Config, r: Reign, s: set<int>) {
    && s <= IdRange(c.idMin, c.idMax)
    && |s| >= (c.idMax - c.idMin + 1) / 2 + 1
    && forall v :: v in s ==> VotedFor(w, v, r)
  }

  lemma ElectsWith(w: World, c: Config, r: Reign, others: set<int>)
    requires r.node !in others && 1 + |others| >= (c.idMax - c.idMin + 1) / 2 + 1
    requires forall v :: v in others || v == r.node ==> VotedFor(w, v, r) && c.idMin <= v <= c.idMax
    ensures Elects(w, c, r, others + {r.node})
  {
    assert |others + {r.node}| == |others| + 1;
  }

  /** A fairly won reign in a term without double votes has a majority of voters. */
  lemma Electorate(w: World, c: Config, r: Reign) returns (s: set<int>)
    requires ElectionKept(w) && VotesFresh(w) && Configured(w, c) && r in w.wins
    requires !SomeoneVotedTwice(w, r.term) && !WonWithStaleVote(w, r)
    ensures Elects(w, c, r, s)
  {
    VotersMany(w, r);
    BaselineMet(w, c, r);
    var others := Voters(w, w.wins[r].votes);
    forall v | v in others || v == r.node
      ensures VotedFor(w, v, r) && c.idMin <= v <= c.idMax
    {
      VoterVoted(w, c, r, v);
    }
    ElectsWith(w, c, r, others);
    s := others + {r.node};
  }

  lemma ReachableElection(w: World) returns (c: Config)
    requires Reachable(w) && VoteRepliesOnce(w)
    ensures Chronicled(w) && ElectionKept(w) && VotesFresh(w) && Configured(w, c) && c.idMin <= c.idMax + 1
  {
    var d: Config, es :| 1 <= d.idMin && w == Run(d, es);
    RunChronicled(d, es);
    RunElection(d, es);
    RunFresh(d, es);
    RunConfigured(d, es);
    c := if d.idMin <= d.idMax + 1 then d else Config(d.idMin, d.idMin - 1);
  }

  /**
   * If two nodes lead the same term, some node voted twice in it, forgetting the first vote in
   * between, or one of the two counted a grant from an older term.
   */
  lemma ElectionSafety(w: World, q: Reign, r: Reign)
    requires Reachable(w) && VoteRepliesOnce(w)
    requires q in w.reigns && r in w.reigns && q.term == r.term && q.node != r.node
    ensures SomeoneVotedTwice(w, q.term) || WonWithStaleVote(w, q) || WonWithStaleVote(w, r)
  {
    var c := ReachableElection(w);
    if !SomeoneVotedTwice(w, q.term) && !WonWithStaleVote(w, q) && !WonWithStaleVote(w, r) {
      var a := Electorate(w, c, q);
      var b := Electorate(w, c, r);
      assert WinFair(w, q);
      QuorumsMeet(c, a, b);
      var v :| v in a && v in b;
      assert VotedFor(w, v, q) && VotedFor(w, v, r);
      var k :| HasBallot(w, v, Voted(q.term, q.node, k));
      var l :| HasBallot(w, v, Voted(r.term, r.node, l));
      TwoBallots(w, v, Voted(q.term, q.node, k), Voted(r.term, r.node, l), q.term);
    }
  }

  /** Without double votes and stale grants there is at most one leader per term. */
  lemma ElectionSafetyHolds(w: World)
    requires Reachable(w) && VoteRepliesOnce(w)
    requires forall r :: r in w.reigns ==> !SomeoneVotedTwice(w, r.term) && !WonWithStaleVote(w, r)
    ensures OneLeaderPerTerm(w)
  {
    forall q, r | q in w.reigns && r in w.reigns && q.term == r.term
      ensures q == r
    {
      if q.node != r.node { ElectionSafety(w, q, r); }
    }
  }

  // ---------------------------------------------------------------- the winner's log

  /** The log a is at least as up to date as b (section 5.4.1 of the Raft paper). */
  predicate UpToDate(a: seq<Entry>, b: seq<Entry>) {
    Last(a).term > Last(b).term || (Last(a).term == Last(b).term && Last(a).index >= Last(b).index)
  }

  /**
   * For every vote counted in the term it was granted, the winner's log at toLead reached at
   * least as far, and ended in at least as high a term, as the voter's log at the grant.
   */
  lemma WinnerDominatesVoter(w: World, r: Reign, a: int)
    requires Reachable(w) && r in w.wins && 0 <= a < |w.wins[r].votes|
    requires 0 <= w.wins[r].votes[a] < |w.net| && w.net[w.wins[r].votes[a]].msg.term == r.term
    ensures var voter := w.net[w.wins[r].votes[a]].senderLog;
            var winner := w.wins[r].log;
            && Last(voter).index <= Last(winner).index
            && Last(voter).term <= Last(winner).term
            && UpToDate(winner, voter)
  {
    var c: Config, es :| 1 <= c.idMin && w == Run(c, es);
    RunElection(c, es);
    var k := w.wins[r].votes[a];
    assert WinFair(w, r);
    assert GrantHonest(w, k);
    assert RequestHonest(w, w.net[w.net[k].answers]);
  }
}
