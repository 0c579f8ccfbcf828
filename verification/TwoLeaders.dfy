/** Election Safety without its condition is false: ten events that give term 2 two leaders. */
module TwoLeaders {
  import opened EntryLog
  import opened ClusterNode
  import opened World
  import opened LogMatching
  import opened Election

  const THREE := Config(1, 3)

  /** Of its two siblings exactly s is connected, and is not waited for. */
  ghost predicate Tied(t: Table, s: int) {
    && |t.ids| == 2 && t.ids[0] != t.ids[1] && s in t.ids && Flag(t.connected, s) && !Flag(t.already, s)
    && forall i :: 0 <= i < 2 && t.ids[i] != s ==> !Flag(t.connected, t.ids[i])
  }

  /** A fresh node of the three that has a confirmed connection to s. */
  ghost predicate Linked(n: Node, s: int) {
    && !n.halted && n.term == 1 && n.log == [] && n.votedFor == -1 && n.role == Follower
    && n.winVoteBaseline == 2 && n.commitIndex == 0 && Tied(n.table, s)
  }

  lemma PairOfSiblings(t: Table, a: int, b: int)
    requires t.ids == [a, b]
    ensures CountFlag(t.ids, t.connected)
            == (if Flag(t.connected, a) then 1 else 0) + (if Flag(t.connected, b) then 1 else 0)
    ensures NeedAppend(t, t.ids) == (if Flag(t.connected, a) && !Flag(t.already, a) then [a] else [])
                                    + (if Flag(t.connected, b) && !Flag(t.already, b) then [b] else [])
  {
    assert t.ids[..1] == [a] && [a][..0] == [];
    assert CountFlag([a], t.connected) == CountFlag([], t.connected) + (if Flag(t.connected, a) then 1 else 0);
    assert NeedAppend(t, [a]) == NeedAppend(t, []) + (if Flag(t.connected, a) && !Flag(t.already, a) then [a] else []);
  }

  lemma ThreeIds(x: int)
    requires 1 <= x <= 3
    ensures SiblingIds(1, 3, x) == if x == 1 then [2, 3] else if x == 2 then [1, 3] else [1, 2]
  {
    assert SiblingIds(1, 0, x) == [];
    assert SiblingIds(1, 1, x) == if x == 1 then [] else [1];
    assert SiblingIds(1, 2, x) == if x == 1 then [2] else if x == 2 then [1] else [1, 2];
  }

  lemma Joins(n: Node, s: int)
    requires s in n.table.ids && !Flag(n.table.connected, s) && !Flag(n.table.registered, s)
    ensures var n' := ConfirmSibling(AddSibling(n, s), s);
            && Flag(AddSibling(n, s).table.registered, s)
            && n' == n.(table := n'.table) && n'.table.ids == n.table.ids
            && n'.table.connected == n.table.connected[s := true]
            && n'.table.already == n.table.already[s := false]
  {
    assert n.table.connected[s := false][s := true] == n.table.connected[s := true];
  }

  function WithLink(x: int, s: int): Node {
    ConfirmSibling(AddSibling(InitNode(THREE, x), s), s)
  }

  lemma StartsUnlinked(x: int, s: int)
    requires (x == 1 && s == 3) || (x == 2 && s == 1)
    ensures var n := InitNode(THREE, x);
            && n.table.ids == (if x == 1 then [2, 3] else [1, 3]) && s in n.table.ids
            && !Flag(n.table.connected, s) && !Flag(n.table.registered, s)
            && forall y :: !Flag(n.table.connected, y)
  {
    ThreeIds(x);
    var ids := InitNode(THREE, x).table.ids;
    assert ids[if x == 1 then 1 else 0] == s;
  }

  /** A tied node has a majority, and s is the only sibling to send to. */
  lemma TiedFacts(t: Table, s: int)
    requires Tied(t, s)
    ensures SiblingsBaseline(t) && NeedAppend(t, t.ids) == [s]
  {
    PairOfSiblings(t, t.ids[0], t.ids[1]);
  }

  lemma LinkUp(x: int, s: int)
    requires (x == 1 && s == 3) || (x == 2 && s == 1)
    ensures Linked(WithLink(x, s), s) && WithLink(x, s).id == x
  {
    StartsUnlinked(x, s);
    var n := InitNode(THREE, x);
    Joins(n, s);
    JoinedIsLinked(n, WithLink(x, s), s, if x == 1 then 2 else 1, 3);
  }

  lemma JoinedIsLinked(n: Node, n': Node, s: int, a: int, b: int)
    requires n' == n.(table := n'.table) && n'.table.ids == n.table.ids == [a, b] && a != b && (s == a || s == b)
    requires !n.halted && n.term == 1 && n.log == [] && n.votedFor == -1 && n.role == Follower && n.winVoteBaseline == 2
    requires n.commitIndex == 0
    requires n'.table.connected == n.table.connected[s := true] && n'.table.already == n.table.already[s := false]
    requires forall y :: !Flag(n.table.connected, y)
    ensures Linked(n', s) && n'.id == n.id
  {
    assert !Flag(n.table.connected, if s == a then b else a);
  }

  ghost predicate Standing(n: Node, s: int) {
    && !n.halted && n.role == Candidate && n.term == 2 && n.votedFor == n.id && n.receiveVotes == 1
    && n.winVoteBaseline == 2 && n.log == [] && n.commitIndex == 0 && Tied(n.table, s)
  }

  ghost predicate Free(n: Node) {
    !n.halted && n.log == [] && n.term <= 2 && n.votedFor == -1
  }

  /** A node without a log that can vote in the next term. */
  ghost predicate Voter(n: Node) { !n.halted && n.log == [] && n.term <= 2 }

  /** A leader of term 2 with an empty log. */
  ghost predicate Leading(n: Node, s: int) {
    && !n.halted && n.role == Leader && n.term == 2 && n.log == [] && n.lastEntryIndex == 0
    && n.winVoteBaseline == 2 && n.commitIndex == 0 && Tied(n.table, s) && Number(n.table.next, s) == 1
  }

  lemma StandsUp(n: Node, s: int)
    requires Linked(n, s)
    ensures var r := Step(n, Cron(true, true));
            r.out == [Send(s, RequestVote(2, n.id, 0, 0))] && Standing(r.node, s) && r.node.id == n.id
  {
    TiedFacts(n.table, s);
    var c := n.(role := Candidate, term := 2, votedFor := n.id, receiveVotes := 1);
    assert [s][..0] == [] && ToAll([], VoteRequest(c)) == [];
    assert ToAll([s], VoteRequest(c)) == [Send(s, VoteRequest(c))];
  }

  lemma GrantsVote(n: Node, c: int)
    requires Free(n)
    ensures var r := Step(n, Receive(c, RequestVote(2, c, 0, 0)));
            && r.out == [Send(c, VoteReply(2, true))] && Voter(r.node) && r.node.id == n.id
            && r.node == n.(role := r.node.role, term := 2, votedFor := c)
            && (n.term == 2 ==> r.node.role == n.role)
  {
  }

  lemma Wins(n: Node, s: int, v: int)
    requires Standing(n, s)
    ensures var r := Step(n, Receive(v, VoteReply(2, true)));
            r.out == [] && Leading(r.node, s) && Free(r.node) && r.node.id == n.id
  {
  }

  /** The parts of the world that the run below looks at. */
  ghost predicate Moved(w: World, x: int, r: Res, packet: int, w': World) {
    && x in w.nodes && w'.nodes == w.nodes[x := r.node]
    && w'.net == w.net + Packets(x, r.out, packet, r.node.log)
    && w'.delivered == (if packet == -1 then w.delivered else w.delivered + [packet])
    && (forall q :: q in w.reigns ==> q in w'.reigns)
    && (r.node.role == Leader ==> Reign(x, r.node.term) in w'.reigns)
    && w'.stray == w.stray
  }

  /** A set of worlds that none of these events leads out of; the steps of the run see no more of reachability. */
  type WorldSet = World -> bool

  ghost predicate Closed(reach: WorldSet) {
    && (forall w: World {:trigger reach(w)} :: reach(w) ==> WellFormed(w))
    && (forall w: World, e: Event {:trigger Apply(w, e)} ::
          WellFormed(w) && reach(w) && Unflushed(w, e) ==> reach(Apply(w, e)))
  }

  /** No cron of a node that has something to flush. */
  ghost predicate Unflushed(w: World, e: Event) {
    e.Local? && e.input.Cron? ==> e.node in w.nodes && w.nodes[e.node].commitIndex == 0
  }

  lemma Acts(reach: WorldSet, w: World, x: int, i: Input) returns (w': World)
    requires Closed(reach) && reach(w) && x in w.nodes && !w.nodes[x].halted && !i.Receive?
    requires i.Confirm? ==> Flag(w.nodes[x].table.registered, i.sibling)
    requires i.Cron? ==> w.nodes[x].commitIndex == 0
    ensures reach(w') && Moved(w, x, Step(w.nodes[x], i), -1, w')
  {
    w' := Apply(w, Local(x, i));
  }

  lemma Takes(reach: WorldSet, w: World, k: int, x: int, i: Input) returns (w': World)
    requires Closed(reach) && reach(w) && 0 <= k < |w.net| && x in w.nodes && !w.nodes[x].halted
    requires w.net[k].dst == x && i == Receive(w.net[k].src, w.net[k].msg) && !i.msg.AppendReply?
    ensures reach(w') && Moved(w, x, Step(w.nodes[x], i), k, w')
  {
    w' := Apply(w, Deliver(k));
  }

  /** Only node x has changed; so many packets are new. */
  ghost predicate Only(w: World, x: int, w': World, out: seq<Packet>, took: seq<int>) {
    && x in w'.nodes && w'.nodes == w.nodes[x := w'.nodes[x]]
    && w'.net == w.net + out
    && w'.delivered == w.delivered + took && w'.stray == w.stray
    && forall q :: q in w.reigns ==> q in w'.reigns
  }

  /** Adding and confirming s makes this a linked node. */
  ghost predicate Linkable(n: Node, s: int) {
    && !n.halted && n.role != Leader && Flag(AddSibling(n, s).table.registered, s)
    && Linked(ConfirmSibling(AddSibling(n, s), s), s)
    && ConfirmSibling(AddSibling(n, s), s).id == n.id
  }

  lemma ActsQuietly(reach: WorldSet, w: World, x: int, i: Input, n: Node) returns (w': World)
    requires Closed(reach) && reach(w) && x in w.nodes && !w.nodes[x].halted && !i.Receive?
    requires Step(w.nodes[x], i) == Res(n, [])
    requires i.Confirm? ==> Flag(w.nodes[x].table.registered, i.sibling)
    requires i.Cron? ==> w.nodes[x].commitIndex == 0
    ensures reach(w') && Only(w, x, w', [], []) && w'.nodes[x] == n
  {
    w' := Acts(reach, w, x, i);
  }

  lemma AddIsQuiet(n: Node, s: int)
    ensures Step(n, Add(s)) == Res(AddSibling(n, s), []) && AddSibling(n, s).halted == n.halted
    ensures Step(n, Confirm(s)) == Res(ConfirmSibling(n, s), [])
  {
  }

  lemma Joins2(reach: WorldSet, w: World, x: int, s: int, n1: Node, n2: Node) returns (w': World)
    requires Closed(reach) && reach(w) && x in w.nodes && !w.nodes[x].halted && !n1.halted
    requires Flag(n1.table.registered, s)
    requires Step(w.nodes[x], Add(s)) == Res(n1, []) && Step(n1, Confirm(s)) == Res(n2, [])
    ensures reach(w') && Only(w, x, w', [], []) && w'.nodes[x] == n2
  {
    var w1 := ActsQuietly(reach, w, x, Add(s), n1);
    w' := ActsQuietly(reach, w1, x, Confirm(s), n2);
    QuietTwice(w, x, w1, w');
  }

  lemma QuietTwice(w: World, x: int, w1: World, w2: World)
    requires x in w.nodes && Only(w, x, w1, [], []) && Only(w1, x, w2, [], [])
    ensures Only(w, x, w2, [], [])
  {
    assert w.nodes[x := w1.nodes[x]][x := w2.nodes[x]] == w.nodes[x := w2.nodes[x]];
  }

  lemma Link(reach: WorldSet, w: World, x: int, s: int) returns (w': World)
    requires Closed(reach) && reach(w) && x in w.nodes && Linkable(w.nodes[x], s) && w.nodes[x].id == x
    ensures reach(w') && Only(w, x, w', [], []) && Linked(w'.nodes[x], s) && w'.nodes[x].id == x
  {
    var n1 := AddSibling(w.nodes[x], s);
    AddIsQuiet(w.nodes[x], s);
    AddIsQuiet(n1, s);
    w' := Joins2(reach, w, x, s, n1, ConfirmSibling(n1, s));
  }

  lemma InitLinkable(x: int, s: int)
    requires (x == 1 && s == 3) || (x == 2 && s == 1)
    ensures Linkable(InitNode(THREE, x), s)
  {
    LinkUp(x, s);
    StartsUnlinked(x, s);
    Joins(InitNode(THREE, x), s);
    AddIsQuiet(InitNode(THREE, x), s);
    assert ConfirmSibling(AddSibling(InitNode(THREE, x), s), s) == WithLink(x, s);
  }

  lemma Start(reach: WorldSet) returns (w: World)
    requires Closed(reach) && reach(Init(THREE))
    ensures reach(w) && w == Init(THREE)
  {
    w := Init(THREE);
  }

  ghost predicate Blank3(w: World) {
    && w.net == [] && w.delivered == [] && !w.stray
    && w.nodes.Keys == {1, 2, 3} && w.nodes[1].id == 1 && w.nodes[2].id == 2 && w.nodes[3].id == 3
  }

  ghost predicate Named(w: World)
    requires w.nodes.Keys == {1, 2, 3}
  {
    w.nodes[1].id == 1 && w.nodes[2].id == 2 && w.nodes[3].id == 3
  }

  lemma InitFacts(w: World)
    requires w == Init(THREE)
    ensures Blank3(w) && Free(w.nodes[3]) && w.nodes[1] == InitNode(THREE, 1) && w.nodes[2] == InitNode(THREE, 2)
  {
  }

  lemma InitLinkables(w: World)
    requires w == Init(THREE)
    ensures Blank3(w) && Linkable(w.nodes[1], 3) && Linkable(w.nodes[2], 1) && Free(w.nodes[3])
  {
    InitFacts(w);
    InitLinkable(1, 3);
    InitLinkable(2, 1);
  }

  lemma BothLinkable(reach: WorldSet) returns (w: World)
    requires Closed(reach) && reach(Init(THREE))
    ensures reach(w) && Blank3(w) && Linkable(w.nodes[1], 3) && Linkable(w.nodes[2], 1) && Free(w.nodes[3])
  {
    w := Start(reach);
    InitLinkables(w);
  }

  lemma OneLinked(reach: WorldSet) returns (w: World)
    requires Closed(reach) && reach(Init(THREE))
    ensures reach(w) && Blank3(w) && Linked(w.nodes[1], 3) && Linkable(w.nodes[2], 1) && Free(w.nodes[3])
  {
    var w0 := BothLinkable(reach);
    w := Link(reach, w0, 1, 3);
    assert w.nodes[2] == w0.nodes[2] && w.nodes[3] == w0.nodes[3];
  }

  lemma BothLinked(reach: WorldSet) returns (w: World)
    requires Closed(reach) && reach(Init(THREE))
    ensures reach(w) && Blank3(w) && Linked(w.nodes[1], 3) && Linked(w.nodes[2], 1) && Free(w.nodes[3])
  {
    var w1 := OneLinked(reach);
    w := Link(reach, w1, 2, 1);
    assert w.nodes[1] == w1.nodes[1] && w.nodes[3] == w1.nodes[3];
  }

  /** Two candidates of term 2, whose requests are the only packets. */
  lemma TwoCandidates(reach: WorldSet) returns (w: World)
    requires Closed(reach) && reach(Init(THREE))
    ensures reach(w) && w.delivered == [] && !w.stray && w.nodes.Keys == {1, 2, 3}
    ensures w.net == [Packet(1, 3, RequestVote(2, 1, 0, 0), -1, []), Packet(2, 1, RequestVote(2, 2, 0, 0), -1, [])]
    ensures Standing(w.nodes[1], 3) && Standing(w.nodes[2], 1) && Free(w.nodes[3]) && Named(w)
  {
    var w2 := BothLinked(reach);
    var w3 := Campaign(reach, w2, 1, 3);
    assert w3.nodes[2] == w2.nodes[2] && w3.nodes[3] == w2.nodes[3];
    w := Campaign(reach, w3, 2, 1);
    assert w.nodes[1] == w3.nodes[1] && w.nodes[3] == w2.nodes[3];
  }

  lemma Campaign(reach: WorldSet, w: World, x: int, s: int) returns (w': World)
    requires Closed(reach) && reach(w) && x in w.nodes && Linked(w.nodes[x], s) && w.nodes[x].id == x
    ensures reach(w') && Only(w, x, w', [Packet(x, s, RequestVote(2, x, 0, 0), -1, [])], [])
    ensures Standing(w'.nodes[x], s) && w'.nodes[x].id == x
  {
    StandsUp(w.nodes[x], s);
    w' := Acts(reach, w, x, Cron(true, true));
  }

  lemma Grant(reach: WorldSet, w: World, k: int, c: int, v: int) returns (w': World)
    requires Closed(reach) && reach(w) && v in w.nodes && Free(w.nodes[v])
    requires 0 <= k < |w.net| && w.net[k] == Packet(c, v, RequestVote(2, c, 0, 0), -1, [])
    ensures reach(w') && Only(w, v, w', [Packet(v, c, VoteReply(2, true), k, [])], [k])
    ensures var n, n' := w.nodes[v], w'.nodes[v];
            Voter(n') && n' == n.(role := n'.role, term := 2, votedFor := c) && (n.term == 2 ==> n'.role == n.role)
  {
    GrantsVote(w.nodes[v], c);
    w' := Takes(reach, w, k, v, Receive(c, RequestVote(2, c, 0, 0)));
  }

  lemma Win(reach: WorldSet, w: World, k: int, c: int, s: int, v: int) returns (w': World)
    requires Closed(reach) && reach(w) && c in w.nodes && Standing(w.nodes[c], s)
    requires 0 <= k < |w.net| && w.net[k].src == v && w.net[k].dst == c && w.net[k].msg == VoteReply(2, true)
    ensures reach(w') && Only(w, c, w', [], [k])
    ensures Free(w'.nodes[c]) && Leading(w'.nodes[c], s) && Reign(c, 2) in w'.reigns && w'.nodes[c].id == w.nodes[c].id
  {
    Wins(w.nodes[c], s, v);
    w' := Takes(reach, w, k, c, Receive(v, VoteReply(2, true)));
  }

  lemma OneElected(reach: WorldSet) returns (w: World)
    requires Closed(reach) && reach(Init(THREE))
    ensures reach(w) && w.delivered == [0, 2] && !w.stray && w.nodes.Keys == {1, 2, 3} && |w.net| == 3
    ensures w.net[1] == Packet(2, 1, RequestVote(2, 2, 0, 0), -1, [])
    ensures Free(w.nodes[1]) && Leading(w.nodes[1], 3) && Standing(w.nodes[2], 1) && Reign(1, 2) in w.reigns
    ensures Voter(w.nodes[3]) && Named(w)
  {
    var w4 := TwoCandidates(reach);
    var w5 := Grant(reach, w4, 0, 1, 3);
    assert w5.nodes[1] == w4.nodes[1] && w5.nodes[2] == w4.nodes[2];
    w := Win(reach, w5, 2, 1, 3, 3);
    assert w.nodes[2] == w5.nodes[2] && w.nodes[3] == w5.nodes[3];
  }

  lemma BothElected(reach: WorldSet) returns (w: World)
    requires Closed(reach) && reach(Init(THREE))
    ensures reach(w) && w.delivered == [0, 2, 1, 3] && !w.stray && w.nodes.Keys == {1, 2, 3} && |w.net| == 4
    ensures Reign(1, 2) in w.reigns && Reign(2, 2) in w.reigns
    ensures Leading(w.nodes[1], 3) && Leading(w.nodes[2], 1) && Voter(w.nodes[3]) && Named(w)
  {
    var w6 := OneElected(reach);
    var w7 := Grant(reach, w6, 1, 2, 1);
    assert w7.nodes[2] == w6.nodes[2] && w7.nodes[3] == w6.nodes[3];
    w := Win(reach, w7, 3, 2, 1, 1);
    assert w.nodes[1] == w7.nodes[1] && w.nodes[3] == w7.nodes[3];
  }

  ghost function Reachables(): WorldSet { (w: World) => Reachable(w) }

  lemma ReachablesClosed()
    ensures Closed(Reachables()) && Reachables()(Init(THREE))
  {
    forall w: World | Reachables()(w) ensures WellFormed(w) {}
    forall w: World, e: Event | Reachables()(w) && WellFormed(w) ensures Reachables()(Apply(w, e)) {
      ApplyReachable(w, e);
    }
    assert Init(THREE) == Run(THREE, []);
  }

  /** The run: 1 is elected with 3's vote, forgets its own vote on the way, and grants 2. */
  lemma ElectionSafetyFails() returns (w: World)
    ensures Reachable(w) && VoteRepliesOnce(w)
    ensures Reign(1, 2) in w.reigns && Reign(2, 2) in w.reigns
  {
    ReachablesClosed();
    w := BothElected(Reachables());
  }

  /** A leader takes a client's command. */
  lemma TakesCommand(reach: WorldSet, w: World, x: int, content: string) returns (w': World)
    requires Closed(reach) && reach(w) && x in w.nodes && !w.nodes[x].halted && w.nodes[x].role == Leader
    ensures reach(w') && Only(w, x, w', [], [])
    ensures var n, n' := w.nodes[x], w'.nodes[x];
            && !n'.halted && n'.role == Leader && n'.term == n.term && n'.lastEntryIndex == n.lastEntryIndex + 1
            && n'.log == n.log + [Entry(n.lastEntryIndex + 1, n.term, content)]
  {
    w' := Acts(reach, w, x, Request(content));
  }

  lemma BothTakeCommands(reach: WorldSet, a: string, b: string) returns (w: World)
    requires Closed(reach) && reach(Init(THREE))
    ensures reach(w) && w.delivered == [0, 2, 1, 3] && 1 in w.nodes && 2 in w.nodes
    ensures w.nodes[1].log == [Entry(1, 2, a)] && w.nodes[2].log == [Entry(1, 2, b)]
  {
    var w8 := BothElected(reach);
    var w9 := TakesCommand(reach, w8, 1, a);
    assert w9.nodes[2] == w8.nodes[2];
    w := TakesCommand(reach, w9, 2, b);
    assert w.nodes[1] == w9.nodes[1];
  }

  /**
   * Log Matching without its condition is false: two logs hold different entries with the same
   * index and term once both leaders of the term have taken a command.
   */
  lemma LogMatchingFails(a: string, b: string) returns (w: World)
    requires a != b
    ensures Reachable(w) && VoteRepliesOnce(w) && 1 in w.nodes && 2 in w.nodes
    ensures w.nodes[1].log == [Entry(1, 2, a)] && w.nodes[2].log == [Entry(1, 2, b)]
    ensures w.nodes[1].log[..1] != w.nodes[2].log[..1]
  {
    ReachablesClosed();
    w := BothTakeCommands(Reachables(), a, b);
    assert w.nodes[1].log[..1][0] != w.nodes[2].log[..1][0];
  }
}
