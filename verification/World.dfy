/**
 * The whole cluster as a run of atomic steps. A packet stays in the network for ever once
 * sent, and any event may deliver any packet at any time: loss, delay, repetition and
 * reordering are all just choices of events. Nodes do not restart.
 *
 * Next to the nodes and the network the world records history that no node can see: which
 * logs were led in which term, who voted for whom, and which request a reply answers.
 */
module World {
  import opened EntryLog
  import opened ClusterNode

  /** A packet; `answers` is the packet that a reply was made for (-1 if none) and
      `senderLog` the log of the sender right after the step that sent it. */
  datatype Packet = Packet(src: int, dst: int, msg: Message, answers: int, senderLog: seq<Entry>)

  /** One node's leadership of one term. */
  datatype Reign = Reign(node: int, term: int)

  /** How a reign was won: the log at toLead and the vote replies that had been counted. */
  datatype Win = Win(log: seq<Entry>, votes: seq<int>)

  /** What happened to votedFor: a vote, with the reply that carried it (-1 for the vote of a
      candidate for itself), or a reset to -1 while the term stayed the same. */
  datatype Ballot = Voted(term: int, candidate: int, packet: int) | Cleared(term: int)

  datatype World = World(
    nodes: map<int, Node>,
    net: seq<Packet>,
    delivered: seq<int>,
    reigns: map<Reign, seq<Entry>>,     // the longest log of each leadership
    wins: map<Reign, Win>,
    ballots: map<int, seq<Ballot>>,
    tally: map<int, seq<int>>,          // vote replies counted in the current candidacy
    waiting: map<(int, int), int>,      // the append a leader is waiting on, per sibling
    acks: map<(int, int), int>,         // the reply that last set a matchIndex
    stray: bool)                        // a leader has taken a reply it was not waiting for

  datatype Config = Config(idMin: int, idMax: int)

  datatype Event = Deliver(packet: int) | Local(node: int, input: Input)

  // ---------------------------------------------------------------- start

  /** The ids from lo up to hi, without the node's own. */
  function SiblingIds(lo: int, hi: int, self: int): seq<int>
    decreases hi - lo
  {
    if hi < lo then []
    else SiblingIds(lo, hi - 1, self) + (if hi == self then [] else [hi])
  }

  function InitTable(c: Config, id: int): Table {
    var ids := SiblingIds(c.idMin, c.idMax, id);
    var no := map s | s in ids :: false;
    var zero := map s | s in ids :: 0;
    Table(ids, -1, no, no, zero, zero, no, map[])
  }

  /** A node after initConfig and init, with an empty log. */
  function InitNode(c: Config, id: int): Node {
    ToFollow(Node(id, Follower, 0, -1, 0, 0, 0, Quotient(c.idMax - c.idMin + 1, 2) + 1, [], InitTable(c, id), false),
             1)
  }

  function InitNodes(c: Config): map<int, Node> {
    map x | c.idMin <= x <= c.idMax :: InitNode(c, x)
  }

  function Blank<T>(nodes: map<int, Node>): map<int, seq<T>> {
    map x | x in nodes :: []
  }

  function Init(c: Config): World {
    var nodes := InitNodes(c);
    World(nodes, [], [], map[], map[], Blank(nodes), Blank(nodes), map[], map[], false)
  }

  // ---------------------------------------------------------------- history of one step

  function Packets(src: int, out: seq<Send>, answers: int, log: seq<Entry>): (ps: seq<Packet>)
    ensures |ps| == |out|
    ensures forall j :: 0 <= j < |out| ==> ps[j] == Packet(src, out[j].dst, out[j].msg, answers, log)
  {
    seq(|out|, j requires 0 <= j < |out| => Packet(src, out[j].dst, out[j].msg, answers, log))
  }

  predicate Elected(n: Node, n': Node) { n'.role == Leader && n.role != Leader }

  function BallotsOf(n: Node, n': Node, firstPacket: int): seq<Ballot> {
    if n'.votedFor != -1 && (n'.term != n.term || n'.votedFor != n.votedFor) then
      [Voted(n'.term, n'.votedFor, if n'.role == Candidate then -1 else firstPacket)]
    else if n'.term == n.term && n.votedFor != -1 && n'.votedFor == -1 then
      [Cleared(n.term)]
    else []
  }

  predicate CountsVote(n: Node, i: Input) {
    i.Receive? && i.msg.VoteReply? && n.role == Candidate && i.msg.term <= n.term && i.msg.granted
  }

  function TallyOf(n: Node, i: Input, n': Node, tally: seq<int>, packet: int): seq<int> {
    if CountsVote(n, i) then tally + [packet]
    else if n'.role == Candidate && n'.term != n.term then []
    else tally
  }

  /** A leader takes an append reply from a sibling of its own or an older term. */
  predicate TakesReply(n: Node, i: Input) {
    && i.Receive? && i.msg.AppendReply? && n.role == Leader && i.msg.term <= n.term && i.src in n.table.ids
  }

  predicate Awaited(x: int, i: Input, waiting: map<(int, int), int>, answers: int) {
    i.Receive? && (x, i.src) in waiting && waiting[(x, i.src)] == answers
  }

  /** Nothing is waited for any more on the connections that the step forgets. */
  function Forget(x: int, n: Node, i: Input, n': Node, waiting: map<(int, int), int>): map<(int, int), int> {
    if Elected(n, n') then map p | p in waiting && p.0 != x :: waiting[p]
    else if TakesReply(n, i) then waiting - {(x, i.src)}
    else if (i.Add? || i.Delete?) && n' != n then waiting - {(x, i.sibling)}
    else waiting
  }

  function Await(x: int, out: seq<Send>, first: int, waiting: map<(int, int), int>): map<(int, int), int> {
    if out == [] then waiting
    else
      var k := |out| - 1;
      var w := Await(x, out[..k], first, waiting);
      if out[k].msg.AppendEntry? then w[(x, out[k].dst) := first + k] else w
  }

  function AcksOf(x: int, n: Node, i: Input, acks: map<(int, int), int>, packet: int): map<(int, int), int> {
    if TakesReply(n, i) && i.msg.success && !Flag(n.table.empty, i.src)
    then acks[(x, i.src) := packet]
    else acks
  }

  // ---------------------------------------------------------------- steps and runs

  /** The world after node x has taken the input with result r. */
  function Record(w: World, x: int, i: Input, packet: int, r: Res): World
    requires x in w.nodes && x in w.ballots && x in w.tally
    requires 0 <= packet < |w.net| || packet == -1
  {
    var n := w.nodes[x];
    var n' := r.node;
    var tally := TallyOf(n, i, n', w.tally[x], packet);
    var answers := if packet == -1 then -1 else w.net[packet].answers;
    World(
      w.nodes[x := n'],
      w.net + Packets(x, r.out, packet, n'.log),
      if packet == -1 then w.delivered else w.delivered + [packet],
      if n'.role == Leader then w.reigns[Reign(x, n'.term) := n'.log] else w.reigns,
      if Elected(n, n') then w.wins[Reign(x, n'.term) := Win(n'.log, tally)] else w.wins,
      w.ballots[x := w.ballots[x] + BallotsOf(n, n', |w.net|)],
      w.tally[x := tally],
      Await(x, r.out, |w.net|, Forget(x, n, i, n', w.waiting)),
      AcksOf(x, n, i, w.acks, packet),
      w.stray || (TakesReply(n, i) && !Awaited(x, i, w.waiting, answers)))
  }

  /** Node x takes the input; `packet` is the packet delivered by it, or -1. */
  function Act(w: World, x: int, i: Input, packet: int): World
    requires x in w.nodes && x in w.ballots && x in w.tally
    requires 0 <= packet < |w.net| || packet == -1
  {
    Record(w, x, i, packet, Step(w.nodes[x], i))
  }

  /**
   * The node that an event concerns and its input, if the event can happen. A confirmation comes
   * on the connection of the sibling that is registered.
   */
  ghost predicate Enabled(w: World, e: Event) {
    match e
    case Deliver(k) => 0 <= k < |w.net| && w.net[k].dst in w.nodes && !w.nodes[w.net[k].dst].halted
    case Local(x, i) =>
      && x in w.nodes && !w.nodes[x].halted && !i.Receive?
      && (i.Confirm? ==> Flag(w.nodes[x].table.registered, i.sibling))
  }

  ghost predicate WellFormed(w: World) {
    w.ballots.Keys == w.nodes.Keys && w.tally.Keys == w.nodes.Keys
  }

  ghost function Actor(w: World, e: Event): int
    requires Enabled(w, e)
  {
    if e.Deliver? then w.net[e.packet].dst else e.node
  }

  ghost function InputOf(w: World, e: Event): Input
    requires Enabled(w, e)
  {
    if e.Deliver? then Receive(w.net[e.packet].src, w.net[e.packet].msg) else e.input
  }

  ghost function PacketOf(e: Event): int { if e.Deliver? then e.packet else -1 }

  /** An event that cannot happen changes nothing. */
  ghost function Apply(w: World, e: Event): (w': World)
    requires WellFormed(w)
    ensures WellFormed(w')
  {
    if Enabled(w, e) then Act(w, Actor(w, e), InputOf(w, e), PacketOf(e)) else w
  }

  ghost function Run(c: Config, es: seq<Event>): (w: World)
    ensures WellFormed(w)
  {
    if es == [] then Init(c) else Apply(Run(c, es[..|es| - 1]), es[|es| - 1])
  }

  /** Some run leads here, of a configuration that recognizeSiblings lets through. */
  ghost predicate Reachable(w: World)
    ensures Reachable(w) ==> WellFormed(w)
  {
    exists c: Config, es :: 1 <= c.idMin && w == Run(c, es)
  }

  lemma ApplyReachable(w: World, e: Event)
    requires Reachable(w)
    ensures Reachable(Apply(w, e))
  {
    var c: Config, es :| 1 <= c.idMin && w == Run(c, es);
    assert (es + [e])[..|es|] == es;
    assert Apply(w, e) == Run(c, es + [e]);
  }
}
