/**
 * One cluster node as a value, and what each of its handlers does to it. The class
 * Cluster in Cluster.dfy runs the handlers in place and is proved to do exactly this.
 */
module ClusterNode {
  import opened EntryLog

  datatype Role = Leader | Follower | Candidate

  datatype Message =
    | RequestVote(term: int, candidateId: int, lastIndex: int, lastTerm: int)
    | VoteReply(term: int, granted: bool)
    | AppendEntry(term: int, leaderId: int, prevIndex: int, prevTerm: int,
                  index: int, entryTerm: int, content: string, leaderCommit: int)
    | AppendReply(term: int, success: bool)

  datatype Send = Send(dst: int, msg: Message)

  /** The per-sibling tables. A missing key reads as the C++ default, 0 or false. */
  datatype Table = Table(
    ids: seq<int>,
    leaderId: int,
    registered: map<int, bool>,
    connected: map<int, bool>,
    next: map<int, int>,
    matched: map<int, int>,
    already: map<int, bool>,
    empty: map<int, bool>)

  function Number(m: map<int, int>, s: int): int { if s in m then m[s] else 0 }

  function Flag(m: map<int, bool>, s: int): bool { if s in m then m[s] else false }

  /** C++ integer division. */
  function Quotient(a: int, b: int): int
    requires b != 0
  {
    if a >= 0 then a / b else -((-a) / b)
  }

  function SetAll<T>(m: map<int, T>, ids: seq<int>, v: T): map<int, T> {
    m + map s | s in ids :: v
  }

  function TotalNumber(t: Table): int { |t.ids| + 1 }

  function HalfNumber(t: Table): int { TotalNumber(t) / 2 + 1 }

  /** How many of the ids are flagged. */
  function CountFlag(ids: seq<int>, m: map<int, bool>): nat {
    if ids == [] then 0
    else CountFlag(ids[..|ids| - 1], m) + (if Flag(m, ids[|ids| - 1]) then 1 else 0)
  }

  /** How many of the ids have reached the index. */
  function CountReached(ids: seq<int>, m: map<int, int>, index: int): nat {
    if ids == [] then 0
    else CountReached(ids[..|ids| - 1], m, index) + (if Number(m, ids[|ids| - 1]) >= index then 1 else 0)
  }

  predicate SiblingsBaseline(t: Table) {
    1 + CountFlag(t.ids, t.connected) >= HalfNumber(t)
  }

  /** The connected siblings that are not waiting for a reply, in configuration order. */
  function NeedAppend(t: Table, ids: seq<int>): seq<int> {
    if ids == [] then []
    else
      var s := ids[|ids| - 1];
      NeedAppend(t, ids[..|ids| - 1])
      + (if Flag(t.connected, s) && !Flag(t.already, s) then [s] else [])
  }

  datatype Node = Node(
    id: int,
    role: Role,
    term: int,
    votedFor: int,
    commitIndex: int,
    lastEntryIndex: int,
    receiveVotes: int,
    winVoteBaseline: int,
    log: seq<Entry>,
    table: Table,
    halted: bool)  // the process has left through exit(1)

  /** The new node and the messages put into send buffers, in order. */
  datatype Res = Res(node: Node, out: seq<Send>)

  // ---------------------------------------------------------------- role changes

  function ToFollow(n: Node, newTerm: int): Node {
    n.(role := Follower, term := newTerm, votedFor := -1)
  }

  function ToLead(n: Node): Node {
    var last := Last(n.log).index;
    n.(role := Leader, votedFor := -1, lastEntryIndex := last, commitIndex := last,
       table := n.table.(next := SetAll(n.table.next, n.table.ids, last + 1),
                         matched := SetAll(n.table.matched, n.table.ids, 0),
                         already := SetAll(n.table.already, n.table.ids, false)))
  }

  function VoteRequest(n: Node): Message {
    RequestVote(n.term, n.id, Last(n.log).index, Last(n.log).term)
  }

  function ToAll(ids: seq<int>, m: Message): (out: seq<Send>) {
    if ids == [] then [] else ToAll(ids[..|ids| - 1], m) + [Send(ids[|ids| - 1], m)]
  }

  function ToCandidate(n: Node): Res {
    var c := n.(role := Candidate, term := n.term + 1, votedFor := n.id, receiveVotes := 1);
    Res(c, ToAll(NeedAppend(c.table, c.table.ids), VoteRequest(c)))
  }

  // ---------------------------------------------------------------- leader sends

  /** Builds the append or heartbeat for one sibling from its next index. */
  function SendAppend(n: Node, s: int): Res {
    var next := Number(n.table.next, s);
    if n.role != Leader || next < 1 then
      Res(n.(halted := true), [])
    else
      var found := Find(n.log, next);
      if found.None? && next > Last(n.log).index + 1 then
        Res(ToFollow(n, n.term), [])
      else
        var n1 := n.(table := n.table.(empty := n.table.empty[s := found.None?]));
        var before := Find(n.log, next - 1);
        if next > 1 && before.None? then
          Res(ToFollow(n1, n1.term), [])
        else
          Res(n1.(table := n1.table.(already := n1.table.already[s := true])),
              [Send(s, AppendEntry(n.term, n.id,
                                   if next > 1 then before.value.index else 0,
                                   if next > 1 then before.value.term else 0,
                                   if found.Some? then found.value.index else 0,
                                   if found.Some? then found.value.term else 0,
                                   if found.Some? then found.value.content else "",
                                   n.commitIndex))])
  }

  /** The leader's part of cron: one append for each sibling of the list, as long as the process lives. */
  function SendAppends(n: Node, ids: seq<int>): Res {
    if ids == [] then Res(n, [])
    else
      var r := SendAppends(n, ids[..|ids| - 1]);
      if r.node.halted then r
      else
        var r' := SendAppend(r.node, ids[|ids| - 1]);
        Res(r'.node, r.out + r'.out)
  }

  // ---------------------------------------------------------------- follower side of append

  datatype Verdict = Accepted(log: seq<Entry>) | Rejected(log: seq<Entry>)

  /** The check of the previous entry; what is left of the log afterwards. */
  function CheckPrevious(log: seq<Entry>, m: Message): Verdict
    requires m.AppendEntry?
  {
    if m.prevIndex == 0 then
      if log != [] then Rejected([]) else Accepted(log)
    else
      var prev := Find(log, m.prevIndex);
      if prev.None? then Rejected(log)
      else if prev.value.term != m.prevTerm then
        var cut := DeleteFrom(log, m.prevIndex);
        Rejected(if cut.Some? then cut.value else log)
      else if Last(log).index != m.prevIndex || Last(log).term != m.prevTerm then
        var cut := DeleteFrom(log, m.prevIndex + 1);
        if cut.None? then Rejected(log) else Accepted(cut.value)
      else Accepted(log)
  }

  /** The whole effect of a followed leader's append on the log. */
  function Follow(log: seq<Entry>, m: Message): Verdict
    requires m.AppendEntry?
  {
    var v := CheckPrevious(log, m);
    if v.Accepted? && m.index != 0 && m.entryTerm != 0
    then Accepted(v.log + [Entry(m.index, m.entryTerm, m.content)])
    else v
  }

  function Min(a: int, b: int): int { if b < a then b else a }

  predicate TurnsAway(n: Node, m: Message)
    requires m.AppendEntry?
  {
    n.role != Follower && n.term > m.term
  }

  /** The node after the term check and setLeaderId. */
  function Recognise(n: Node, m: Message): Node
    requires m.AppendEntry?
  {
    var f := if n.role != Follower || n.term < m.term then ToFollow(n, m.term) else n;
    f.(table := f.table.(leaderId := m.leaderId))
  }

  function HandleAppend(n: Node, src: int, m: Message): Res
    requires m.AppendEntry?
  {
    if TurnsAway(n, m) then
      Res(n, [Send(src, AppendReply(n.term, false))])
    else
      var f := Recognise(n, m);
      var v := Follow(f.log, m);
      var g := f.(log := v.log);
      if v.Rejected? then
        Res(g, [Send(src, AppendReply(g.term, false))])
      else if m.leaderCommit == 0 then
        Res(g, [Send(src, AppendReply(g.term, true))])
      else if v.log == [] then
        Res(g.(halted := true), [])
      else
        Res(g.(commitIndex := Min(m.leaderCommit, Last(v.log).index)),
            [Send(src, AppendReply(g.term, true))])
  }

  // ---------------------------------------------------------------- leader takes replies

  function CheckCommit(n: Node, index: int): Node {
    if n.commitIndex >= index then n
    else if 1 + CountReached(n.table.ids, n.table.matched, index) < HalfNumber(n.table) then n
    else n.(commitIndex := index)
  }

  function HandleAppendReply(n: Node, src: int, m: Message): Node
    requires m.AppendReply?
  {
    if n.role != Leader then n
    else if n.term < m.term then ToFollow(n, m.term)
    else if src !in n.table.ids then n
    else
      var t := n.table.(already := n.table.already[src := false]);
      var next := Number(t.next, src);
      if !m.success then
        n.(table := if next > 1 then t.(next := t.next[src := next - 1]) else t)
      else if Flag(t.empty, src) then n.(table := t)
      else
        CheckCommit(n.(table := t.(next := t.next[src := next + 1],
                                   matched := t.matched[src := next])), next)
  }

  // ---------------------------------------------------------------- election

  function HandleRequestVote(n: Node, src: int, m: Message): Res
    requires m.RequestVote?
  {
    var f := if n.term < m.term then ToFollow(n, m.term) else n;
    if f.term > m.term || Last(n.log).term > m.lastTerm || Last(n.log).index > m.lastIndex || f.votedFor != -1
    then Res(f, [Send(src, VoteReply(f.term, false))])
    else Res(f.(votedFor := m.candidateId), [Send(src, VoteReply(f.term, true))])
  }

  function HandleVoteReply(n: Node, m: Message): Node
    requires m.VoteReply?
  {
    if n.role != Candidate then n
    else if m.term > n.term then ToFollow(n, m.term)
    else if !m.granted then n
    else
      var n1 := n.(receiveVotes := n.receiveVotes + 1);
      if n1.receiveVotes >= n1.winVoteBaseline then ToLead(n1) else n1
  }

  // ---------------------------------------------------------------- clients, timer, connections

  function HandleRequest(n: Node, content: string): Node {
    if n.role != Leader then n
    else n.(lastEntryIndex := n.lastEntryIndex + 1,
            log := n.log + [Entry(n.lastEntryIndex + 1, n.term, content)])
  }

  /** One cron without the flush to child servers; the children's baseline and the clock are inputs. */
  function Tick(n: Node, childrenReady: bool, timedOut: bool): Res {
    if !SiblingsBaseline(n.table) || !childrenReady then
      var f := if n.role != Follower then ToFollow(n, n.term) else n;
      Res(if SiblingsBaseline(n.table) then f else f.(table := f.table.(leaderId := -1)), [])
    else match n.role
      case Leader => SendAppends(n, NeedAppend(n.table, n.table.ids))
      case Follower => if timedOut then ToCandidate(n) else Res(n, [])
      case Candidate =>
        if !timedOut then Res(n, [])
        else if n.receiveVotes >= n.winVoteBaseline then Res(ToLead(n), [])
        else ToCandidate(n)
  }

  function AddSibling(n: Node, s: int): Node {
    var t := n.table;
    if s !in t.ids || Flag(t.connected, s) || Flag(t.registered, s) then n
    else n.(table := t.(registered := t.registered[s := true],
                        connected := t.connected[s := false],
                        next := t.next[s := n.commitIndex + 1],
                        matched := t.matched[s := 0],
                        already := t.already[s := false]))
  }

  function ConfirmSibling(n: Node, s: int): Node {
    if s !in n.table.ids then n
    else n.(table := n.table.(connected := n.table.connected[s := true]))
  }

  function DeleteSibling(n: Node, s: int): Node {
    var t := n.table;
    if s !in t.ids || !Flag(t.registered, s) then n
    else n.(table := t.(registered := t.registered[s := false],
                        connected := t.connected[s := false],
                        next := t.next[s := 0],
                        matched := t.matched[s := 0],
                        already := t.already[s := false],
                        leaderId := if s == t.leaderId then -1 else t.leaderId))
  }

  // ---------------------------------------------------------------- one atomic step

  datatype Input =
    | Receive(src: int, msg: Message)
    | Cron(childrenReady: bool, timedOut: bool)
    | Request(content: string)
    | Add(sibling: int)
    | Confirm(sibling: int)
    | Delete(sibling: int)

  function Step(n: Node, i: Input): Res {
    match i
    case Receive(src, m) =>
      (match m
       case RequestVote(_, _, _, _) => HandleRequestVote(n, src, m)
       case VoteReply(_, _) => Res(HandleVoteReply(n, m), [])
       case AppendEntry(_, _, _, _, _, _, _, _) => HandleAppend(n, src, m)
       case AppendReply(_, _) => Res(HandleAppendReply(n, src, m), []))
    case Cron(childrenReady, timedOut) => Tick(n, childrenReady, timedOut)
    case Request(content) => Res(HandleRequest(n, content), [])
    case Add(s) => Res(AddSibling(n, s), [])
    case Confirm(s) => Res(ConfirmSibling(n, s), [])
    case Delete(s) => Res(DeleteSibling(n, s), [])
  }
}
