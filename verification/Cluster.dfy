/**
 * A cluster node as the program runs it: fields assigned step by step, the log read from and
 * written to the persistence file. Every method is proved to do to the fields what the function
 * of the same step in ClusterNode does to the value; messages put into send buffers come back as
 * a list.
 */
module ClusterProgram {
  import opened EntryLog
  import opened Decimal
  import opened Configuration
  import opened Records
  import opened PersistenceProgram
  import opened ClusterNode
  import opened World
  import opened LogMatching
  import opened Wire
  import opened DiskLogs
  import opened SiblingsProgram
  import opened ChildServers
  import opened Flush
  import opened ChildrenProgram
  import opened ParentsProgram

  /** Once the process has exited, the rest of the siblings get nothing. */
  lemma {:induction false} SendAppendsStops(n: Node, ids: seq<int>, k: nat)
    requires k <= |ids| && (k == |ids| || SendAppends(n, ids[..k]).node.halted)
    ensures SendAppends(n, ids) == SendAppends(n, ids[..k])
  {
    if k == |ids| {
      assert ids[..k] == ids;
    } else {
      assert ids[..|ids| - 1][..k] == ids[..k];
      SendAppendsStops(n, ids[..|ids| - 1], k);
    }
  }

  /** The effect of a reconnect on the node: the lost siblings are registered, one after the other. */
  lemma SendAppendsOne(n: Node, ids: seq<int>, k: nat)
    requires k < |ids| && !SendAppends(n, ids[..k]).node.halted
    ensures var before := SendAppends(n, ids[..k]);
            var r := SendAppend(before.node, ids[k]);
            SendAppends(n, ids[..k + 1]) == Res(r.node, before.out + r.out)
  {
    assert ids[..k + 1][..k] == ids[..k];
  }

  function AddAll(n: Node, ids: seq<int>): Node {
    if ids == [] then n else AddSibling(AddAll(n, ids[..|ids| - 1]), ids[|ids| - 1])
  }

  /** All of them can be registered, one after the other. */
  predicate CanRegisterAll(t: Table, ids: seq<int>) {
    forall i :: 0 <= i < |ids| ==> CanRegister(t, ids[i]) && ids[i] !in ids[..i]
  }

  lemma {:induction false} RegainedCanRegister(t: Table, trying: map<int, bool>, self: int, reached: int -> bool,
                                               ids: seq<int>)
    ensures CanRegisterAll(t, Regained(t, trying, self, reached, ids))
  {
    if ids != [] {
      RegainedCanRegister(t, trying, self, reached, ids[..|ids| - 1]);
      var all := Regained(t, trying, self, reached, ids);
      var before := Regained(t, trying, self, reached, ids[..|ids| - 1]);
      forall i | 0 <= i < |all| ensures CanRegister(t, all[i]) && all[i] !in all[..i] {
        if i < |before| { assert all[i] == before[i] && all[..i] == before[..i]; } else { assert all[..i] == before; }
      }
    }
  }

  lemma RegisterIsAdd(n: Node, t: Table, s: int)
    requires CanRegister(t, s)
    ensures AddSibling(n.(table := t), s) == n.(table := Register(t, s, n.commitIndex))
  {
  }

  lemma {:induction false} RegisteredAreAdded(n: Node, ids: seq<int>)
    requires CanRegisterAll(n.table, ids)
    ensures AddAll(n, ids) == n.(table := RegisterAll(n.table, ids, n.commitIndex))
  {
    if ids != [] {
      var front, s := ids[..|ids| - 1], ids[|ids| - 1];
      assert forall i :: 0 <= i < |front| ==> front[i] == ids[i] && front[..i] == ids[..i];
      RegisteredAreAdded(n, front);
      RegisterAllFlags(n.table, front, n.commitIndex, s);
      RegisterIsAdd(n, RegisterAll(n.table, front, n.commitIndex), s);
    }
  }

  lemma {:induction false} SameCount(ids: seq<int>, m: map<int, bool>, m': map<int, bool>)
    requires forall s :: s in ids ==> Flag(m, s) == Flag(m', s)
    ensures CountFlag(ids, m) == CountFlag(ids, m')
  {
    if ids != [] { SameCount(ids[..|ids| - 1], m, m'); }
  }

  /** Registering unconnected siblings changes no majority. */
  lemma RegisterKeepsBaseline(t: Table, ids: seq<int>, commitIndex: int)
    requires CanRegisterAll(t, ids)
    ensures SiblingsBaseline(RegisterAll(t, ids, commitIndex)) == SiblingsBaseline(t)
  {
    var t' := RegisterAll(t, ids, commitIndex);
    RegisterAllFlags(t, ids, commitIndex, 0);
    forall s ensures Flag(t.connected, s) == Flag(t'.connected, s) {
      RegisterAllFlags(t, ids, commitIndex, s);
      if s in ids {
        var i :| 0 <= i < |ids| && ids[i] == s;
        assert CanRegister(t, ids[i]);
      }
    }
    SameCount(t.ids, t.connected, t'.connected);
  }

  /** Nothing of registering depends on who is held to be the leader. */
  lemma {:induction false} RegisterIgnoresLeader(t: Table, ids: seq<int>, commitIndex: int, leader: int)
    ensures RegisterAll(t.(leaderId := leader), ids, commitIndex)
            == RegisterAll(t, ids, commitIndex).(leaderId := leader)
  {
    if ids != [] { RegisterIgnoresLeader(t, ids[..|ids| - 1], commitIndex, leader); }
  }

  lemma {:induction false} RegainIgnoresLeader(t: Table, trying: map<int, bool>, self: int, reached: int -> bool,
                                               ids: seq<int>, leader: int)
    ensures Regained(t.(leaderId := leader), trying, self, reached, ids) == Regained(t, trying, self, reached, ids)
  {
    if ids != [] { RegainIgnoresLeader(t, trying, self, reached, ids[..|ids| - 1], leader); }
  }

  /** The siblings that a cron registers if it reconnects. */
  function Lost(n: Node, trying: map<int, bool>, reached: int -> bool): seq<int> {
    Regained(n.table, trying, n.id, reached, n.table.ids)
  }

  /** The node that has stepped down in a cron, having lost its leader too if it lost its majority. */
  function SteppedDown(n: Node, siblingsReady: bool): Node {
    var f := if n.role != Follower then ClusterNode.ToFollow(n, n.term) else n;
    if siblingsReady then f else f.(table := f.table.(leaderId := -1))
  }

  /** Stepping down and then reconnecting is reconnecting and then an idle cron. */
  lemma IdleTick(n: Node, trying: map<int, bool>, reached: int -> bool, childrenReady: bool, timedOut: bool)
    requires !SiblingsBaseline(n.table)
    ensures var f, greeted := SteppedDown(n, false), Lost(n, trying, reached);
            && Lost(f, trying, reached) == greeted && !SiblingsBaseline(AddAll(n, greeted).table)
            && Tick(AddAll(n, greeted), childrenReady, timedOut) == Res(AddAll(f, greeted), [])
  {
    var f, greeted := SteppedDown(n, false), Lost(n, trying, reached);
    RegainIgnoresLeader(n.table, trying, n.id, reached, n.table.ids, -1);
    RegainedCanRegister(n.table, trying, n.id, reached, n.table.ids);
    assert forall s :: CanRegister(f.table, s) == CanRegister(n.table, s);
    RegisteredAreAdded(n, greeted);
    RegisteredAreAdded(f, greeted);
    RegisterIgnoresLeader(n.table, greeted, n.commitIndex, -1);
    RegisterKeepsBaseline(n.table, greeted, n.commitIndex);
  }

  /** Where everybody is connected there is nobody to regain. */
  lemma {:induction false} NobodyLost(t: Table, trying: map<int, bool>, self: int, reached: int -> bool, ids: seq<int>)
    requires forall s :: s in ids ==> Flag(t.connected, s)
    ensures Regained(t, trying, self, reached, ids) == []
  {
    if ids != [] { NobodyLost(t, trying, self, reached, ids[..|ids| - 1]); }
  }

  /** A leader that takes an index for the end of its log. */
  function LeadFrom(n: Node, last: int): Node {
    var t := n.table;
    n.(role := Leader, votedFor := -1, lastEntryIndex := last, commitIndex := last,
       table := t.(next := SetAll(t.next, t.ids, last + 1), matched := SetAll(t.matched, t.ids, 0),
                   already := SetAll(t.already, t.ids, false)))
  }

  lemma LeadsFromEnd(n: Node)
    ensures ClusterNode.ToLead(n) == LeadFrom(n, Last(n.log).index)
  {
  }

  /** A node before initConfig, on the entries that are found. */
  function Unconfigured(found: seq<Entry>): Node {
    Node(-1, Follower, 0, -1, 0, 0, 0, 0, found, Table([], -1, map[], map[], map[], map[], map[], map[]), false)
  }

  function Configured(n: Node, conf: Conf): Node
    requires StartsUp(conf)
  {
    var c, id := StartingConfig(conf), StartingId(conf);
    n.(id := id, winVoteBaseline := Quotient(c.idMax - c.idMin + 1, 2) + 1, table := InitTable(c, id))
  }

  lemma ConfiguredStarts(conf: Conf, found: seq<Entry>)
    requires StartsUp(conf)
    ensures ClusterNode.ToFollow(Configured(Unconfigured(found), conf), 1)
            == InitNode(StartingConfig(conf), StartingId(conf)).(log := found)
  {
  }

  lemma AwayIsSame(n: Node, src: int, m: Message)
    requires m.AppendEntry?
    ensures TurnsAway(n, m) ==> HandleAppend(n, src, m).node == n
  {
  }

  function MarkedEmpty(n: Node, s: int, empty: bool): Node {
    n.(table := n.table.(empty := n.table.empty[s := empty]))
  }

  function MarkedSent(n: Node, s: int): Node {
    n.(table := n.table.(already := n.table.already[s := true]))
  }

  /** The append for a next index and the entry there, if any; None if the entry before is lost. */
  function AppendMessage(n: Node, nextEntryIndex: int, next: Option<Entry>): Option<Message> {
    var before := Find(n.log, nextEntryIndex - 1);
    if nextEntryIndex > 1 && before.None? then None
    else Some(AppendEntry(n.term, n.id,
                          if nextEntryIndex > 1 then before.value.index else 0,
                          if nextEntryIndex > 1 then before.value.term else 0,
                          if next.Some? then next.value.index else 0,
                          if next.Some? then next.value.term else 0,
                          if next.Some? then next.value.content else "",
                          n.commitIndex))
  }

  /** The leader after it has looked for the entry before the next. */
  function Appended(n: Node, s: int, nextEntryIndex: int, next: Option<Entry>): Res {
    var n1 := MarkedEmpty(n, s, next.None?);
    match AppendMessage(n1, nextEntryIndex, next)
    case None => Res(ClusterNode.ToFollow(n1, n1.term), [])
    case Some(m) => Res(MarkedSent(n1, s), [Send(s, m)])
  }

  lemma SendAppendSteps(n: Node, s: int)
    requires n.role == Leader && 1 <= Number(n.table.next, s)
    ensures var next := Number(n.table.next, s);
            var found := Find(n.log, next);
            SendAppend(n, s)
            == if found.None? && next > Last(n.log).index + 1 then Res(ClusterNode.ToFollow(n, n.term), [])
               else Appended(n, s, next, found)
  {
  }

  /** What a follower tells a client: the leader's address, if it knows a leader. */
  function Answer(t: Table, p: Peers): seq<string> {
    if t.leaderId == -1 then ["cluster is not available now"]
    else ["redirect", "leaderip", if t.leaderId in p.ip then p.ip[t.leaderId] else "",
          "leaderport", ToString(Number(p.port, t.leaderId))]
  }

  /** What a greeting is answered. */
  function Greeting(id: int): seq<string> { ["replyclusternode", "clusterId", ToString(id), "success", "true"] }

  /** What a command gets for an answer on its own connection at once; only some commands are answered so. */
  function Reply(n: Node, p: Peers, ok: bool, argv: seq<string>): seq<string>
    requires argv != []
  {
    if argv[0] == "clusternode" then
      if |argv| == 3 && Stoi(argv[2]).Some? && ok then Greeting(n.id) else []
    else if IsMessageName(argv[0]) || argv[0] in {"replyclusternode", "flushserver"} then []
    else match n.role
      case Leader => []
      case Follower => Answer(n.table, p)
      case Candidate => ["retry"]
  }

  /** The client that a child server's reply goes to, with the text: the one that waits for the index flushed last. */
  function Answered(n: Node, waiting: map<int, int>, index: int, argv: seq<string>): Option<(int, string)>
    requires argv != []
  {
    if argv[0] == "flushserver" && |argv| == 2 && n.role == Leader && index in waiting
    then Some((waiting[index], argv[1]))
    else None
  }

  /** Who waits after a command; `promoted` says that the node has become leader by it. */
  function Waiting(n: Node, waiting: map<int, int>, index: int, client: int, ok: bool, promoted: bool,
                   argv: seq<string>): map<int, int>
    requires argv != []
  {
    if IsMessageName(argv[0]) then if promoted then map[] else waiting
    else if argv[0] == "flushserver" then
      if Answered(n, waiting, index, argv).Some? then waiting - {index} else waiting
    else if argv[0] in {"clusternode", "replyclusternode"} then waiting
    else if n.role == Leader && ok then waiting[n.lastEntryIndex + 1 := client]
    else waiting
  }

  /** The command is an append that the node follows. */
  predicate FollowsAppend(n: Node, argv: seq<string>)
    requires argv != []
  {
    var m := ReadAppendEntry(argv);
    argv[0] == "appendentry" && m.Some? && !TurnsAway(n, m.value)
  }

  /** The sleep of a candidate before it stands again divides by the node's id. */
  predicate SleepFails(n: Node, timedOut: bool) {
    n.role == Candidate && timedOut && n.receiveVotes < n.winVoteBaseline && n.id == 0
  }

  /** A cron of the node model, but for a candidate with the id 0, whose process ends in its sleep. */
  function CronOf(n: Node, childrenReady: bool, timedOut: bool): Res {
    if SiblingsBaseline(n.table) && childrenReady && SleepFails(n, timedOut) then Exited(n)
    else Tick(n, childrenReady, timedOut)
  }

  /** The node after a sibling's greeting on the connection of a client. */
  function Greeted(n: Node, queue: seq<int>, client: int, argv: seq<string>): Node {
    if |argv| != 3 || Stoi(argv[2]).None? then n.(halted := true)
    else
      var s := Stoi(argv[2]).value;
      if client in queue && CanRegister(n.table, s) then ConfirmSibling(AddSibling(n, s), s) else n
  }

  function Confirmed(n: Node, src: int, argv: seq<string>): (bool, Node) {
    if |argv| != 5 || Stoi(argv[2]).None? then (true, n.(halted := true))
    else (src in n.table.ids, ConfirmSibling(n, src))
  }

  /** What a node says first on a connection that it has opened to a sibling. */
  function FirstWords(id: int): seq<string> { ["clusternode", "clusterId", ToString(id)] }

  /**
   * A handshake: a node says its id on a connection that the other has among its clients, the other
   * answers with its own, and then each has the other connected, to be sent to from its commit index.
   */
  lemma HandshakeConnects(a: Node, b: Node, queue: seq<int>, client: int, p: Peers)
    requires IsInt(a.id) && IsInt(b.id) && client in queue
    requires CanRegister(a.table, b.id) && CanRegister(b.table, a.id)
    ensures var b' := Greeted(b, queue, client, FirstWords(a.id));
            && b'.halted == b.halted && Flag(b'.table.registered, a.id) && Flag(b'.table.connected, a.id)
            && Number(b'.table.next, a.id) == b.commitIndex + 1
            && var (ok, a') := Confirmed(AddSibling(a, b.id), b.id, Reply(b, p, true, FirstWords(a.id)));
               && ok && a'.halted == a.halted && Flag(a'.table.registered, b.id) && Flag(a'.table.connected, b.id)
               && Number(a'.table.next, b.id) == a.commitIndex + 1
  {
    IntRead(ToString(a.id), a.id);
    IntRead(ToString(b.id), b.id);
  }

  /** Where a follower sends a client: to the configured address of the leader it names, as the client reads it. */
  lemma RedirectNames(n: Node, p: Peers, argv: seq<string>)
    requires n.role == Follower && n.table.leaderId != -1
    requires n.table.leaderId in p.ip && n.table.leaderId in p.port && IsInt(p.port[n.table.leaderId])
    requires argv != [] && !IsMessageName(argv[0]) && argv[0] !in {"clusternode", "replyclusternode", "flushserver"}
    ensures var reply := Reply(n, p, true, argv);
            && |reply| == 5 && reply[0] == "redirect"
            && reply[2] == p.ip[n.table.leaderId] && Stoi(reply[4]) == Some(p.port[n.table.leaderId])
  {
    IntRead(ToString(p.port[n.table.leaderId]), p.port[n.table.leaderId]);
  }

  /** If the arguments are those of an append, what it puts on disk can be read back. */
  predicate ArgvFits(argv: seq<string>)
    requires argv != []
  {
    var m := ReadAppendEntry(argv);
    argv[0] == "appendentry" && m.Some? ==> MessageFits(m.value)
  }

  /** A command that has come to a node, on a client's or a sibling's connection, by its name. */
  function Commanded(n: Node, queue: seq<int>, client: int, src: int, argv: seq<string>, content: string): (bool, Res)
    requires argv != []
  {
    if IsMessageName(argv[0]) then Hear(n, src, argv)
    else if argv[0] == "clusternode" then
      (|argv| == 3 && Stoi(argv[2]).Some? ==> client in queue && CanRegister(n.table, Stoi(argv[2]).value),
       Res(Greeted(n, queue, client, argv), []))
    else if argv[0] == "replyclusternode" then
      (Confirmed(n, src, argv).0, Res(Confirmed(n, src, argv).1, []))
    else if argv[0] == "flushserver" then
      (true, if |argv| != 2 then Exited(n) else Res(n, []))
    else (n.role == Leader ==> client in queue, Res(HandleRequest(n, content), []))
  }

  /** Several steps of one node. */
  function Steps(n: Node, inputs: seq<Input>): Res {
    if inputs == [] then Res(n, [])
    else
      var before := Steps(n, inputs[..|inputs| - 1]);
      var r := Step(before.node, inputs[|inputs| - 1]);
      Res(r.node, before.out + r.out)
  }

  lemma OneStep(n: Node, i: Input)
    ensures Steps(n, [i]) == Step(n, i)
  {
    assert [i][..0] == [] && [] + Step(n, i).out == Step(n, i).out;
  }

  lemma GreetingSteps(n: Node, s: int)
    ensures Steps(n, [Add(s), Confirm(s)]) == Res(ConfirmSibling(AddSibling(n, s), s), [])
  {
    assert [Add(s), Confirm(s)][..1] == [Add(s)];
    OneStep(n, Add(s));
  }

  lemma HeardIsStep(n: Node, src: int, argv: seq<string>) returns (inputs: seq<Input>)
    requires argv != [] && IsMessageName(argv[0])
    ensures |inputs| <= 1
    ensures var (ok, r) := Hear(n, src, argv); ok ==> r == Exited(n) || r == Steps(n, inputs)
  {
    inputs := [];
    var m: Message;
    if argv[0] == "requestvote" && ReadRequestVote(argv).Some? {
      m := ReadRequestVote(argv).value;
    } else if argv[0] == "appendentry" && ReadAppendEntry(argv).Some? {
      m := ReadAppendEntry(argv).value;
    } else if argv[0] == "replyrequestvote" && n.role == Candidate && |argv| >= 5 && Stol(argv[2]).Some? {
      m := VoteReply(Stol(argv[2]).value, argv[4] == "true");
    } else if argv[0] == "replyappendentry" && n.role == Leader && |argv| == 5 && Stol(argv[2]).Some? {
      m := AppendReply(Stol(argv[2]).value, argv[4] == "true");
    } else {
      return;
    }
    inputs := [Receive(src, m)];
    OneStep(n, Receive(src, m));
  }

  /**
   * Whatever command with whatever arguments reaches a node: if it succeeds and does not end the
   * process at once, the node has taken at most two steps of the node model and has sent what they send.
   */
  lemma CommandIsSteps(n: Node, queue: seq<int>, client: int, src: int, argv: seq<string>, content: string)
    returns (inputs: seq<Input>)
    requires argv != []
    ensures |inputs| <= 2
    ensures var (ok, r) := Commanded(n, queue, client, src, argv, content);
            ok ==> r == Exited(n) || r == Steps(n, inputs)
  {
    if IsMessageName(argv[0]) {
      inputs := HeardIsStep(n, src, argv);
    } else if argv[0] == "clusternode" && |argv| == 3 && Stoi(argv[2]).Some? {
      var s := Stoi(argv[2]).value;
      inputs := [Add(s), Confirm(s)];
      GreetingSteps(n, s);
    } else if argv[0] == "replyclusternode" {
      inputs := [Confirm(src)];
      OneStep(n, Confirm(src));
    } else if argv[0] in {"clusternode", "flushserver"} {
      inputs := [];
    } else {
      inputs := [Request(content)];
      OneStep(n, Request(content));
    }
  }

  /** If the command puts an entry into the log, it can be read back. */
  predicate CommandFits(n: Node, argv: seq<string>, content: string)
    requires argv != []
  {
    if IsMessageName(argv[0]) then ArgvFits(argv)
    else argv[0] in {"clusternode", "replyclusternode", "flushserver"} || StoresWell(n, Request(content))
  }

  // ---------------------------------------------------------------- configuration

  const ID_KEY := "CLUSTER_ID"
  const OWN_PORT_KEY := "CLUSTER_PORT"
  const HZ_KEY := "CLUSTER_HZ"
  const RATIO_KEY := "CLUSTER_ELECTION_TIMEOUT_RATIO"
  const ID_MAX_KEY := "CLUSTER_ID_MAX"
  const ID_MIN_KEY := "CLUSTER_ID_MIN"

  /** A configuration with which initConfig does not end the process. */
  predicate StartsUp(conf: Conf) {
    var id, idMin, idMax := NumberAt(conf, ID_KEY), NumberAt(conf, ID_MIN_KEY), NumberAt(conf, ID_MAX_KEY);
    var hz, total := NumberAt(conf, HZ_KEY), NumberAt(conf, TOTAL_KEY);
    && id.Some? && idMin.Some? && idMax.Some? && hz.Some? && total.Some?
    && NumberAt(conf, OWN_PORT_KEY).Some? && NumberAt(conf, RATIO_KEY).Some? && hz.value != 0
    && 1 <= idMin.value && AllReadable(conf, SiblingsProgram.PORT_KEY, SiblingIds(idMin.value, idMax.value, id.value))
    && AllReadable(conf, ChildrenProgram.PORT_KEY, Ids(Natural(total.value)))
  }

  function StartingId(conf: Conf): int
    requires StartsUp(conf)
  {
    NumberAt(conf, ID_KEY).value
  }

  function StartingConfig(conf: Conf): Config
    requires StartsUp(conf)
  {
    Config(NumberAt(conf, ID_MIN_KEY).value, NumberAt(conf, ID_MAX_KEY).value)
  }

  function StartingTimeout(conf: Conf): int
    requires StartsUp(conf)
  {
    NumberAt(conf, RATIO_KEY).value * Quotient(1000, NumberAt(conf, HZ_KEY).value)
  }

  class Cluster {
    var clusterId: int
    var role: Role
    var currentTerm: int
    var votedFor: int
    var commitIndex: int
    var lastEntryIndex: int
    var receiveVotes: int
    var winVoteBaseline: int
    var lastUnixTimeInMs: int
    var electionTimeout: int
    var exited: bool
    const siblings: Siblings
    const children: Children
    const parents: Parents
    const pf: PersistenceFile
    ghost var log: seq<Entry>     // what the file holds

    ghost function View(): Node
      reads this, siblings
    {
      Node(clusterId, role, currentTerm, votedFor, commitIndex, lastEntryIndex, receiveVotes, winVoteBaseline,
           log, siblings.View(), exited)
    }

    ghost predicate Valid()
      reads this`log, pf`file, pf`position, parents`parentsQueue
      reads children`serverIdVector, children`childPtrMap, children`connectStatus,
            children`consistentHashAndServerIdMap
    {
      && pf.Valid() && pf.Holds(log)
      && children.pf == pf && Formed(children.View()) && parents.Valid()
    }

    /** What starts the election timer again: a new term, or a return to the followers. */
    twostate predicate Restarted()
      reads this`currentTerm, this`role
    {
      currentTerm != old(currentTerm) || (role == Follower && old(role) != Follower)
    }

    /** initConfig and init on the file that is found; without a proper configuration the process ends. */
    constructor (conf: Conf, now: int, hasher: string -> nat, pf: PersistenceFile, ghost found: seq<Entry>)
      requires pf.Valid() && pf.Holds(found)
      ensures this.pf == pf && fresh(siblings) && fresh(children) && fresh(parents)
      ensures exited == !StartsUp(conf)
      ensures !exited ==> Valid() && lastUnixTimeInMs == now && electionTimeout == StartingTimeout(conf)
      ensures !exited ==> View() == InitNode(StartingConfig(conf), StartingId(conf)).(log := found)
      ensures !exited ==> children.View() == Recognized(Natural(NumberAt(conf, TOTAL_KEY).value))
    {
      clusterId, role, currentTerm, votedFor := -1, Follower, 0, -1;
      commitIndex, lastEntryIndex, receiveVotes, winVoteBaseline := 0, 0, 0, 0;
      lastUnixTimeInMs, electionTimeout := -1, 100;
      log, exited := found, false;
      siblings := new Siblings();
      children := new Children(hasher, pf);
      parents := new Parents();
      this.pf := pf;
      new;
      Start(conf, now, found);
    }

    method Start(conf: Conf, now: int, ghost found: seq<Entry>)
      requires View() == Unconfigured(found) && siblings.Net() == NO_PEERS
      requires children.View() == Recognized(0) && children.ipMap == map[] && children.portMap == map[]
      modifies this`clusterId, this`electionTimeout, this`winVoteBaseline, this`exited,
               this`role, this`currentTerm, this`votedFor, this`lastUnixTimeInMs, siblings,
               children`serverIdVector, children`childPtrMap, children`connectStatus, children`ipMap, children`portMap
      ensures exited == !StartsUp(conf)
      ensures !exited ==> lastUnixTimeInMs == now && electionTimeout == StartingTimeout(conf)
      ensures !exited ==> View() == InitNode(StartingConfig(conf), StartingId(conf)).(log := found)
      ensures !exited ==> children.View() == Recognized(Natural(NumberAt(conf, TOTAL_KEY).value))
    {
      InitConfig(conf);
      if !exited {
        ConfiguredStarts(conf, found);
        ToFollow(1, now);
      }
    }

    method InitConfig(conf: Conf)
      requires siblings.View() == Table([], -1, map[], map[], map[], map[], map[], map[]) && siblings.Net() == NO_PEERS
      requires children.View() == Recognized(0) && children.ipMap == map[] && children.portMap == map[] && !exited
      modifies this`clusterId, this`electionTimeout, this`winVoteBaseline, this`exited, siblings,
               children`serverIdVector, children`childPtrMap, children`connectStatus, children`ipMap, children`portMap
      ensures exited == !StartsUp(conf)
      ensures !exited ==> clusterId == StartingId(conf) && electionTimeout == StartingTimeout(conf)
      ensures !exited ==> var c := StartingConfig(conf);
                          winVoteBaseline == Quotient(c.idMax - c.idMin + 1, 2) + 1
                          && siblings.View() == InitTable(c, clusterId)
      ensures !exited ==> children.View() == Recognized(Natural(NumberAt(conf, TOTAL_KEY).value))
    {
      var id, port, hz := NumberAt(conf, ID_KEY), NumberAt(conf, OWN_PORT_KEY), NumberAt(conf, HZ_KEY);
      var ratio, idMax, idMin := NumberAt(conf, RATIO_KEY), NumberAt(conf, ID_MAX_KEY), NumberAt(conf, ID_MIN_KEY);
      if id.None? || port.None? || hz.None? || hz.value == 0 || ratio.None? || idMax.None? || idMin.None? {
        exited := true;
        return;
      }
      clusterId := id.value;
      electionTimeout := ratio.value * Quotient(1000, hz.value);
      winVoteBaseline := Quotient(idMax.value - idMin.value + 1, 2) + 1;
      var known, ended := siblings.RecognizeSiblings(conf, clusterId, idMin.value, idMax.value);
      if !known { exited := true; return; }
      var ok := children.RecognizeChildren(conf);
      if !ok { exited := true; }
    }

    /** The term is what it was, and so is the role, unless the node now follows. */
    twostate predicate SteppedAside()
      reads this`currentTerm, this`role
    {
      currentTerm == old(currentTerm) && (role == old(role) || role == Follower)
    }

    twostate predicate StoppedLeading()
      reads this`role
    {
      role == Follower && old(role) != Follower
    }

    twostate predicate Promoted()
      reads this`role
    {
      role == Leader && old(role) != Leader
    }

    // -------------------------------------------------------------- the log on disk

    method FindLastEntry() returns (ok: bool, e: Entry)
      requires Valid()
      modifies pf`position, pf`good
      ensures Valid() && ok == (log != []) && e == Last(log)
    {
      ok, e := pf.FindLastEntry(NO_ENTRY);
    }

    method FindEntry(index: int) returns (ok: bool, e: Entry)
      requires Valid()
      modifies pf`position, pf`good
      ensures Valid() && ok == Find(log, index).Some? && (ok ==> e == Find(log, index).value)
    {
      ok, e := pf.FindEntry(index, NO_ENTRY);
    }

    method DeleteEntryAfter(index: int) returns (ok: bool)
      requires Valid()
      modifies this`log, pf
      ensures Valid() && ok == DeleteFrom(old(log), index).Some?
      ensures log == if ok then DeleteFrom(old(log), index).value else old(log)
    {
      ghost var cut := DeleteFrom(log, index);
      assert pf.Holds(log);
      ok := pf.DeleteEntryAfter(index);
      assert ok == cut.Some? && pf.Holds(if ok then cut.value else log);
      if ok { log := cut.value; }
    }

    method DeleteAllEntry()
      requires Valid()
      modifies this`log, pf
      ensures Valid() && log == []
    {
      pf.DeleteAllEntry();
      log := [];
    }

    method AppendToPF(entry: Entry)
      requires Valid()
      modifies this`log, pf`file
      ensures log == old(log) + [entry] && (Storable(entry) ==> Valid())
    {
      pf.AppendToPF(entry);
      log := log + [entry];
    }

    // -------------------------------------------------------------- role changes

    method ToFollow(newTerm: int, now: int)
      modifies this`role, this`currentTerm, this`votedFor, this`lastUnixTimeInMs
      ensures View() == ClusterNode.ToFollow(old(View()), newTerm) && lastUnixTimeInMs == now
    {
      role := Follower;
      currentTerm := newTerm;
      lastUnixTimeInMs := now;
      votedFor := -1;
    }

    /** The three batches of toLead over the sibling tables. */
    method ResetSiblings(next: int)
      modifies siblings
      ensures var t := old(siblings.View());
              siblings.View() == t.(next := SetAll(t.next, t.ids, next), matched := SetAll(t.matched, t.ids, 0),
                                    already := SetAll(t.already, t.ids, false))
      ensures siblings.Net() == old(siblings.Net())
    {
      siblings.SetNextIndexBatch(next);
      siblings.SetMatchIndexBatch(0);
      siblings.SetAlreadyAppendEntryBatch(false);
    }

    method SetLeader(last: int)
      modifies this`role, this`votedFor, this`lastEntryIndex, this`commitIndex
      ensures View() == old(View()).(role := Leader, votedFor := -1, lastEntryIndex := last, commitIndex := last)
    {
      role := Leader;
      votedFor := -1;
      lastEntryIndex := last;
      commitIndex := last;
    }

    method BecomeLeader(last: int)
      modifies this`role, this`votedFor, this`lastEntryIndex, this`commitIndex, siblings,
               parents`dealingIndexParentsMap
      ensures View() == LeadFrom(old(View()), last)
      ensures parents.dealingIndexParentsMap == map[] && siblings.Net() == old(siblings.Net())
    {
      SetLeader(last);
      ResetSiblings(last + 1);
      parents.ClearDealingIndex();
    }

    /** Leading starts at the end of the log, with nobody waiting for an answer. */
    method ToLead()
      requires Valid()
      modifies this`role, this`votedFor, this`lastEntryIndex, this`commitIndex, siblings, pf`position, pf`good,
               parents`dealingIndexParentsMap
      ensures Valid() && View() == ClusterNode.ToLead(old(View())) && parents.dealingIndexParentsMap == map[]
      ensures siblings.Net() == old(siblings.Net())
    {
      var _, lastEntry := FindLastEntry();
      BecomeLeader(lastEntry.index);
      LeadsFromEnd(old(View()));
    }

    method RequestVoteSend(s: int) returns (out: seq<Send>)
      requires Valid() && role == Candidate
      modifies pf`position, pf`good
      ensures Valid() && out == [Send(s, VoteRequest(View()))]
    {
      var _, lastEntry := FindLastEntry();
      return [Send(s, RequestVote(currentTerm, clusterId, lastEntry.index, lastEntry.term))];
    }

    method BecomeCandidate(now: int)
      modifies this`role, this`currentTerm, this`votedFor, this`receiveVotes, this`lastUnixTimeInMs
      ensures var n := old(View());
              View() == n.(role := Candidate, term := n.term + 1, votedFor := n.id, receiveVotes := 1)
      ensures lastUnixTimeInMs == now
    {
      role := Candidate;
      currentTerm := currentTerm + 1;
      votedFor := clusterId;
      receiveVotes := 1;
      lastUnixTimeInMs := now;
    }

    method ToCandidate(now: int) returns (out: seq<Send>)
      requires Valid()
      modifies this`role, this`currentTerm, this`votedFor, this`receiveVotes, this`lastUnixTimeInMs,
               pf`position, pf`good
      ensures Valid() && Res(View(), out) == ClusterNode.ToCandidate(old(View())) && lastUnixTimeInMs == now
    {
      BecomeCandidate(now);
      var onlineSiblings := siblings.GetSiblingsNeedAppendEntry();
      out := RequestVotes(onlineSiblings);
    }

    method RequestVotes(onlineSiblings: seq<int>) returns (out: seq<Send>)
      requires Valid() && role == Candidate
      modifies pf`position, pf`good
      ensures Valid() && out == ToAll(onlineSiblings, VoteRequest(View()))
    {
      out := [];
      for k := 0 to |onlineSiblings|
        invariant Valid() && out == ToAll(onlineSiblings[..k], VoteRequest(View()))
      {
        assert onlineSiblings[..k + 1][..k] == onlineSiblings[..k];
        var request := RequestVoteSend(onlineSiblings[k]);
        out := out + request;
      }
      assert onlineSiblings[..|onlineSiblings|] == onlineSiblings;
    }

    // -------------------------------------------------------------- append entry

    /** The entry to send next, if there is one, and the end of the log. */
    method FindNextEntry(index: int) returns (next: Option<Entry>, last: int)
      requires Valid()
      modifies pf`position, pf`good
      ensures Valid() && next == Find(log, index) && last == Last(log).index
    {
      var _, lastEntry := FindLastEntry();
      var found, nextEntry := FindEntry(index);
      return if found then Some(nextEntry) else None, lastEntry.index;
    }

    /** The message to a sibling whose next entry is given, or None for a step down. */
    method AppendEntryTo(s: int, nextEntryIndex: int, next: Option<Entry>) returns (m: Option<Message>)
      requires Valid()
      modifies pf`position, pf`good
      ensures Valid() && m == AppendMessage(View(), nextEntryIndex, next)
    {
      var index, term, entryCommand := 0, 0, "";
      if next.Some? { index, term, entryCommand := next.value.index, next.value.term, next.value.content; }
      var prevLogIndex, prevLogTerm := 0, 0;
      if nextEntryIndex > 1 {
        var found, entryBefore := FindEntry(nextEntryIndex - 1);
        if !found { return None; }
        prevLogIndex, prevLogTerm := entryBefore.index, entryBefore.term;
      }
      return Some(AppendEntry(currentTerm, clusterId, prevLogIndex, prevLogTerm, index, term, entryCommand,
                              commitIndex));
    }

    method SetEmptyAppendEntry(s: int, empty: bool)
      modifies siblings`emptyAppendEntry
      ensures View() == MarkedEmpty(old(View()), s, empty)
    {
      siblings.emptyAppendEntry := siblings.emptyAppendEntry[s := empty];
    }

    method SetAlreadyAppendEntry(s: int)
      modifies siblings`alreadyAppendEntry
      ensures View() == MarkedSent(old(View()), s)
    {
      siblings.alreadyAppendEntry := siblings.alreadyAppendEntry[s := true];
    }

    method AppendEntryNext(s: int, nextEntryIndex: int, nextEntry: Option<Entry>, now: int) returns (out: seq<Send>)
      requires Valid() && role == Leader
      modifies this`role, this`currentTerm, this`votedFor, this`lastUnixTimeInMs,
               siblings`alreadyAppendEntry, siblings`emptyAppendEntry, pf`position, pf`good
      ensures Valid() && Res(View(), out) == Appended(old(View()), s, nextEntryIndex, nextEntry)
      ensures lastUnixTimeInMs == if StoppedLeading() then now else old(lastUnixTimeInMs)
      ensures SteppedAside()
    {
      SetEmptyAppendEntry(s, nextEntry.None?);
      var message := AppendEntryTo(s, nextEntryIndex, nextEntry);
      if message.None? {
        ToFollow(currentTerm, now);
        return [];
      }
      SetAlreadyAppendEntry(s);
      return [Send(s, message.value)];
    }

    method AppendEntryFrom(s: int, nextEntryIndex: int, now: int) returns (out: seq<Send>)
      requires Valid() && role == Leader && nextEntryIndex == Number(siblings.nextIndexMap, s) && 1 <= nextEntryIndex
      modifies this`role, this`currentTerm, this`votedFor, this`lastUnixTimeInMs,
               siblings`alreadyAppendEntry, siblings`emptyAppendEntry, pf`position, pf`good
      ensures Valid() && Res(View(), out) == SendAppend(old(View()), s)
      ensures lastUnixTimeInMs == if StoppedLeading() then now else old(lastUnixTimeInMs)
      ensures SteppedAside()
    {
      SendAppendSteps(View(), s);
      var nextEntry, lastLogIndex := FindNextEntry(nextEntryIndex);
      if nextEntry.None? && nextEntryIndex > lastLogIndex + 1 {
        ToFollow(currentTerm, now);
        out := [];
      } else {
        out := AppendEntryNext(s, nextEntryIndex, nextEntry, now);
      }
    }

    /** Builds the append or heartbeat for one sibling; losing the place in the log is a step down. */
    method AppendEntrySend(s: int, now: int) returns (out: seq<Send>)
      requires Valid()
      modifies this`role, this`currentTerm, this`votedFor, this`lastUnixTimeInMs, this`exited,
               siblings`alreadyAppendEntry, siblings`emptyAppendEntry, pf`position, pf`good
      ensures Valid() && Res(View(), out) == SendAppend(old(View()), s)
      ensures lastUnixTimeInMs == if StoppedLeading() then now else old(lastUnixTimeInMs)
      ensures SteppedAside()
    {
      if role != Leader { exited := true; return []; }
      var nextEntryIndex := Number(siblings.nextIndexMap, s);
      if nextEntryIndex < 1 { exited := true; return []; }
      out := AppendEntryFrom(s, nextEntryIndex, now);
    }

    /** The check of the previous entry, with the truncation that goes with it. */
    method CheckPreviousLog(m: Message) returns (ok: bool)
      requires Valid() && m.AppendEntry?
      modifies this`log, pf
      ensures Valid() && (if ok then Accepted(log) else Rejected(log)) == CheckPrevious(old(log), m)
    {
      if m.prevIndex == 0 {
        ok := DeleteAnyEntry();
      } else {
        ok := CheckPreviousEntry(m);
      }
    }

    method CheckPreviousEntry(m: Message) returns (ok: bool)
      requires Valid() && m.AppendEntry? && m.prevIndex != 0
      modifies this`log, pf
      ensures Valid() && (if ok then Accepted(log) else Rejected(log)) == CheckPrevious(old(log), m)
    {
      var found, prevEntry := FindEntry(m.prevIndex);
      if !found { return false; }
      if prevEntry.term != m.prevTerm {
        var cut := DeleteEntryAfter(m.prevIndex);
        return false;
      }
      ok := MakeLast(m.prevIndex, m.prevTerm);
    }

    method DeleteAnyEntry() returns (none: bool)
      requires Valid()
      modifies this`log, pf
      ensures Valid() && none == (old(log) == []) && log == []
    {
      var any, _ := FindLastEntry();
      if any { DeleteAllEntry(); }
      return !any;
    }

    method MakeLast(index: int, term: int) returns (ok: bool)
      requires Valid()
      modifies this`log, pf
      ensures Valid()
      ensures var was := old(log);
              if Last(was).index == index && Last(was).term == term then ok && log == was
              else ok == DeleteFrom(was, index + 1).Some? && log == if ok then DeleteFrom(was, index + 1).value else was
    {
      var _, lastEntry := FindLastEntry();
      if lastEntry.index == index && lastEntry.term == term { return true; }
      ok := DeleteEntryAfter(index + 1);
    }

    /** The log part of a followed append: check, truncate, append. */
    method FollowLog(m: Message) returns (ok: bool)
      requires Valid() && m.AppendEntry?
      modifies this`log, pf
      ensures MessageFits(m) ==> Valid()
      ensures (if ok then Accepted(log) else Rejected(log)) == Follow(old(log), m)
    {
      ok := CheckPreviousLog(m);
      if ok && m.index != 0 && m.entryTerm != 0 {
        AppendToPF(Entry(m.index, m.entryTerm, m.content));
      }
    }

    /** The term check: turned away, or a follower of the sender. */
    method Recognise(m: Message, now: int) returns (ok: bool)
      requires m.AppendEntry?
      modifies this`role, this`currentTerm, this`votedFor, this`lastUnixTimeInMs, siblings`currentLeaderId
      ensures ok == !TurnsAway(old(View()), m)
      ensures View() == if ok then ClusterNode.Recognise(old(View()), m) else old(View())
      ensures lastUnixTimeInMs == if ok then now else old(lastUnixTimeInMs)
    {
      if role == Follower {
        if currentTerm < m.term { ToFollow(m.term, now); }
      } else if role == Candidate {
        if currentTerm > m.term { return false; }
        ToFollow(m.term, now);
      } else {
        if currentTerm > m.term { return false; }
        ToFollow(m.term, now);
      }
      lastUnixTimeInMs := now;
      siblings.currentLeaderId := m.leaderId;
      return true;
    }

    /** The commit index that follows the leader's, at most the end of the log; without a log the process ends. */
    method FollowCommit(leaderCommit: int) returns (ok: bool)
      modifies this`commitIndex, this`exited, pf`position, pf`good
      ensures old(Valid()) ==> Valid() && ok == (leaderCommit == 0 || log != [])
      ensures exited == (old(exited) || !ok)
      ensures old(Valid()) ==>
                commitIndex == if leaderCommit != 0 && ok then Min(leaderCommit, Last(log).index) else old(commitIndex)
    {
      if leaderCommit == 0 { return true; }
      var any, lastEntry := pf.FindLastEntry(NO_ENTRY);
      if !any { exited := true; return false; }
      commitIndex := Min(leaderCommit, lastEntry.index);
      return true;
    }

    method AppendEntryReceive(src: int, m: Message, now: int) returns (out: seq<Send>)
      requires Valid() && m.AppendEntry?
      modifies this`role, this`currentTerm, this`votedFor, this`lastUnixTimeInMs, this`commitIndex, this`exited,
               this`log, siblings`currentLeaderId, pf
      ensures MessageFits(m) ==> Valid() && Res(View(), out) == HandleAppend(old(View()), src, m)
      ensures lastUnixTimeInMs == if TurnsAway(old(View()), m) then old(lastUnixTimeInMs) else now
    {
      var recognised := Recognise(m, now);
      if !recognised { return [Send(src, AppendReply(currentTerm, false))]; }
      var ok := FollowLog(m);
      if !ok { return [Send(src, AppendReply(currentTerm, false))]; }
      var alive := FollowCommit(m.leaderCommit);
      if !alive { return []; }
      return [Send(src, AppendReply(currentTerm, true))];
    }

    method CheckIfEntryCouldCommit(index: int)
      modifies this`commitIndex
      ensures View() == CheckCommit(old(View()), index)
    {
      if commitIndex >= index { return; }
      var matchTotal := siblings.MatchTotal(index);
      if matchTotal < (|siblings.clusterIdVector| + 1) / 2 + 1 { return; }
      commitIndex := index;
    }

    /** The reply of a sibling, from its arguments; the text of the result may be neither true nor false. */
    method AppendReplyReceive(src: int, argv: seq<string>, now: int) returns (ok: bool)
      modifies this`role, this`currentTerm, this`votedFor, this`lastUnixTimeInMs, this`commitIndex, this`exited,
               siblings`alreadyAppendEntry, siblings`nextIndexMap, siblings`matchIndexMap
      ensures (ok, Res(View(), [])) == HearAppendReply(old(View()), src, argv)
      ensures lastUnixTimeInMs == if Restarted() then now else old(lastUnixTimeInMs)
    {
      if |argv| != 5 { exited := true; return true; }
      if role != Leader { return true; }
      var followerTerm := Stol(argv[2]);
      if followerTerm.None? { exited := true; return true; }
      if currentTerm < followerTerm.value {
        ToFollow(followerTerm.value, now);
        return true;
      }
      var known := siblings.ValidateClusterId(src);
      if !known { return argv[4] == "false" || argv[4] == "true"; }
      siblings.alreadyAppendEntry := siblings.alreadyAppendEntry[src := false];
      var next := Number(siblings.nextIndexMap, src);
      if argv[4] == "false" {
        if next > 1 { siblings.nextIndexMap := siblings.nextIndexMap[src := next - 1]; }
        return true;
      }
      if argv[4] == "true" {
        if Flag(siblings.emptyAppendEntry, src) { return true; }
        siblings.nextIndexMap := siblings.nextIndexMap[src := next + 1];
        siblings.matchIndexMap := siblings.matchIndexMap[src := next];
        CheckIfEntryCouldCommit(next);
        return true;
      }
      return false;
    }

    // -------------------------------------------------------------- votes

    /** The grant rule, for a log that ends in the given entry. */
    method DecideVote(src: int, m: Message, lastEntry: Entry, now: int) returns (out: seq<Send>)
      requires m.RequestVote? && lastEntry == Last(log)
      modifies this`role, this`currentTerm, this`votedFor, this`lastUnixTimeInMs
      ensures Res(View(), out) == HandleRequestVote(old(View()), src, m)
      ensures lastUnixTimeInMs == if Restarted() then now else old(lastUnixTimeInMs)
    {
      if currentTerm < m.term { ToFollow(m.term, now); }
      if currentTerm > m.term || lastEntry.term > m.lastTerm || lastEntry.index > m.lastIndex || votedFor != -1 {
        return [Send(src, VoteReply(currentTerm, false))];
      }
      votedFor := m.candidateId;
      return [Send(src, VoteReply(currentTerm, true))];
    }

    method RequestVoteReceive(src: int, argv: seq<string>, now: int) returns (out: seq<Send>)
      requires Valid()
      modifies this`role, this`currentTerm, this`votedFor, this`lastUnixTimeInMs, this`exited, pf`position, pf`good
      ensures Valid()
      ensures Res(View(), out) == HearRequestVote(old(View()), src, argv)
      ensures lastUnixTimeInMs == if Restarted() then now else old(lastUnixTimeInMs)
    {
      var request := ReadRequestVote(argv);
      if request.None? { exited := true; return []; }
      var _, lastEntry := FindLastEntry();
      out := DecideVote(src, request.value, lastEntry, now);
    }

    method IncreaseVote()
      modifies this`receiveVotes
      ensures View() == old(View()).(receiveVotes := old(receiveVotes) + 1)
    {
      receiveVotes := receiveVotes + 1;
    }

    method CountVote(replyTerm: int, voteGranted: bool, now: int)
      requires Valid() && role == Candidate
      modifies this`role, this`currentTerm, this`votedFor, this`lastUnixTimeInMs, this`commitIndex,
               this`lastEntryIndex, this`receiveVotes, siblings, pf`position, pf`good,
               parents`dealingIndexParentsMap
      ensures Valid() && View() == HandleVoteReply(old(View()), VoteReply(replyTerm, voteGranted))
      ensures lastUnixTimeInMs == if Restarted() then now else old(lastUnixTimeInMs)
      ensures parents.dealingIndexParentsMap == if Promoted() then map[] else old(parents.dealingIndexParentsMap)
    {
      if replyTerm > currentTerm {
        ToFollow(replyTerm, now);
        return;
      }
      if !voteGranted { return; }
      IncreaseVote();
      if receiveVotes >= winVoteBaseline { ToLead(); }
    }

    method VoteReplyReceive(src: int, argv: seq<string>, now: int)
      requires Valid()
      modifies this`role, this`currentTerm, this`votedFor, this`lastUnixTimeInMs, this`commitIndex, this`exited,
               this`lastEntryIndex, this`receiveVotes, siblings, pf`position, pf`good,
               parents`dealingIndexParentsMap
      ensures Valid() && Res(View(), []) == HearVoteReply(old(View()), src, argv)
      ensures lastUnixTimeInMs == if Restarted() then now else old(lastUnixTimeInMs)
      ensures parents.dealingIndexParentsMap == if Promoted() then map[] else old(parents.dealingIndexParentsMap)
    {
      if role != Candidate { return; }
      if |argv| < 5 { exited := true; return; }
      var replyTerm := Stol(argv[2]);
      if replyTerm.None? { exited := true; return; }
      CountVote(replyTerm.value, argv[4] == "true", now);
    }

    // -------------------------------------------------------------- commands from other nodes

    method AppendCommand(src: int, argv: seq<string>, now: int) returns (out: seq<Send>)
      requires Valid() && argv != [] && argv[0] == "appendentry"
      modifies this`role, this`currentTerm, this`votedFor, this`lastUnixTimeInMs, this`commitIndex, this`exited,
               this`log, siblings`currentLeaderId, pf
      ensures ArgvFits(argv) ==>
                && Valid() && Res(View(), out) == HearAppend(old(View()), src, argv) && !Promoted()
                && lastUnixTimeInMs == (if Restarted() || FollowsAppend(old(View()), argv) then now
                                        else old(lastUnixTimeInMs))
    {
      var request := ReadAppendEntry(argv);
      if request.None? { exited := true; return []; }
      HandleAppendCases(View(), src, request.value);
      AwayIsSame(View(), src, request.value);
      out := AppendEntryReceive(src, request.value, now);
    }

    method VoteCommand(src: int, argv: seq<string>, now: int) returns (out: seq<Send>)
      requires Valid() && argv != [] && argv[0] in {"requestvote", "replyrequestvote"}
      modifies this, siblings, pf, parents`dealingIndexParentsMap
      ensures Valid() && (true, Res(View(), out)) == Hear(old(View()), src, argv)
      ensures lastUnixTimeInMs == if Restarted() then now else old(lastUnixTimeInMs)
      ensures parents.dealingIndexParentsMap == if Promoted() then map[] else old(parents.dealingIndexParentsMap)
    {
      if argv[0] == "requestvote" {
        out := RequestVoteReceive(src, argv, now);
        return;
      }
      VoteReplyReceive(src, argv, now);
      return [];
    }

    /** Any of the four commands between nodes, with any arguments. */
    method ReceiveCommand(src: int, argv: seq<string>, now: int) returns (ok: bool, out: seq<Send>)
      requires Valid() && argv != [] && IsMessageName(argv[0])
      modifies this, siblings, pf, parents`dealingIndexParentsMap
      ensures ArgvFits(argv) ==> Valid() && (ok, Res(View(), out)) == Hear(old(View()), src, argv)
      ensures ArgvFits(argv) ==>
                && lastUnixTimeInMs == (if Restarted() || FollowsAppend(old(View()), argv) then now
                                        else old(lastUnixTimeInMs))
                && parents.dealingIndexParentsMap == (if Promoted() then map[]
                                                      else old(parents.dealingIndexParentsMap))
    {
      ok, out := true, [];
      if argv[0] == "requestvote" || argv[0] == "replyrequestvote" {
        out := VoteCommand(src, argv, now);
        return;
      }
      if argv[0] == "appendentry" {
        out := AppendCommand(src, argv, now);
        return;
      }
      ok := AppendReplyReceive(src, argv, now);
    }

    // -------------------------------------------------------------- clients

    /** A client's command: an entry of the leader, an address, or the advice to come again. */
    method ClusterDefault(client: int, content: string) returns (ok: bool, reply: seq<string>)
      requires Valid()
      modifies this`lastEntryIndex, this`log, pf`file, parents`dealingIndexParentsMap
      ensures StoresWell(old(View()), Request(content)) ==> Valid()
      ensures View() == HandleRequest(old(View()), content)
      ensures ok == (role == Leader ==> client in parents.parentsQueue)
      ensures parents.dealingIndexParentsMap == if role == Leader && ok
                                                then old(parents.dealingIndexParentsMap)[lastEntryIndex := client]
                                                else old(parents.dealingIndexParentsMap)
      ensures reply == match role
                       case Leader => []
                       case Follower => Answer(siblings.View(), siblings.Net())
                       case Candidate => ["retry"]
    {
      if role == Leader {
        lastEntryIndex := lastEntryIndex + 1;
        AppendToPF(Entry(lastEntryIndex, currentTerm, content));
        ok := parents.SetDealingIndex(lastEntryIndex, client);
        return ok, [];
      }
      if role == Follower {
        var known, leaderIP, leaderPort := siblings.GetLeaderIPAndPort();
        if !known { return true, ["cluster is not available now"]; }
        return true, ["redirect", "leaderip", leaderIP, "leaderport", ToString(leaderPort)];
      }
      return true, ["retry"];
    }

    /** The reply of a child server goes to the client that waits for the index flushed last. */
    method FlushReplyReceive(argv: seq<string>) returns (answered: Option<(int, string)>)
      modifies this`exited, parents`dealingIndexParentsMap
      ensures exited == (old(exited) || |argv| != 2)
      ensures var waiting, index := old(parents.dealingIndexParentsMap), children.lastApplied;
              if |argv| == 2 && role == Leader && index in waiting
              then answered == Some((waiting[index], argv[1])) && parents.dealingIndexParentsMap == waiting - {index}
              else answered == None && parents.dealingIndexParentsMap == waiting
    {
      if |argv| != 2 { exited := true; return None; }
      if role != Leader { return None; }
      var parent := parents.GetParentsByDealingIndex(children.lastApplied);
      if parent.None? { return None; }
      return Some((parent.value, argv[1]));
    }

    // -------------------------------------------------------------- timer

    /** The leader's loop over the siblings that need an append; exit(1) ends it. */
    method AppendToAll(onlineSiblings: seq<int>, now: int) returns (out: seq<Send>)
      requires Valid() && !exited && role == Leader
      modifies this`role, this`currentTerm, this`votedFor, this`lastUnixTimeInMs, this`exited,
               siblings`alreadyAppendEntry, siblings`emptyAppendEntry, pf`position, pf`good
      ensures Valid() && Res(View(), out) == SendAppends(old(View()), onlineSiblings)
      ensures SteppedAside() && lastUnixTimeInMs == if role == Follower then now else old(lastUnixTimeInMs)
    {
      out := [];
      var k := 0;
      while k < |onlineSiblings| && !exited
        invariant 0 <= k <= |onlineSiblings| && Valid()
        invariant Res(View(), out) == SendAppends(old(View()), onlineSiblings[..k])
        invariant currentTerm == old(currentTerm) && (role == Leader || role == Follower)
        invariant lastUnixTimeInMs == if role == Follower then now else old(lastUnixTimeInMs)
      {
        SendAppendsOne(old(View()), onlineSiblings, k);
        var sent := AppendEntrySend(onlineSiblings[k], now);
        out, k := out + sent, k + 1;
      }
      SendAppendsStops(old(View()), onlineSiblings, k);
    }

    /** What each role does in a cron of a working cluster. */
    method CronOfRole(now: int) returns (out: seq<Send>)
      requires Valid() && !exited && SiblingsBaseline(siblings.View())
      modifies this`role, this`currentTerm, this`votedFor, this`lastUnixTimeInMs, this`exited, this`receiveVotes,
               this`lastEntryIndex, this`commitIndex, siblings, pf`position, pf`good, parents`dealingIndexParentsMap
      ensures Valid()
      ensures Res(View(), out) == CronOf(old(View()), true, now - old(lastUnixTimeInMs) > electionTimeout)
      ensures lastUnixTimeInMs == if Restarted() then now else old(lastUnixTimeInMs)
      ensures parents.dealingIndexParentsMap == if Promoted() then map[] else old(parents.dealingIndexParentsMap)
      ensures siblings.Net() == old(siblings.Net())
    {
      out := [];
      if role == Leader {
        var onlineSiblings := siblings.GetSiblingsNeedAppendEntry();
        out := AppendToAll(onlineSiblings, now);
        return;
      }
      if role == Follower {
        var gap := now - lastUnixTimeInMs;
        if gap > electionTimeout { out := ToCandidate(now); }
        return;
      }
      out := CronOfCandidate(now);
    }

    method CronOfCandidate(now: int) returns (out: seq<Send>)
      requires Valid() && !exited && SiblingsBaseline(siblings.View()) && role == Candidate
      modifies this`role, this`currentTerm, this`votedFor, this`lastUnixTimeInMs, this`exited, this`receiveVotes,
               this`lastEntryIndex, this`commitIndex, siblings, pf`position, pf`good, parents`dealingIndexParentsMap
      ensures Valid()
      ensures Res(View(), out) == CronOf(old(View()), true, now - old(lastUnixTimeInMs) > electionTimeout)
      ensures lastUnixTimeInMs == if Restarted() then now else old(lastUnixTimeInMs)
      ensures parents.dealingIndexParentsMap == if Promoted() then map[] else old(parents.dealingIndexParentsMap)
      ensures siblings.Net() == old(siblings.Net())
    {
      out := [];
      var gap := now - lastUnixTimeInMs;
      if gap > electionTimeout {
        if receiveVotes >= winVoteBaseline {
          ToLead();
        } else if clusterId == 0 {
          exited := true;
        } else {
          out := ToCandidate(now);
        }
      }
    }

    method ConnectLostSiblings(reached: int -> bool) returns (greeted: seq<int>)
      modifies siblings
      ensures greeted == Lost(old(View()), old(siblings.connectTrying), reached)
      ensures View() == AddAll(old(View()), greeted)
      ensures siblings.Net() == old(siblings.Net()).(trying := SetAll(old(siblings.connectTrying), greeted, true))
    {
      greeted := siblings.ConnectLostSiblings(clusterId, commitIndex, reached);
      RegainedCanRegister(old(siblings.View()), old(siblings.connectTrying), clusterId, reached,
                          old(siblings.clusterIdVector));
      RegisteredAreAdded(old(View()), greeted);
    }

    /** Without a majority, or without all child servers, nobody leads; without a majority there is no leader. */
    method StepDown(now: int, siblingsReady: bool)
      modifies this`role, this`currentTerm, this`votedFor, this`lastUnixTimeInMs, siblings`currentLeaderId
      ensures View() == SteppedDown(old(View()), siblingsReady)
      ensures lastUnixTimeInMs == if Restarted() then now else old(lastUnixTimeInMs)
    {
      if role != Follower { ToFollow(currentTerm, now); }
      if !siblingsReady { siblings.currentLeaderId := -1; }
    }

    method CronSiblings(now: int, siblingsReady: bool, ghost childrenReady: bool, ghost timedOut: bool,
                        reached: int -> bool)
      returns (greeted: seq<int>)
      requires siblingsReady == SiblingsBaseline(siblings.View()) && !(siblingsReady && childrenReady)
      modifies this`role, this`currentTerm, this`votedFor, this`lastUnixTimeInMs, siblings
      ensures greeted == if siblingsReady then [] else Lost(old(View()), old(siblings.connectTrying), reached)
      ensures CronOf(AddAll(old(View()), greeted), childrenReady, timedOut) == Res(View(), [])
      ensures lastUnixTimeInMs == if Restarted() then now else old(lastUnixTimeInMs)
      ensures siblings.Net() == old(siblings.Net()).(trying := SetAll(old(siblings.connectTrying), greeted, true))
      ensures role == Follower
    {
      greeted := [];
      StepDown(now, siblingsReady);
      if !siblingsReady {
        greeted := ConnectLostSiblings(reached);
        IdleTick(old(View()), old(siblings.connectTrying), reached, childrenReady, timedOut);
      }
    }

    method CronChildren(connect: int -> Option<int>)
      requires Formed(children.View())
      modifies children`lastApplied, children`childPtrMap, children`connectStatus, children`consistentHashAndServerIdMap
      ensures Formed(children.View())
      ensures children.lastApplied == if AllConnected(old(children.View())) then old(children.lastApplied) else 0
      ensures var kids := old(children.View());
              children.View() == if AllConnected(kids) then kids else ChildServers.Reconnect(kids, connect, kids.ids)
    {
      var childrenReady := children.SatisfyWorkingBaseline();
      if !childrenReady {
        children.lastApplied := 0;
        children.ConnectLostChildren(connect);
      }
    }

    method WorkingBaselines() returns (siblingsReady: bool, childrenReady: bool)
      requires Formed(children.View())
      ensures siblingsReady == SiblingsBaseline(siblings.View()) && childrenReady == AllConnected(children.View())
    {
      siblingsReady := siblings.SatisfyWorkingBaseline();
      childrenReady := children.SatisfyWorkingBaseline();
    }

    /** A cron without a majority of siblings or without all child servers. */
    method CronIdle(now: int, siblingsReady: bool, childrenReady: bool, reached: int -> bool,
                    connect: int -> Option<int>)
      returns (out: seq<Send>, greeted: seq<int>, flushed: Flushed)
      requires Valid() && siblingsReady == SiblingsBaseline(siblings.View())
      requires childrenReady == AllConnected(children.View()) && !(siblingsReady && childrenReady)
      modifies this`role, this`currentTerm, this`votedFor, this`lastUnixTimeInMs, siblings,
               children`lastApplied, children`childPtrMap, children`connectStatus, children`consistentHashAndServerIdMap
      ensures Valid()
      ensures var kids := old(children.View());
              children.View() == if childrenReady then kids else ChildServers.Reconnect(kids, connect, kids.ids)
      ensures greeted == if siblingsReady && !childrenReady then []
                         else Lost(old(View()), old(siblings.connectTrying), reached)
      ensures flushed == Quiet && children.lastApplied == if childrenReady then old(children.lastApplied) else 0
      ensures Res(View(), out)
              == CronOf(AddAll(old(View()), greeted), childrenReady, now - old(lastUnixTimeInMs) > electionTimeout)
      ensures role == Follower && lastUnixTimeInMs == if Restarted() then now else old(lastUnixTimeInMs)
      ensures siblings.Net() == old(siblings.Net()).(trying := SetAll(old(siblings.connectTrying), greeted, true))
    {
      ghost var timedOut := now - lastUnixTimeInMs > electionTimeout;
      greeted := CronSiblings(now, siblingsReady, childrenReady, timedOut, reached);
      CronChildren(connect);
      out, flushed := [], Quiet;
    }

    /** The reconnect of a working cluster, which changes nothing that a cron depends on. */
    method CronReconnect(reached: int -> bool) returns (greeted: seq<int>)
      requires SiblingsBaseline(siblings.View())
      modifies siblings
      ensures greeted == Lost(old(View()), old(siblings.connectTrying), reached)
      ensures View() == AddAll(old(View()), greeted) && SiblingsBaseline(siblings.View())
      ensures siblings.Net() == old(siblings.Net()).(trying := SetAll(old(siblings.connectTrying), greeted, true))
    {
      RegainedCanRegister(siblings.View(), siblings.connectTrying, clusterId, reached, siblings.clusterIdVector);
      RegisteredAreAdded(View(), Lost(View(), siblings.connectTrying, reached));
      RegisterKeepsBaseline(siblings.View(), Lost(View(), siblings.connectTrying, reached), commitIndex);
      var all := siblings.HaveConnectAllSiblings();
      if all {
        NobodyLost(siblings.View(), siblings.connectTrying, clusterId, reached, siblings.clusterIdVector);
        return [];
      }
      greeted := ConnectLostSiblings(reached);
    }

    static function Sending(children: Children, flushed: Flushed, bufs: map<int, string>): map<int, string> {
      if flushed.Sent? then children.Filled(bufs, flushed.client, flushed.content) else bufs
    }

    method FlushServer() returns (flushed: Flushed)
      requires Valid() && !exited
      modifies this`exited, children`lastApplied, children`sendBufs, pf`position, pf`good
      ensures Valid() && View() == if flushed == Exit then old(View()).(halted := true) else old(View())
      ensures (flushed, children.lastApplied)
              == FlushOnce(children.View(), children.hasher, old(children.lastApplied), commitIndex, pf.file)
      ensures children.sendBufs == Sending(children, flushed, old(children.sendBufs))
    {
      flushed := children.FlushServer(commitIndex);
      if flushed == Exit { exited := true; }
    }

    /** A cron of a working cluster: reconnect, flush one command, do what the role asks for. */
    method CronWorking(now: int, reached: int -> bool) returns (out: seq<Send>, greeted: seq<int>, flushed: Flushed)
      requires Valid() && !exited && SiblingsBaseline(siblings.View())
      modifies this`role, this`currentTerm, this`votedFor, this`lastUnixTimeInMs, this`exited, this`receiveVotes,
               this`lastEntryIndex, this`commitIndex, siblings, children`lastApplied, children`sendBufs,
               pf`position, pf`good, parents`dealingIndexParentsMap
      ensures Valid() && greeted == Lost(old(View()), old(siblings.connectTrying), reached)
      ensures (flushed, children.lastApplied)
              == FlushOnce(children.View(), children.hasher, old(children.lastApplied), old(commitIndex), pf.file)
      ensures var n := AddAll(old(View()), greeted);
              Res(View(), out) == if flushed == Exit then Exited(n)
                                  else CronOf(n, true, now - old(lastUnixTimeInMs) > electionTimeout)
      ensures lastUnixTimeInMs == if Restarted() then now else old(lastUnixTimeInMs)
      ensures parents.dealingIndexParentsMap == if Promoted() then map[] else old(parents.dealingIndexParentsMap)
      ensures siblings.Net() == old(siblings.Net()).(trying := SetAll(old(siblings.connectTrying), greeted, true))
      ensures children.View() == old(children.View())
      ensures children.sendBufs == Sending(children, flushed, old(children.sendBufs))
    {
      greeted := CronReconnect(reached);
      flushed := FlushServer();
      out := [];
      if flushed != Exit { out := CronOfRole(now); }
    }

    /**
     * One cron. It is the registration of the siblings that a reconnect regains, followed by a
     * cron of the node model, unless the flush to the child servers ends the process; lastApplied
     * moves by the flush, or back to 0 when a child server is missing.
     */
    method Cron(now: int, reached: int -> bool, connect: int -> Option<int>)
      returns (out: seq<Send>, greeted: seq<int>, flushed: Flushed)
      requires Valid() && !exited
      modifies this`role, this`currentTerm, this`votedFor, this`lastUnixTimeInMs, this`exited, this`receiveVotes,
               this`lastEntryIndex, this`commitIndex, siblings, children`lastApplied, children`sendBufs,
               children`childPtrMap, children`connectStatus, children`consistentHashAndServerIdMap,
               pf`position, pf`good, parents`dealingIndexParentsMap
      ensures Valid()
      ensures var n, kids := old(View()), old(children.View());
              greeted == if SiblingsBaseline(n.table) && !AllConnected(kids) then []
                         else Lost(n, old(siblings.connectTrying), reached)
      ensures var n, kids := old(View()), old(children.View());
              (flushed, children.lastApplied)
              == if !AllConnected(kids) then (Quiet, 0)
                 else if !SiblingsBaseline(n.table) then (Quiet, old(children.lastApplied))
                 else FlushOnce(kids, children.hasher, old(children.lastApplied), n.commitIndex, pf.file)
      ensures var n := AddAll(old(View()), greeted);
              Res(View(), out) == if flushed == Exit then Exited(n)
                                  else CronOf(n, AllConnected(old(children.View())),
                                              now - old(lastUnixTimeInMs) > electionTimeout)
      ensures lastUnixTimeInMs == if Restarted() then now else old(lastUnixTimeInMs)
      ensures parents.dealingIndexParentsMap == if Promoted() then map[] else old(parents.dealingIndexParentsMap)
      ensures siblings.Net() == old(siblings.Net()).(trying := SetAll(old(siblings.connectTrying), greeted, true))
      ensures children.sendBufs == Sending(children, flushed, old(children.sendBufs))
      ensures var kids := old(children.View());
              children.View() == if AllConnected(kids) then kids else ChildServers.Reconnect(kids, connect, kids.ids)
    {
      var siblingsReady, childrenReady := WorkingBaselines();
      if siblingsReady && childrenReady {
        out, greeted, flushed := CronWorking(now, reached);
        return;
      }
      out, greeted, flushed := CronIdle(now, siblingsReady, childrenReady, reached, connect);
    }

    // -------------------------------------------------------------- connections

    method AddSibling(s: int) returns (ok: bool)
      modifies siblings
      ensures ok == CanRegister(old(siblings.View()), s) && View() == ClusterNode.AddSibling(old(View()), s)
    {
      ok := siblings.AddSiblings(s, commitIndex);
    }

    method ConfirmSibling(s: int) returns (ok: bool)
      modifies siblings
      ensures ok == (s in siblings.clusterIdVector) && View() == ClusterNode.ConfirmSibling(old(View()), s)
    {
      ok := siblings.ConfirmConnectSibling(s);
    }

    method DeleteSibling(s: int) returns (ok: bool)
      modifies siblings
      ensures ok == (s in siblings.clusterIdVector && Flag(old(siblings.registered), s))
      ensures View() == ClusterNode.DeleteSibling(old(View()), s)
    {
      ok := siblings.DeleteSiblings(s);
    }

    /** The greeting of a sibling on a client's connection: from now on it is the sibling's. */
    method ClusterNodeReceive(client: int, argv: seq<string>) returns (ok: bool, reply: seq<string>)
      requires parents.Valid()
      modifies this`exited, parents`parentsQueue, siblings
      ensures parents.Valid()
      ensures View() == Greeted(old(View()), old(parents.parentsQueue), client, argv)
      ensures var read := |argv| == 3 && Stoi(argv[2]).Some?;
              && reply == (if read && ok then Greeting(clusterId) else [])
              && (read ==> client !in parents.parentsQueue)
              && ok == (!read || (client in old(parents.parentsQueue)
                                  && CanRegister(old(siblings.View()), Stoi(argv[2]).value)))
    {
      if |argv| != 3 { exited := true; return true, []; }
      var siblingId := Stoi(argv[2]);
      if siblingId.None? { exited := true; return true, []; }
      ok := parents.DeleteParents(client);
      if !ok { return false, []; }
      ok := AddSibling(siblingId.value);
      if !ok { return false, []; }
      var confirmed := ConfirmSibling(siblingId.value);
      return true, Greeting(clusterId);
    }

    /** The answer to a greeting. */
    method ReplyClusterNodeReceive(src: int, argv: seq<string>) returns (ok: bool)
      modifies this`exited, siblings
      ensures (ok, View()) == Confirmed(old(View()), src, argv)
    {
      if |argv| != 5 { exited := true; return true; }
      var siblingId := Stoi(argv[2]);
      if siblingId.None? { exited := true; return true; }
      ok := ConfirmSibling(src);
    }

    method NodeCommand(ghost client: int, src: int, argv: seq<string>, ghost content: string, now: int)
      returns (ok: bool, out: seq<Send>)
      requires Valid() && argv != [] && IsMessageName(argv[0])
      modifies this, siblings, pf, parents`dealingIndexParentsMap
      ensures CommandFits(old(View()), argv, content) ==>
                && Valid()
                && (ok, Res(View(), out)) == Commanded(old(View()), parents.parentsQueue, client, src, argv, content)
                && lastUnixTimeInMs == (if Restarted() || FollowsAppend(old(View()), argv) then now
                                        else old(lastUnixTimeInMs))
                && parents.dealingIndexParentsMap
                   == Waiting(old(View()), old(parents.dealingIndexParentsMap), children.lastApplied, client, ok,
                              Promoted(), argv)
      ensures Reply(old(View()), old(siblings.Net()), ok, argv) == []
      ensures Answered(old(View()), old(parents.dealingIndexParentsMap), children.lastApplied, argv) == None
    {
      ok, out := ReceiveCommand(src, argv, now);
    }

    /** The commands by which two nodes make a connection theirs. */
    method ConnectionCommand(client: int, src: int, argv: seq<string>, ghost content: string)
      returns (ok: bool, reply: seq<string>)
      requires Valid() && argv != [] && argv[0] in {"clusternode", "replyclusternode"}
      modifies this`exited, parents`parentsQueue, siblings
      ensures Valid()
      ensures (ok, Res(View(), []))
              == Commanded(old(View()), old(parents.parentsQueue), client, src, argv, content)
      ensures reply == Reply(old(View()), old(siblings.Net()), ok, argv)
    {
      if argv[0] == "clusternode" {
        ok, reply := ClusterNodeReceive(client, argv);
        return;
      }
      ok := ReplyClusterNodeReceive(src, argv);
      return ok, [];
    }

    /** A child server's reply, or whatever else a client says. */
    method ClientCommand(client: int, ghost src: int, argv: seq<string>, content: string)
      returns (ok: bool, reply: seq<string>, answered: Option<(int, string)>)
      requires Valid() && argv != [] && !IsMessageName(argv[0]) && argv[0] !in {"clusternode", "replyclusternode"}
      modifies this`exited, this`lastEntryIndex, this`log, pf`file, parents`dealingIndexParentsMap
      ensures CommandFits(old(View()), argv, content) ==> Valid()
      ensures (ok, Res(View(), [])) == Commanded(old(View()), parents.parentsQueue, client, src, argv, content)
      ensures parents.dealingIndexParentsMap
              == Waiting(old(View()), old(parents.dealingIndexParentsMap), children.lastApplied, client, ok, false,
                         argv)
      ensures reply == Reply(old(View()), siblings.Net(), ok, argv)
      ensures answered == Answered(old(View()), old(parents.dealingIndexParentsMap), children.lastApplied, argv)
    {
      if argv[0] == "flushserver" {
        answered := FlushReplyReceive(argv);
        return true, [], answered;
      }
      ok, reply := ClusterDefault(client, content);
      return ok, reply, None;
    }

    /** selectCommand and the command itself; every name but the seven of the cluster is a client's command. */
    method ExecuteCommand(client: int, src: int, argv: seq<string>, content: string, now: int)
      returns (ok: bool, out: seq<Send>, reply: seq<string>, answered: Option<(int, string)>)
      requires Valid() && argv != []
      modifies this, siblings, pf, parents
      ensures CommandFits(old(View()), argv, content) ==>
                && Valid()
                && (ok, Res(View(), out))
                   == Commanded(old(View()), old(parents.parentsQueue), client, src, argv, content)
                && lastUnixTimeInMs == (if Restarted() || FollowsAppend(old(View()), argv) then now
                                        else old(lastUnixTimeInMs))
                && parents.dealingIndexParentsMap
                   == Waiting(old(View()), old(parents.dealingIndexParentsMap), children.lastApplied, client, ok,
                              Promoted(), argv)
      ensures reply == Reply(old(View()), old(siblings.Net()), ok, argv)
      ensures answered == Answered(old(View()), old(parents.dealingIndexParentsMap), children.lastApplied, argv)
    {
      ok, out, reply, answered := true, [], [], None;
      if IsMessageName(argv[0]) {
        ok, out := NodeCommand(client, src, argv, content, now);
        return;
      }
      if argv[0] == "clusternode" || argv[0] == "replyclusternode" {
        ok, reply := ConnectionCommand(client, src, argv, content);
        return;
      }
      ok, reply, answered := ClientCommand(client, src, argv, content);
    }
  }
}
