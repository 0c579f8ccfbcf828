/** The sibling tables of a cluster node, updated in place. */
module SiblingsProgram {
  import opened EntryLog
  import opened Configuration
  import opened ClusterNode
  import opened World
  import opened Majority

  lemma SetAllExtends<T>(m: map<int, T>, ids: seq<int>, k: nat, v: T)
    requires k < |ids|
    ensures SetAll(m, ids[..k + 1], v) == SetAll(m, ids[..k], v)[ids[k] := v]
  {
    assert forall s :: s in ids[..k + 1] <==> s in ids[..k] || s == ids[k];
  }

  lemma OneMoreKey<V>(ids: seq<int>, id: int, v: V)
    ensures (map s | s in ids + [id] :: v) == (map s | s in ids :: v)[id := v]
  {
  }

  /** One more id of the range, if it is not the node's own. */
  lemma InitTableExtends(idMin: int, id: int, self: int)
    requires idMin <= id
    ensures var t := InitTable(Config(idMin, id - 1), self);
            InitTable(Config(idMin, id), self)
            == if id == self then t
               else Table(t.ids + [id], -1, t.registered[id := false], t.connected[id := false],
                          t.next[id := 0], t.matched[id := 0], t.already[id := false], map[])
  {
    var ids := SiblingIds(idMin, id - 1, self);
    if id == self {
      assert SiblingIds(idMin, id, self) == ids;
    } else {
      assert SiblingIds(idMin, id, self) == ids + [id];
      OneMoreKey(ids, id, false);
      OneMoreKey(ids, id, 0);
    }
  }

  /** The parts of the tables that no protocol step reads: addresses, and connections under way. */
  datatype Peers = Peers(ip: map<int, string>, port: map<int, int>, trying: map<int, bool>)

  const NO_PEERS := Peers(map[], map[], map[])

  const IP_KEY := "CLUSTER_IP_"
  const PORT_KEY := "CLUSTER_PORT_"

  function InitPeers(conf: Conf, ids: seq<int>): Peers
    requires AllReadable(conf, PORT_KEY, ids)
  {
    Peers(Texts(conf, IP_KEY, ids), Numbers(conf, PORT_KEY, ids), map s | s in ids :: false)
  }

  lemma InitPeersExtends(conf: Conf, ids: seq<int>, id: int)
    requires AllReadable(conf, PORT_KEY, ids) && NumberOf(conf, PORT_KEY, id).Some?
    ensures AllReadable(conf, PORT_KEY, ids + [id])
    ensures var p := InitPeers(conf, ids);
            InitPeers(conf, ids + [id])
            == Peers(p.ip[id := TextOf(conf, IP_KEY, id)], p.port[id := NumberOf(conf, PORT_KEY, id).value],
                     p.trying[id := false])
  {
    TextsExtend(conf, IP_KEY, ids, id);
    NumbersExtend(conf, PORT_KEY, ids, id);
    assert forall s :: s in ids + [id] <==> s in ids || s == id;
  }

  // ---------------------------------------------------------------- registering

  /** The table after a connection for the sibling has been registered. */
  function Register(t: Table, s: int, commitIndex: int): Table {
    t.(registered := t.registered[s := true], connected := t.connected[s := false],
       next := t.next[s := commitIndex + 1], matched := t.matched[s := 0], already := t.already[s := false])
  }

  function RegisterAll(t: Table, ids: seq<int>, commitIndex: int): Table {
    if ids == [] then t else Register(RegisterAll(t, ids[..|ids| - 1], commitIndex), ids[|ids| - 1], commitIndex)
  }

  predicate CanRegister(t: Table, s: int) {
    s in t.ids && !Flag(t.connected, s) && !Flag(t.registered, s)
  }

  lemma {:induction false} RegisterAllFlags(t: Table, ids: seq<int>, commitIndex: int, s: int)
    ensures var t' := RegisterAll(t, ids, commitIndex);
            && t'.ids == t.ids
            && Flag(t'.registered, s) == (Flag(t.registered, s) || s in ids)
            && Flag(t'.connected, s) == (Flag(t.connected, s) && s !in ids)
  {
    if ids != [] {
      var front, last := ids[..|ids| - 1], ids[|ids| - 1];
      RegisterAllFlags(t, front, commitIndex, s);
      assert s in ids <==> s in front || s == last;
    }
  }

  /**
   * The siblings that a reconnect registers, out of a list: those with a smaller id than the node,
   * neither connected nor on the way, which can be reached and are not registered yet.
   */
  function Regained(t: Table, trying: map<int, bool>, self: int, reached: int -> bool, ids: seq<int>): seq<int> {
    if ids == [] then []
    else
      var before := Regained(t, trying, self, reached, ids[..|ids| - 1]);
      var s := ids[|ids| - 1];
      if s < self && !Flag(trying, s) && reached(s) && s !in before && CanRegister(t, s) then before + [s] else before
  }

  /** Exactly those, each once. */
  lemma {:induction false} RegainedExactly(t: Table, trying: map<int, bool>, self: int, reached: int -> bool,
                                           ids: seq<int>)
    ensures var r := Regained(t, trying, self, reached, ids);
            && Distinct(r)
            && forall s :: s in r <==> s in ids && s < self && !Flag(trying, s) && reached(s) && CanRegister(t, s)
  {
    if ids != [] {
      var front, last := ids[..|ids| - 1], ids[|ids| - 1];
      RegainedExactly(t, trying, self, reached, front);
      assert forall s :: s in ids <==> s in front || s == last;
    }
  }

  class Siblings {
    var clusterIdVector: seq<int>
    var currentLeaderId: int
    var registered: map<int, bool>      // a client is stored for the sibling
    var connectStatus: map<int, bool>
    var nextIndexMap: map<int, int>
    var matchIndexMap: map<int, int>
    var alreadyAppendEntry: map<int, bool>
    var emptyAppendEntry: map<int, bool>
    var ipMap: map<int, string>
    var portMap: map<int, int>
    var connectTrying: map<int, bool>

    ghost function View(): Table
      reads this
    {
      Table(clusterIdVector, currentLeaderId, registered, connectStatus,
            nextIndexMap, matchIndexMap, alreadyAppendEntry, emptyAppendEntry)
    }

    ghost function Net(): Peers
      reads this
    {
      Peers(ipMap, portMap, connectTrying)
    }

    constructor ()
      ensures View() == Table([], -1, map[], map[], map[], map[], map[], map[]) && Net() == NO_PEERS
    {
      clusterIdVector, currentLeaderId := [], -1;
      registered, connectStatus := map[], map[];
      nextIndexMap, matchIndexMap := map[], map[];
      alreadyAppendEntry, emptyAppendEntry := map[], map[];
      ipMap, portMap, connectTrying := map[], map[], map[];
    }

    method StartSibling(id: int)
      modifies this`nextIndexMap, this`matchIndexMap, this`connectStatus, this`registered, this`connectTrying,
               this`alreadyAppendEntry
      ensures var t := old(View());
              View() == t.(registered := t.registered[id := false], connected := t.connected[id := false],
                           next := t.next[id := 0], matched := t.matched[id := 0], already := t.already[id := false])
      ensures connectTrying == old(connectTrying)[id := false]
    {
      nextIndexMap := nextIndexMap[id := 0];
      matchIndexMap := matchIndexMap[id := 0];
      connectStatus := connectStatus[id := false];
      registered := registered[id := false];
      connectTrying := connectTrying[id := false];
      alreadyAppendEntry := alreadyAppendEntry[id := false];
    }

    /** One sibling of the configuration; without a readable port the tables stay incomplete. */
    method RecognizeSibling(conf: Conf, id: int) returns (ok: bool)
      modifies this
      ensures ok == NumberOf(conf, PORT_KEY, id).Some?
      ensures var t := old(View());
              ok ==> View() == Table(t.ids + [id], t.leaderId, t.registered[id := false], t.connected[id := false],
                                     t.next[id := 0], t.matched[id := 0], t.already[id := false], t.empty)
      ensures var p := old(Net());
              ok ==> Net() == Peers(p.ip[id := TextOf(conf, IP_KEY, id)],
                                    p.port[id := NumberOf(conf, PORT_KEY, id).value], p.trying[id := false])
    {
      clusterIdVector := clusterIdVector + [id];
      var ip, port := TextOf(conf, IP_KEY, id), NumberOf(conf, PORT_KEY, id);
      if port.None? { return false; }
      ipMap := ipMap[id := ip];
      portMap := portMap[id := port.value];
      StartSibling(id);
      return true;
    }

    /** The tables of the ids of a range but the node's own. */
    static ghost predicate TablesBuilt(conf: Conf, idMin: int, idMax: int, self: int, t: Table, p: Peers) {
      && t == InitTable(Config(idMin, idMax), self)
      && AllReadable(conf, PORT_KEY, t.ids) && p == InitPeers(conf, t.ids)
    }

    static lemma TablesBuiltExtends(conf: Conf, idMin: int, id: int, self: int, t: Table, p: Peers)
      requires idMin <= id && TablesBuilt(conf, idMin, id - 1, self, t, p)
      requires id != self ==> NumberOf(conf, PORT_KEY, id).Some?
      ensures if id == self then TablesBuilt(conf, idMin, id, self, t, p)
              else TablesBuilt(conf, idMin, id, self,
                              Table(t.ids + [id], -1, t.registered[id := false], t.connected[id := false],
                                    t.next[id := 0], t.matched[id := 0], t.already[id := false], map[]),
                              Peers(p.ip[id := TextOf(conf, IP_KEY, id)],
                                    p.port[id := NumberOf(conf, PORT_KEY, id).value], p.trying[id := false]))
    {
      InitTableExtends(idMin, id, self);
      if id != self { InitPeersExtends(conf, t.ids, id); }
    }

    static lemma TablesBuiltAll(conf: Conf, idMin: int, idMax: int, last: int, self: int, t: Table, p: Peers)
      requires TablesBuilt(conf, idMin, last, self, t, p) && (last == idMax || (idMax < idMin && last < idMin))
      ensures TablesBuilt(conf, idMin, idMax, self, t, p)
    {
      assert SiblingIds(idMin, last, self) == SiblingIds(idMin, idMax, self);
    }

    /**
     * Builds the tables for all ids of the range but the node's own. An id below 1 ends the
     * process; a port that is no number is an error.
     */
    method RecognizeSiblings(conf: Conf, clusterId: int, idMin: int, idMax: int) returns (ok: bool, exited: bool)
      requires View() == Table([], -1, map[], map[], map[], map[], map[], map[]) && Net() == NO_PEERS
      modifies this
      ensures exited == (idMin < 1)
      ensures ok == (1 <= idMin && AllReadable(conf, PORT_KEY, SiblingIds(idMin, idMax, clusterId)))
      ensures ok ==> TablesBuilt(conf, idMin, idMax, clusterId, View(), Net())
    {
      if idMin < 1 { return false, true; }
      var idReading := idMin;
      while idReading <= idMax
        invariant idMin <= idReading && (idReading == idMin || idReading <= idMax + 1)
        invariant TablesBuilt(conf, idMin, idReading - 1, clusterId, View(), Net())
      {
        ghost var t, p := View(), Net();
        if idReading != clusterId {
          var readable := RecognizeSibling(conf, idReading);
          if !readable {
            Unreadable(conf, idMin, idMax, idReading, clusterId);
            return false, false;
          }
        }
        TablesBuiltExtends(conf, idMin, idReading, clusterId, t, p);
        idReading := idReading + 1;
      }
      TablesBuiltAll(conf, idMin, idMax, idReading - 1, clusterId, View(), Net());
      return true, false;
    }

    static lemma Unreadable(conf: Conf, idMin: int, idMax: int, id: int, self: int)
      requires idMin <= id <= idMax && id != self && NumberOf(conf, PORT_KEY, id).None?
      ensures !AllReadable(conf, PORT_KEY, SiblingIds(idMin, idMax, self))
    {
      SiblingIdsComplete(idMin, idMax, self);
    }

    method ValidateClusterId(clusterId: int) returns (ok: bool)
      ensures ok == (clusterId in clusterIdVector)
    {
      return clusterId in clusterIdVector;
    }

    method AddSiblings(clusterId: int, commitIndex: int) returns (ok: bool)
      modifies this
      ensures ok == CanRegister(old(View()), clusterId)
      ensures View() == if ok then Register(old(View()), clusterId, commitIndex) else old(View())
      ensures Net() == if ok then old(Net()).(trying := old(connectTrying)[clusterId := false]) else old(Net())
    {
      if clusterId !in clusterIdVector { return false; }
      if Flag(connectStatus, clusterId) { return false; }
      if Flag(registered, clusterId) { return false; }
      registered := registered[clusterId := true];
      connectStatus := connectStatus[clusterId := false];
      nextIndexMap := nextIndexMap[clusterId := commitIndex + 1];
      matchIndexMap := matchIndexMap[clusterId := 0];
      connectTrying := connectTrying[clusterId := false];
      alreadyAppendEntry := alreadyAppendEntry[clusterId := false];
      return true;
    }

    method DeleteSiblings(clusterId: int) returns (ok: bool)
      modifies this
      ensures ok == (clusterId in old(clusterIdVector) && Flag(old(registered), clusterId))
      ensures var t := old(View());
              View() == if !ok then t
                        else t.(registered := t.registered[clusterId := false],
                                connected := t.connected[clusterId := false],
                                next := t.next[clusterId := 0],
                                matched := t.matched[clusterId := 0],
                                already := t.already[clusterId := false],
                                leaderId := if clusterId == t.leaderId then -1 else t.leaderId)
      ensures Net() == if ok then old(Net()).(trying := old(connectTrying)[clusterId := false]) else old(Net())
    {
      if clusterId !in clusterIdVector { return false; }
      if !Flag(registered, clusterId) { return false; }
      registered := registered[clusterId := false];
      connectStatus := connectStatus[clusterId := false];
      nextIndexMap := nextIndexMap[clusterId := 0];
      matchIndexMap := matchIndexMap[clusterId := 0];
      connectTrying := connectTrying[clusterId := false];
      alreadyAppendEntry := alreadyAppendEntry[clusterId := false];
      if clusterId == currentLeaderId { currentLeaderId := -1; }
      return true;
    }

    method ConfirmConnectSibling(clusterId: int) returns (ok: bool)
      modifies this`connectStatus, this`connectTrying
      ensures ok == (clusterId in clusterIdVector)
      ensures connectStatus == if ok then old(connectStatus)[clusterId := true] else old(connectStatus)
      ensures connectTrying == if ok then old(connectTrying)[clusterId := false] else old(connectTrying)
    {
      ok := ValidateClusterId(clusterId);
      if ok {
        connectStatus := connectStatus[clusterId := true];
        connectTrying := connectTrying[clusterId := false];
      }
    }

    /** The leader's address; a leader id that no table knows reads as the C++ defaults. */
    method GetLeaderIPAndPort() returns (ok: bool, ip: string, port: int)
      ensures ok == (currentLeaderId != -1)
      ensures ip == if ok && currentLeaderId in ipMap then ipMap[currentLeaderId] else ""
      ensures port == if ok then Number(portMap, currentLeaderId) else 0
    {
      if currentLeaderId == -1 { return false, "", 0; }
      ip := if currentLeaderId in ipMap then ipMap[currentLeaderId] else "";
      return true, ip, Number(portMap, currentLeaderId);
    }

    method HaveConnectAllSiblings() returns (all: bool)
      ensures all == forall s :: s in clusterIdVector ==> Flag(connectStatus, s)
    {
      all := true;
      for k := 0 to |clusterIdVector|
        invariant all == forall s :: s in clusterIdVector[..k] ==> Flag(connectStatus, s)
      {
        all := all && Flag(connectStatus, clusterIdVector[k]);
        assert clusterIdVector[..k + 1] == clusterIdVector[..k] + [clusterIdVector[k]];
      }
      assert clusterIdVector[..|clusterIdVector|] == clusterIdVector;
    }

    /** A try at one lost sibling with a smaller id: open a connection, register it, and greet it. */
    method ConnectLostSibling(s: int, clusterId: int, commitIndex: int, reached: int -> bool) returns (ok: bool)
      modifies this
      ensures ok == (s < clusterId && !Flag(old(connectTrying), s) && reached(s) && CanRegister(old(View()), s))
      ensures View() == if ok then Register(old(View()), s, commitIndex) else old(View())
      ensures Net() == if ok then old(Net()).(trying := old(connectTrying)[s := true]) else old(Net())
    {
      if s >= clusterId || Flag(connectStatus, s) || Flag(connectTrying, s) || !reached(s) { return false; }
      ok := AddSiblings(s, commitIndex);
      if ok { connectTrying := connectTrying[s := true]; }
    }

    /** What the tries at the first siblings of a list have come to. */
    static ghost predicate Reconnected(t: Table, p: Peers, self: int, commitIndex: int, reached: int -> bool,
                                       ids: seq<int>, greeted: seq<int>, t': Table, p': Peers)
    {
      && greeted == Regained(t, p.trying, self, reached, ids)
      && t' == RegisterAll(t, greeted, commitIndex) && p' == p.(trying := SetAll(p.trying, greeted, true))
    }

    static lemma TryingSnoc(trying: map<int, bool>, greeted: seq<int>, s: int)
      ensures SetAll(trying, greeted + [s], true) == SetAll(trying, greeted, true)[s := true]
      ensures Flag(SetAll(trying, greeted, true), s) == (Flag(trying, s) || s in greeted)
    {
      assert forall i :: i in greeted + [s] <==> i in greeted || i == s;
    }

    static lemma RegisterAllSnoc(t: Table, greeted: seq<int>, commitIndex: int, s: int)
      ensures RegisterAll(t, greeted + [s], commitIndex)
              == Register(RegisterAll(t, greeted, commitIndex), s, commitIndex)
    {
      assert (greeted + [s])[..|greeted|] == greeted;
    }

    static lemma RegainedSnoc(t: Table, trying: map<int, bool>, self: int, reached: int -> bool, ids: seq<int>, s: int)
      ensures var before := Regained(t, trying, self, reached, ids);
              Regained(t, trying, self, reached, ids + [s])
              == if s < self && !Flag(trying, s) && reached(s) && s !in before && CanRegister(t, s) then before + [s]
                 else before
    {
      assert (ids + [s])[..|ids|] == ids;
    }

    static lemma ReconnectedSnoc(t: Table, p: Peers, self: int, commitIndex: int, reached: int -> bool,
                                 ids: seq<int>, s: int, greeted: seq<int>, t': Table, p': Peers)
      requires Reconnected(t, p, self, commitIndex, reached, ids, greeted, t', p')
      ensures if s < self && !Flag(p'.trying, s) && reached(s) && CanRegister(t', s)
              then Reconnected(t, p, self, commitIndex, reached, ids + [s], greeted + [s],
                               Register(t', s, commitIndex), p'.(trying := p'.trying[s := true]))
              else Reconnected(t, p, self, commitIndex, reached, ids + [s], greeted, t', p')
    {
      RegainedSnoc(t, p.trying, self, reached, ids, s);
      RegisterAllSnoc(t, greeted, commitIndex, s);
      RegisterAllFlags(t, greeted, commitIndex, s);
      TryingSnoc(p.trying, greeted, s);
    }

    /** Registers each lost sibling with a smaller id to which a connection can be opened, and greets it. */
    method ConnectLostSiblings(clusterId: int, commitIndex: int, reached: int -> bool) returns (greeted: seq<int>)
      modifies this
      ensures Reconnected(old(View()), old(Net()), clusterId, commitIndex, reached, old(clusterIdVector),
                          greeted, View(), Net())
      ensures Distinct(greeted)
      ensures forall s :: s in greeted <==> && s in old(clusterIdVector) && s < clusterId && reached(s)
                                            && !Flag(old(connectTrying), s) && CanRegister(old(View()), s)
    {
      greeted := [];
      for k := 0 to |clusterIdVector|
        invariant clusterIdVector == old(clusterIdVector)
        invariant Reconnected(old(View()), old(Net()), clusterId, commitIndex, reached, clusterIdVector[..k],
                              greeted, View(), Net())
      {
        var s := clusterIdVector[k];
        ReconnectedSnoc(old(View()), old(Net()), clusterId, commitIndex, reached, clusterIdVector[..k], s,
                        greeted, View(), Net());
        assert clusterIdVector[..k + 1] == clusterIdVector[..k] + [s];
        var ok := ConnectLostSibling(s, clusterId, commitIndex, reached);
        if ok { greeted := greeted + [s]; }
      }
      assert clusterIdVector[..|clusterIdVector|] == clusterIdVector;
      RegainedExactly(old(View()), old(connectTrying), clusterId, reached, clusterIdVector);
    }

    method GetSiblingsNeedAppendEntry() returns (online: seq<int>)
      ensures online == NeedAppend(View(), clusterIdVector)
    {
      online := [];
      for k := 0 to |clusterIdVector|
        invariant online == NeedAppend(View(), clusterIdVector[..k])
      {
        var clusterId := clusterIdVector[k];
        assert clusterIdVector[..k + 1][..k] == clusterIdVector[..k];
        if Flag(connectStatus, clusterId) && !Flag(alreadyAppendEntry, clusterId) {
          online := online + [clusterId];
        }
      }
      assert clusterIdVector[..|clusterIdVector|] == clusterIdVector;
    }

    method SatisfyWorkingBaseline() returns (ok: bool)
      ensures ok == SiblingsBaseline(View())
    {
      var siblingAliveNumber := 1;
      for k := 0 to |clusterIdVector|
        invariant siblingAliveNumber == 1 + CountFlag(clusterIdVector[..k], connectStatus)
      {
        assert clusterIdVector[..k + 1][..k] == clusterIdVector[..k];
        if Flag(connectStatus, clusterIdVector[k]) { siblingAliveNumber := siblingAliveNumber + 1; }
      }
      assert clusterIdVector[..|clusterIdVector|] == clusterIdVector;
      return siblingAliveNumber >= (|clusterIdVector| + 1) / 2 + 1;
    }

    method SetNextIndexBatch(newNextIndex: int)
      modifies this`nextIndexMap
      ensures nextIndexMap == SetAll(old(nextIndexMap), clusterIdVector, newNextIndex)
    {
      for k := 0 to |clusterIdVector|
        invariant nextIndexMap == SetAll(old(nextIndexMap), clusterIdVector[..k], newNextIndex)
      {
        SetAllExtends(old(nextIndexMap), clusterIdVector, k, newNextIndex);
        nextIndexMap := nextIndexMap[clusterIdVector[k] := newNextIndex];
      }
      assert clusterIdVector[..|clusterIdVector|] == clusterIdVector;
    }

    method SetMatchIndexBatch(newMatchIndex: int)
      modifies this`matchIndexMap
      ensures matchIndexMap == SetAll(old(matchIndexMap), clusterIdVector, newMatchIndex)
    {
      for k := 0 to |clusterIdVector|
        invariant matchIndexMap == SetAll(old(matchIndexMap), clusterIdVector[..k], newMatchIndex)
      {
        SetAllExtends(old(matchIndexMap), clusterIdVector, k, newMatchIndex);
        matchIndexMap := matchIndexMap[clusterIdVector[k] := newMatchIndex];
      }
      assert clusterIdVector[..|clusterIdVector|] == clusterIdVector;
    }

    method SetAlreadyAppendEntryBatch(already: bool)
      modifies this`alreadyAppendEntry
      ensures alreadyAppendEntry == SetAll(old(alreadyAppendEntry), clusterIdVector, already)
    {
      for k := 0 to |clusterIdVector|
        invariant alreadyAppendEntry == SetAll(old(alreadyAppendEntry), clusterIdVector[..k], already)
      {
        SetAllExtends(old(alreadyAppendEntry), clusterIdVector, k, already);
        alreadyAppendEntry := alreadyAppendEntry[clusterIdVector[k] := already];
      }
      assert clusterIdVector[..|clusterIdVector|] == clusterIdVector;
    }

    /** How many nodes, the leader counted, have an entry. */
    method MatchTotal(index: int) returns (matchTotal: int)
      ensures matchTotal == 1 + CountReached(clusterIdVector, matchIndexMap, index)
    {
      matchTotal := 1;
      for k := 0 to |clusterIdVector|
        invariant matchTotal == 1 + CountReached(clusterIdVector[..k], matchIndexMap, index)
      {
        assert clusterIdVector[..k + 1][..k] == clusterIdVector[..k];
        if Number(matchIndexMap, clusterIdVector[k]) >= index { matchTotal := matchTotal + 1; }
      }
      assert clusterIdVector[..|clusterIdVector|] == clusterIdVector;
    }
  }
}
