/** The child servers as a cluster node keeps them: maps and ring changed in place. */
module ChildrenProgram {
  import opened EntryLog
  import opened Configuration
  import opened Protocol
  import opened ProtocolProgram
  import opened Records
  import opened PersistenceProgram
  import opened Ring
  import opened ChildServers
  import opened Flush

  const TOTAL_KEY := "CLUSTER_SERVER_TOTAL"
  const IP_KEY := "CLUSTER_SERVER_IP_"
  const PORT_KEY := "CLUSTER_SERVER_PORT_"

  /** A loop from 1 to a total below 1 does nothing. */
  function Natural(total: int): nat { if total < 0 then 0 else total }

  class Children {
    const hasher: string -> nat
    const pf: PersistenceFile
    var serverIdVector: seq<int>
    var childPtrMap: map<int, Option<int>>
    var connectStatus: map<int, bool>
    var consistentHashAndServerIdMap: seq<Spot>
    var lastApplied: int
    var sendBufs: map<int, string>    // of the connections
    var ipMap: map<int, string>
    var portMap: map<int, int>

    ghost function View(): Kids
      reads this`serverIdVector, this`childPtrMap, this`connectStatus, this`consistentHashAndServerIdMap
    {
      Kids(serverIdVector, childPtrMap, connectStatus, consistentHashAndServerIdMap)
    }

    constructor (hasher: string -> nat, pf: PersistenceFile)
      ensures this.hasher == hasher && this.pf == pf
      ensures View() == Recognized(0) && lastApplied == 0 && sendBufs == map[] && ipMap == map[] && portMap == map[]
    {
      this.hasher := hasher;
      this.pf := pf;
      serverIdVector, childPtrMap, connectStatus, consistentHashAndServerIdMap := [], map[], map[], [];
      lastApplied, sendBufs := 0, map[];
      ipMap, portMap := map[], map[];
    }

    /** Registers the servers 1, 2, ... of the configuration; an unreadable number is an error. */
    method RecognizeChildren(conf: Conf) returns (ok: bool)
      requires View() == Recognized(0) && ipMap == map[] && portMap == map[]
      modifies this`serverIdVector, this`childPtrMap, this`connectStatus, this`ipMap, this`portMap
      ensures var total := NumberAt(conf, TOTAL_KEY);
              && ok == (total.Some? && AllReadable(conf, PORT_KEY, Ids(Natural(total.value))))
              && (ok ==> View() == Recognized(Natural(total.value)) && ipMap == Texts(conf, IP_KEY, serverIdVector)
                         && portMap == Numbers(conf, PORT_KEY, serverIdVector))
    {
      var childrenTotal := NumberAt(conf, TOTAL_KEY);
      if childrenTotal.None? { return false; }
      for id := 1 to Natural(childrenTotal.value) + 1
        invariant View() == Recognized(id - 1)
        invariant AllReadable(conf, PORT_KEY, serverIdVector)
        invariant ipMap == Texts(conf, IP_KEY, serverIdVector) && portMap == Numbers(conf, PORT_KEY, serverIdVector)
      {
        ghost var ids := serverIdVector;
        serverIdVector := serverIdVector + [id];
        childPtrMap := childPtrMap[id := None];
        connectStatus := connectStatus[id := false];
        ipMap := ipMap[id := TextOf(conf, IP_KEY, id)];
        var port := NumberOf(conf, PORT_KEY, id);
        if port.None? {
          assert Ids(Natural(childrenTotal.value))[id - 1] == id;
          return false;
        }
        portMap := portMap[id := port.value];
        TextsExtend(conf, IP_KEY, ids, id);
        NumbersExtend(conf, PORT_KEY, ids, id);
      }
      return true;
    }

    method SatisfyWorkingBaseline() returns (result: bool)
      requires Formed(View())
      ensures result == AllConnected(View())
    {
      result := true;
      for i := 0 to |serverIdVector|
        invariant result == forall j :: 0 <= j < i ==> connectStatus[serverIdVector[j]]
      {
        result := result && connectStatus[serverIdVector[i]];
      }
    }

    method ConnectLostChildren(connect: int -> Option<int>)
      requires Formed(View())
      modifies this`childPtrMap, this`connectStatus, this`consistentHashAndServerIdMap
      ensures Formed(View())
      ensures View() == if AllConnected(old(View())) then old(View())
                        else Reconnect(old(View()), connect, old(serverIdVector))
    {
      var satisfied := SatisfyWorkingBaseline();
      if satisfied { return; }
      assert serverIdVector[0..] == serverIdVector;
      ghost var goal := Reconnect(View(), connect, serverIdVector);
      for i := 0 to |serverIdVector|
        invariant Formed(View()) && serverIdVector == old(serverIdVector)
        invariant Reconnect(View(), connect, serverIdVector[i..]) == goal
      {
        assert serverIdVector[i..][1..] == serverIdVector[i + 1..];
        var id := serverIdVector[i];
        if connectStatus[id] { continue; }
        var newChild := connect(id);
        if newChild.None? { return; }
        var ok := AddChildren(id, newChild.value);
        if !ok { return; }
      }
    }

    method AddChildren(id: int, child: int) returns (ok: bool)
      requires Formed(View())
      modifies this`childPtrMap, this`connectStatus, this`consistentHashAndServerIdMap
      ensures (ok, View()) == Add(old(View()), id, child) && Formed(View())
    {
      if id !in serverIdVector { return false; }
      if childPtrMap[id].Some? { return false; }
      childPtrMap := childPtrMap[id := Some(child)];
      connectStatus := connectStatus[id := true];
      var hashUnit := HASH_VALUE_MAX / |serverIdVector|;
      var hashValue := hashUnit * id;
      consistentHashAndServerIdMap := Insert(consistentHashAndServerIdMap, Spot(hashValue, id));
      return true;
    }

    method GetChildrenId(child: int) returns (id: Option<int>)
      requires Formed(View())
      ensures id == IdOf(View(), serverIdVector, child)
    {
      assert serverIdVector[0..] == serverIdVector;
      for i := 0 to |serverIdVector|
        invariant IdOf(View(), serverIdVector[i..], child) == IdOf(View(), serverIdVector, child)
      {
        assert serverIdVector[i..][1..] == serverIdVector[i + 1..];
        if childPtrMap[serverIdVector[i]] == Some(child) { return Some(serverIdVector[i]); }
      }
      return None;
    }

    method DeleteChildren(child: int) returns (ok: bool)
      requires Formed(View())
      modifies this`childPtrMap, this`connectStatus, this`consistentHashAndServerIdMap
      ensures (ok, View()) == Delete(old(View()), child) && Formed(View())
    {
      var found := GetChildrenId(child);
      if found.None? { return false; }
      var id := found.value;
      childPtrMap := childPtrMap[id := None];
      connectStatus := connectStatus[id := false];
      var ring := consistentHashAndServerIdMap;
      var mapIt := 0;
      while mapIt < |ring| && ring[mapIt].server != id
        invariant mapIt <= SpotOf(ring, id)
      {
        mapIt := mapIt + 1;
      }
      if mapIt < |ring| {
        consistentHashAndServerIdMap := ring[..mapIt] + ring[mapIt + 1..];
      }
      return true;
    }

    /** The server behind a hash value, by the loop over the ring. */
    method FindServer(hashValue: int) returns (serverId: int)
      requires consistentHashAndServerIdMap != []
      ensures serverId == Owner(consistentHashAndServerIdMap, hashValue)
    {
      var ring := consistentHashAndServerIdMap;
      for i := 0 to |ring|
        invariant i <= Successor(ring, hashValue)
      {
        if hashValue <= ring[i].point { return ring[i].server; }
      }
      return ring[0].server;
    }

    method GetRespondServer(content: string) returns (r: Respond)
      requires Formed(View())
      ensures r == RespondServer(View(), hasher, content)
    {
      var pt := new ProtocolStream(true, false, "none");
      pt.FillReceiveBuf(content);
      var o := pt.ResolveReceiveBuf();
      if o == Failed { return Nobody; }
      if o != Done || pt.argv == [] { return Abort; }
      var strToHash := if |pt.argv| == 1 then pt.argv[0] else pt.argv[1];
      var hashValue := hasher(strToHash) % HASH_VALUE_MAX;
      if consistentHashAndServerIdMap == [] { return Nobody; }
      var serverId := FindServer(hashValue);
      if serverId !in childPtrMap || serverId !in connectStatus || !connectStatus[serverId] { return Abort; }
      match childPtrMap[serverId]
      case None => return Nobody;
      case Some(child) => return Server(child);
    }

    /** The send buffers with a command appended for a connection. */
    function Filled(bufs: map<int, string>, client: int, content: string): map<int, string> {
      bufs[client := (if client in bufs then bufs[client] else "") + content]
    }

    method FlushServer(commitIndex: int) returns (f: Flushed)
      requires Formed(View())
      modifies this`lastApplied, this`sendBufs, pf`position, pf`good
      ensures (f, lastApplied) == FlushOnce(View(), hasher, old(lastApplied), commitIndex, pf.file)
      ensures old(pf.Valid()) ==> pf.Valid()
      ensures sendBufs == if f.Sent? then Filled(old(sendBufs), f.client, f.content) else old(sendBufs)
      ensures f.Sent? ==>
                && sendBufs.Keys == old(sendBufs.Keys) + {f.client}
                && sendBufs[f.client] == (if f.client in old(sendBufs) then old(sendBufs)[f.client] else "") + f.content
                && forall c :: c in old(sendBufs) && c != f.client ==> sendBufs[c] == old(sendBufs)[c]
    {
      if commitIndex == lastApplied { return Quiet; }
      if commitIndex < lastApplied { return Exit; }
      lastApplied := lastApplied + 1;
      var found, sendingEntry := pf.FindEntry(lastApplied, NO_ENTRY);
      if !found { return Skipped(lastApplied); }
      var respondServer := GetRespondServer(sendingEntry.content);
      match respondServer
      case Nobody => return Skipped(lastApplied);
      case Abort => return Exit;
      case Server(client) =>
        sendBufs := Filled(sendBufs, client, sendingEntry.content);
        return Sent(lastApplied, client, sendingEntry.content);
    }
  }
}
