/** The child servers of a cluster node: who is connected, whose a key is, and what is flushed to whom. */
module ChildServers {
  import opened EntryLog
  import opened Decimal
  import opened Protocol
  import opened RoundTrip
  import opened Records
  import opened Ring

  datatype Kids = Kids(
    ids: seq<int>,
    child: map<int, Option<int>>,   // the connection, None for a null pointer
    status: map<int, bool>,
    ring: seq<Spot>)

  function Ids(total: nat): (ids: seq<int>)
    ensures |ids| == total && forall i :: 0 <= i < total ==> ids[i] == i + 1
  {
    if total == 0 then [] else Ids(total - 1) + [total]
  }

  /** recognizeChildren: nobody is connected yet. */
  function Recognized(total: nat): (k: Kids)
    ensures k.ids == Ids(total) && k.ring == []
    ensures Formed(k)
    ensures forall id :: id in k.ids ==> k.child[id] == None && !k.status[id]
  {
    if total == 0 then Kids([], map[], map[], [])
    else
      var k := Recognized(total - 1);
      k.(ids := k.ids + [total], child := k.child[total := None], status := k.status[total := false])
  }

  /** Every configured server has its entries. */
  predicate Formed(k: Kids) {
    forall i :: 0 <= i < |k.ids| ==> k.ids[i] in k.child && k.ids[i] in k.status
  }

  function Unit(k: Kids): int
    requires k.ids != []
  {
    HASH_VALUE_MAX / |k.ids|
  }

  function Add(k: Kids, id: int, client: int): (bool, Kids)
    requires Formed(k)
  {
    if id !in k.ids || k.child[id].Some? then (false, k)
    else (true, k.(child := k.child[id := Some(client)], status := k.status[id := true],
                   ring := Insert(k.ring, Spot(Unit(k) * id, id))))
  }

  /** getChildrenId: the first server with this connection. */
  function IdOf(k: Kids, ids: seq<int>, client: int): (r: Option<int>)
    requires forall i :: 0 <= i < |ids| ==> ids[i] in k.child
    ensures r.Some? ==> r.value in ids && r.value in k.child && k.child[r.value] == Some(client)
    ensures r.None? ==> forall i :: 0 <= i < |ids| ==> k.child[ids[i]] != Some(client)
  {
    if ids == [] then None
    else if k.child[ids[0]] == Some(client) then Some(ids[0])
    else IdOf(k, ids[1..], client)
  }

  function Delete(k: Kids, client: int): (bool, Kids)
    requires Formed(k)
  {
    match IdOf(k, k.ids, client)
    case None => (false, k)
    case Some(id) =>
      (true, k.(child := k.child[id := None], status := k.status[id := false], ring := Erase(k.ring, id)))
  }

  /** satisfyWorkingBaseling: every configured server is connected. */
  predicate AllConnected(k: Kids)
    requires Formed(k)
  {
    forall i :: 0 <= i < |k.ids| ==> k.status[k.ids[i]]
  }

  /**
   * connectLostChildren over a list of servers; `connect` is the connection that can be opened to
   * one, if any. The first failure ends it.
   */
  function Reconnect(k: Kids, connect: int -> Option<int>, ids: seq<int>): (k': Kids)
    requires Formed(k) && forall i :: 0 <= i < |ids| ==> ids[i] in k.ids
    ensures Formed(k') && k'.ids == k.ids
    decreases |ids|
  {
    if ids == [] then k
    else if k.status[ids[0]] then Reconnect(k, connect, ids[1..])
    else
      match connect(ids[0])
        case None => k
        case Some(client) =>
          var (ok, k1) := Add(k, ids[0], client);
          if ok then Reconnect(k1, connect, ids[1..]) else k
  }

  // ---------------------------------------------------------------- the ring is the connected servers

  ghost predicate OnRing(k: Kids, s: Spot)
    requires k.ids != [] && Formed(k)
  {
    s.server in k.ids && k.status[s.server] && s.point == Unit(k) * s.server
  }

  ghost predicate Consistent(k: Kids) {
    && Formed(k) && k.ids == Ids(|k.ids|)
    && (forall id :: id in k.ids ==> k.status[id] == k.child[id].Some?)
    && Sorted(k.ring)
    && (if k.ids == [] then k.ring == [] else forall s :: s in k.ring <==> OnRing(k, s))
  }

  /** Ring points of different servers differ exactly if there are no more servers than hash values. */
  lemma PointsDistinct(k: Kids)
    requires |k.ids| >= 2 && k.ids == Ids(|k.ids|)
    ensures (forall a, b :: a in k.ids && b in k.ids && a != b ==> Unit(k) * a != Unit(k) * b)
            <==> |k.ids| <= HASH_VALUE_MAX
  {
    if |k.ids| <= HASH_VALUE_MAX {
      UnitPositive(k);
      forall a, b | a in k.ids && b in k.ids && a != b ensures Unit(k) * a != Unit(k) * b {
        DistinctProducts(Unit(k), a, b);
      }
    } else {
      assert Unit(k) == 0;
      assert k.ids[0] in k.ids && k.ids[1] in k.ids;
      assert Unit(k) * k.ids[0] == Unit(k) * k.ids[1];
    }
  }

  lemma UnitPositive(k: Kids)
    requires 1 <= |k.ids| <= HASH_VALUE_MAX
    ensures Unit(k) >= 1
  {
  }

  lemma DistinctProducts(u: int, a: int, b: int)
    requires u >= 1 && a != b
    ensures u * a != u * b
  {
    if a < b {
      assert u * (b - a) >= 1;
    } else {
      assert u * (a - b) >= 1;
    }
  }

  lemma AddKeepsConsistent(k: Kids, id: int, client: int)
    requires Consistent(k) && |k.ids| <= HASH_VALUE_MAX
    ensures Consistent(Add(k, id, client).1)
  {
    var (ok, k') := Add(k, id, client);
    if ok {
      UnitPositive(k);
      var added := Spot(Unit(k) * id, id);
      InsertSpots(k.ring, added);
      forall s ensures s in k'.ring <==> OnRing(k', s) {
        if s != added && s in k.ring { DistinctProducts(Unit(k), s.server, id); }
      }
    }
  }

  lemma DeleteKeepsConsistent(k: Kids, client: int)
    requires Consistent(k)
    ensures Consistent(Delete(k, client).1)
  {
    var id := IdOf(k, k.ids, client);
    if id.Some? {
      var k' := Delete(k, client).1;
      EraseSorted(k.ring, id.value);
      EraseSpots(k.ring, id.value);
      var gone := Spot(Unit(k) * id.value, id.value);
      assert OnRing(k, gone);
      assert gone in k.ring;
      var at := k.ring[SpotOf(k.ring, id.value)];
      assert at in k.ring && OnRing(k, at) && at == gone;
      forall s ensures s in k'.ring <==> OnRing(k', s) {
        if s in k.ring && s.server == id.value { assert s == gone; }
      }
    }
  }

  // ---------------------------------------------------------------- reconnecting

  /** A server's status says whether it has a connection. */
  ghost predicate Honest(k: Kids) {
    Formed(k) && forall id :: id in k.ids ==> k.status[id] == k.child[id].Some?
  }

  ghost predicate Apart(ids: seq<int>) { forall i, j :: 0 <= i < j < |ids| ==> ids[i] != ids[j] }

  /** Up to this place of the list every server is connected or can be. */
  ghost predicate Opens(k: Kids, connect: int -> Option<int>, ids: seq<int>, i: nat)
    requires i < |ids| && Formed(k) && forall j :: 0 <= j < |ids| ==> ids[j] in k.ids
  {
    forall j :: 0 <= j <= i ==> k.status[ids[j]] || connect(ids[j]).Some?
  }

  /** What a server's connection is after the reconnect. */
  ghost function Opened(k: Kids, connect: int -> Option<int>, ids: seq<int>, i: nat): Option<int>
    requires i < |ids| && Formed(k) && forall j :: 0 <= j < |ids| ==> ids[j] in k.ids
  {
    if k.status[ids[i]] then k.child[ids[i]] else if Opens(k, connect, ids, i) then connect(ids[i]) else None
  }

  lemma AddHonest(k: Kids, id: int, client: int)
    requires Honest(k) && id in k.ids && !k.status[id]
    ensures var k' := Add(k, id, client).1;
            && Add(k, id, client).0 && Honest(k') && k'.ids == k.ids && k'.child == k.child[id := Some(client)]
            && k'.status == k.status[id := true]
  {
  }

  /**
   * A reconnect connects the missing servers in order up to the first that cannot be reached, each
   * with the connection opened to it, and leaves all others as they are.
   */
  lemma {:induction false} ReconnectExactly(k: Kids, connect: int -> Option<int>, ids: seq<int>)
    requires Honest(k) && Apart(ids) && forall i :: 0 <= i < |ids| ==> ids[i] in k.ids
    ensures var k' := Reconnect(k, connect, ids);
            && Honest(k') && k'.ids == k.ids
            && (forall i :: 0 <= i < |ids| ==> k'.child[ids[i]] == Opened(k, connect, ids, i))
            && (forall id :: id in k.ids && id !in ids ==> k'.child[id] == k.child[id])
    decreases |ids|
  {
    if ids == [] {
    } else if k.status[ids[0]] {
      ReconnectRest(k, k, connect, ids);
    } else if connect(ids[0]).Some? {
      AddHonest(k, ids[0], connect(ids[0]).value);
      ReconnectRest(k, Add(k, ids[0], connect(ids[0]).value).1, connect, ids);
    } else {
      forall i | 0 <= i < |ids| ensures !Opens(k, connect, ids, i) {
        assert !k.status[ids[0]] && connect(ids[0]).None?;
      }
    }
  }

  /** The rest of the list, once its first server is connected. */
  lemma {:induction false} ReconnectRest(k: Kids, k1: Kids, connect: int -> Option<int>, ids: seq<int>)
    requires Honest(k) && Honest(k1) && Apart(ids) && ids != [] && k1.ids == k.ids
    requires forall i :: 0 <= i < |ids| ==> ids[i] in k.ids
    requires forall id :: id in k.ids && id != ids[0] ==> k1.child[id] == k.child[id]
    requires k1.status[ids[0]] && k1.child[ids[0]] == Opened(k, connect, ids, 0)
    ensures var k' := Reconnect(k1, connect, ids[1..]);
            && Honest(k') && k'.ids == k.ids
            && (forall i :: 0 <= i < |ids| ==> k'.child[ids[i]] == Opened(k, connect, ids, i))
            && (forall id :: id in k.ids && id !in ids ==> k'.child[id] == k.child[id])
    decreases |ids|, 0
  {
    var rest := ids[1..];
    ReconnectExactly(k1, connect, rest);
    var k' := Reconnect(k1, connect, rest);
    forall i | 0 < i < |ids| ensures k'.child[ids[i]] == Opened(k, connect, ids, i) {
      assert rest[i - 1] == ids[i] && k1.status[ids[i]] == k.status[ids[i]];
      assert k'.child[rest[i - 1]] == Opened(k1, connect, rest, i - 1);
      OpensRest(k, k1, connect, ids, i);
    }
    assert ids[0] !in rest;
  }

  lemma OpensRest(k: Kids, k1: Kids, connect: int -> Option<int>, ids: seq<int>, i: nat)
    requires Formed(k) && Formed(k1) && Apart(ids) && 0 < i < |ids| && k1.ids == k.ids
    requires forall i :: 0 <= i < |ids| ==> ids[i] in k.ids
    requires forall id :: id in k.ids && id != ids[0] ==> k1.status[id] == k.status[id]
    requires k.status[ids[0]] || connect(ids[0]).Some?
    ensures Opens(k1, connect, ids[1..], i - 1) <==> Opens(k, connect, ids, i)
  {
    var rest := ids[1..];
    if Opens(k1, connect, rest, i - 1) {
      forall j | 0 <= j <= i ensures k.status[ids[j]] || connect(ids[j]).Some? {
        if j > 0 { assert rest[j - 1] == ids[j]; }
      }
    }
    if Opens(k, connect, ids, i) {
      forall j | 0 <= j <= i - 1 ensures k1.status[rest[j]] || connect(rest[j]).Some? {
        assert rest[j] == ids[j + 1];
      }
    }
  }

  lemma {:induction false} ReconnectKeepsConsistent(k: Kids, connect: int -> Option<int>, ids: seq<int>)
    requires Consistent(k) && |k.ids| <= HASH_VALUE_MAX && forall i :: 0 <= i < |ids| ==> ids[i] in k.ids
    ensures Consistent(Reconnect(k, connect, ids))
    decreases |ids|
  {
    if ids != [] {
      if k.status[ids[0]] {
        ReconnectKeepsConsistent(k, connect, ids[1..]);
      } else if connect(ids[0]).Some? {
        AddKeepsConsistent(k, ids[0], connect(ids[0]).value);
        ReconnectKeepsConsistent(Add(k, ids[0], connect(ids[0]).value).1, connect, ids[1..]);
      }
    }
  }

  datatype Change = Connect(id: int, client: int) | Disconnect(client: int)

  function KidsAfter(total: nat, changes: seq<Change>): (k: Kids)
    ensures Formed(k) && k.ids == Ids(total)
  {
    if changes == [] then Recognized(total)
    else
      var k := KidsAfter(total, changes[..|changes| - 1]);
      match changes[|changes| - 1]
      case Connect(id, client) => Add(k, id, client).1
      case Disconnect(client) => Delete(k, client).1
  }

  lemma {:induction false} RingIsConnected(total: nat, changes: seq<Change>)
    requires total <= HASH_VALUE_MAX
    ensures Consistent(KidsAfter(total, changes))
  {
    if changes == [] {
      var k := Recognized(total);
      if total > 0 { forall s ensures s in k.ring <==> OnRing(k, s) {} }
    } else {
      RingIsConnected(total, changes[..|changes| - 1]);
      var k := KidsAfter(total, changes[..|changes| - 1]);
      match changes[|changes| - 1]
      case Connect(id, client) => AddKeepsConsistent(k, id, client);
      case Disconnect(client) => DeleteKeepsConsistent(k, client);
    }
  }

  ghost predicate AlwaysConsistent(total: nat) {
    forall changes: seq<Change> :: Consistent(KidsAfter(total, changes))
  }

  lemma AfterConnect(total: nat, changes: seq<Change>, id: int, client: int)
    ensures KidsAfter(total, changes + [Connect(id, client)]) == Add(KidsAfter(total, changes), id, client).1
  {
    assert (changes + [Connect(id, client)])[..|changes|] == changes;
  }

  lemma RingCollapses(total: nat)
    requires total > HASH_VALUE_MAX
    ensures !Consistent(KidsAfter(total, [Connect(1, 0), Connect(2, 0)]))
  {
    var one, two := [Connect(1, 0)], [Connect(1, 0), Connect(2, 0)];
    assert [] + one == one && one + [Connect(2, 0)] == two;
    AfterConnect(total, [], 1, 0);
    AfterConnect(total, one, 2, 0);
    FirstTwo(total);
    SpotsCollapse(Recognized(total));
  }

  lemma FirstTwo(total: nat)
    requires total >= 2
    ensures 1 in Recognized(total).ids && 2 in Recognized(total).ids
  {
    var ids := Recognized(total).ids;
    assert ids[0] in ids && ids[1] in ids;
  }

  /** With more servers than hash values the second connection takes the place of the first on the ring. */
  lemma SpotsCollapse(k: Kids)
    requires Formed(k) && |k.ids| > HASH_VALUE_MAX && 1 in k.ids && 2 in k.ids && k.ring == []
    requires k.child[1].None? && k.child[2].None?
    ensures !Consistent(Add(Add(k, 1, 0).1, 2, 0).1)
  {
    var k1, k2 := Add(k, 1, 0).1, Add(Add(k, 1, 0).1, 2, 0).1;
    assert Unit(k) == 0;
    assert k1.ring == Insert([], Spot(0, 1)) == [Spot(0, 1)];
    assert k2.ring == Insert(k1.ring, Spot(0, 2)) == [Spot(0, 2)];
    assert OnRing(k2, Spot(0, 1)) && Spot(0, 1) !in k2.ring;
  }

  /**
   * Through all connections and losses the ring's servers are exactly the connected ones, each at
   * its own point, if and only if there are at most as many servers as hash values.
   */
  lemma RingIsConnectedExactly(total: nat)
    ensures AlwaysConsistent(total) <==> total <= HASH_VALUE_MAX
  {
    if total <= HASH_VALUE_MAX {
      forall changes: seq<Change> ensures Consistent(KidsAfter(total, changes)) { RingIsConnected(total, changes); }
    } else {
      RingCollapses(total);
    }
  }

  // ---------------------------------------------------------------- which keys move

  lemma DeleteMovesOnlyItsKeys(k: Kids, client: int, hash: int)
    requires Consistent(k) && k.ring != [] && Delete(k, client).0
    requires Owner(k.ring, hash) != IdOf(k, k.ids, client).value
    ensures var k' := Delete(k, client).1;
            k'.ring != [] && Owner(k'.ring, hash) == Owner(k.ring, hash)
  {
    var id := IdOf(k, k.ids, client).value;
    var k' := Delete(k, client).1;
    DeleteKeepsConsistent(k, client);
    var gone := Spot(Unit(k) * id, id);
    assert OnRing(k, gone);
    assert forall s :: OnRing(k', s) <==> OnRing(k, s) && s != gone;
    RemovalMovesOnlyItsOwn(k.ring, k'.ring, gone, hash);
  }

  lemma AddMovesKeysOnlyOntoIt(k: Kids, id: int, client: int, hash: int)
    requires Consistent(k) && |k.ids| <= HASH_VALUE_MAX && k.ring != [] && Add(k, id, client).0
    ensures var k' := Add(k, id, client).1;
            k'.ring != [] && (Owner(k'.ring, hash) == Owner(k.ring, hash) || Owner(k'.ring, hash) == id)
  {
    var k' := Add(k, id, client).1;
    AddKeepsConsistent(k, id, client);
    var added := Spot(Unit(k) * id, id);
    assert forall s :: OnRing(k', s) <==> OnRing(k, s) || s == added;
    assert !OnRing(k, added);
    AdditionMovesOnlyOntoIt(k.ring, k'.ring, added, hash);
  }
}
