/** The consistent-hash ring over the child servers, as a list sorted by point. */
module Ring {
  import opened EntryLog

  const HASH_VALUE_MAX := 977

  datatype Spot = Spot(point: int, server: int)

  /** A std::map from points to servers. */
  ghost predicate Sorted(ring: seq<Spot>) {
    forall i, j :: 0 <= i < j < |ring| ==> ring[i].point < ring[j].point
  }

  /** operator[] =: a new point goes to its place, a known point gets the new server. */
  function Insert(ring: seq<Spot>, s: Spot): seq<Spot> {
    if ring == [] || s.point < ring[0].point then [s] + ring
    else if s.point == ring[0].point then [s] + ring[1..]
    else [ring[0]] + Insert(ring[1..], s)
  }

  /** The position of the first spot of a server, or |ring|. */
  function SpotOf(ring: seq<Spot>, server: int): (k: nat)
    ensures k <= |ring|
    ensures forall j :: 0 <= j < k ==> ring[j].server != server
    ensures k < |ring| ==> ring[k].server == server
  {
    if ring == [] || ring[0].server == server then 0 else 1 + SpotOf(ring[1..], server)
  }

  function Erase(ring: seq<Spot>, server: int): seq<Spot> {
    var k := SpotOf(ring, server);
    if k < |ring| then ring[..k] + ring[k + 1..] else ring
  }

  /** The position of the first spot at or behind a hash value, or |ring|. */
  function Successor(ring: seq<Spot>, hash: int): (k: nat)
    ensures k <= |ring|
    ensures forall j :: 0 <= j < k ==> ring[j].point < hash
    ensures k < |ring| ==> hash <= ring[k].point
  {
    if ring == [] || hash <= ring[0].point then 0 else 1 + Successor(ring[1..], hash)
  }

  /** The server for a hash value: behind the last point the ring starts again. */
  function Owner(ring: seq<Spot>, hash: int): int
    requires ring != []
  {
    var k := Successor(ring, hash);
    if k < |ring| then ring[k].server else ring[0].server
  }

  // ---------------------------------------------------------------- insertion and erasure

  /** A spot before all points of a sorted ring. */
  lemma ConsSorted(s: Spot, ring: seq<Spot>)
    requires Sorted(ring) && forall x :: x in ring ==> s.point < x.point
    ensures Sorted([s] + ring)
  {
    var out := [s] + ring;
    forall i, j | 0 <= i < j < |out| ensures out[i].point < out[j].point {
      assert out[j] == ring[j - 1];
      if i > 0 { assert out[i] == ring[i - 1]; }
    }
  }

  lemma FirstIsLeast(ring: seq<Spot>)
    requires Sorted(ring) && ring != []
    ensures Sorted(ring[1..]) && forall x :: x in ring[1..] ==> ring[0].point < x.point
    ensures forall x :: x in ring <==> x == ring[0] || x in ring[1..]
  {
    assert ring == [ring[0]] + ring[1..];
  }

  /** Insertion adds the spot in the place of the one at its point, if there is one, and nothing else. */
  lemma {:induction false} InsertSpots(ring: seq<Spot>, s: Spot)
    requires Sorted(ring)
    ensures Sorted(Insert(ring, s))
    ensures forall x :: x in Insert(ring, s) <==> x == s || (x in ring && x.point != s.point)
  {
    if ring == [] {
    } else if s.point < ring[0].point {
      FirstIsLeast(ring);
      ConsSorted(s, ring);
    } else if s.point == ring[0].point {
      FirstIsLeast(ring);
      ConsSorted(s, ring[1..]);
    } else {
      FirstIsLeast(ring);
      InsertSpots(ring[1..], s);
      ConsSorted(ring[0], Insert(ring[1..], s));
    }
  }

  lemma OneOutSorted(ring: seq<Spot>, k: nat)
    requires Sorted(ring) && k < |ring|
    ensures Sorted(ring[..k] + ring[k + 1..])
  {
    var out := ring[..k] + ring[k + 1..];
    assert forall i :: 0 <= i < k ==> out[i] == ring[i];
    assert forall i :: k <= i < |out| ==> out[i] == ring[i + 1];
  }

  lemma EraseSorted(ring: seq<Spot>, server: int)
    requires Sorted(ring)
    ensures Sorted(Erase(ring, server))
  {
    var k := SpotOf(ring, server);
    if k < |ring| { OneOutSorted(ring, k); }
  }

  /** Erasing takes away the spot of the server that comes first, and nothing else. */
  lemma EraseSpots(ring: seq<Spot>, server: int)
    requires Sorted(ring)
    ensures forall x :: x in Erase(ring, server)
                        <==> x in ring && (SpotOf(ring, server) < |ring| ==> x != ring[SpotOf(ring, server)])
  {
    var k := SpotOf(ring, server);
    if k < |ring| {
      var before, after := ring[..k], ring[k + 1..];
      assert ring == before + [ring[k]] + after;
      assert ring[k] !in before;
      assert ring[k] !in after;
    }
  }

  // ---------------------------------------------------------------- the owner, without positions

  /** The spot at or behind the hash value with the least point; without one, the least of all. */
  ghost predicate NextSpot(ring: seq<Spot>, hash: int, s: Spot) {
    && s in ring
    && (forall x :: x in ring && hash <= x.point ==> hash <= s.point <= x.point)
    && ((forall x :: x in ring ==> x.point < hash) ==> forall x :: x in ring ==> s.point <= x.point)
  }

  lemma NextExists(ring: seq<Spot>, hash: int) returns (s: Spot)
    requires Sorted(ring) && ring != []
    ensures NextSpot(ring, hash, s) && s.server == Owner(ring, hash)
  {
    var k := Successor(ring, hash);
    s := if k < |ring| then ring[k] else ring[0];
    forall x | x in ring && hash <= x.point ensures hash <= s.point <= x.point {
      var i :| 0 <= i < |ring| && ring[i] == x;
      assert i >= k;
    }
    if k < |ring| { assert ring[k] in ring; }
  }

  /** The loop finds the server at the next spot clockwise. */
  lemma OwnerIsNext(ring: seq<Spot>, hash: int, s: Spot)
    requires Sorted(ring) && NextSpot(ring, hash, s)
    ensures Owner(ring, hash) == s.server
  {
  }

  // ---------------------------------------------------------------- what moves

  /** Removing a spot changes the owner only of the hash values it owned. */
  lemma RemovalMovesOnlyItsOwn(ring: seq<Spot>, smaller: seq<Spot>, gone: Spot, hash: int)
    requires Sorted(ring) && Sorted(smaller) && gone in ring
    requires forall x :: x in smaller <==> x in ring && x != gone
    requires Owner(ring, hash) != gone.server
    ensures smaller != [] && Owner(smaller, hash) == Owner(ring, hash)
  {
    var s := NextExists(ring, hash);
    assert s in smaller;
    assert hash <= gone.point ==> hash <= s.point;
    if forall x :: x in smaller ==> x.point < hash {
      assert gone.point < hash;
      assert forall x :: x in ring ==> x.point < hash;
    }
    OwnerIsNext(smaller, hash, s);
  }

  /** Adding a spot moves hash values only onto it. */
  lemma AdditionMovesOnlyOntoIt(ring: seq<Spot>, larger: seq<Spot>, added: Spot, hash: int)
    requires Sorted(ring) && Sorted(larger) && added !in ring && ring != []
    requires forall x :: x in larger <==> x in ring || x == added
    ensures larger != []
    ensures Owner(larger, hash) == Owner(ring, hash) || Owner(larger, hash) == added.server
  {
    assert added in larger;
    if Owner(larger, hash) != added.server {
      RemovalMovesOnlyItsOwn(larger, ring, added, hash);
    }
  }
}
