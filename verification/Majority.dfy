/** The configured cluster: who the siblings are, what a majority is, and that majorities meet. */
module Majority {
  import opened EntryLog
  import opened ClusterNode
  import opened NodeShape
  import opened World
  import opened LogMatching

  ghost predicate Distinct(ids: seq<int>) {
    forall i, j :: 0 <= i < j < |ids| ==> ids[i] != ids[j]
  }

  /** The sibling-building loop lists every other id of the range once. */
  lemma {:induction false} SiblingIdsComplete(lo: int, hi: int, self: int)
    ensures var ids := SiblingIds(lo, hi, self);
            && Distinct(ids)
            && (forall s :: s in ids <==> lo <= s <= hi && s != self)
            && |ids| == (if hi < lo then 0 else if lo <= self <= hi then hi - lo else hi - lo + 1)
    decreases hi - lo
  {
    if lo <= hi {
      var rest, ids := SiblingIds(lo, hi - 1, self), SiblingIds(lo, hi, self);
      SiblingIdsComplete(lo, hi - 1, self);
      assert hi !in rest;
      assert ids == rest || ids == rest + [hi];
      forall i, j | 0 <= i < j < |ids| ensures ids[i] != ids[j] {
        assert ids[i] == rest[i] && rest[i] in rest;
      }
    }
  }

  /**
   * The two computations of a majority agree exactly when the node is configured inside the
   * id range, or the range has an even number of ids.
   */
  lemma BaselineIsHalf(c: Config, id: int)
    requires c.idMin <= c.idMax
    ensures var n := InitNode(c, id);
            n.winVoteBaseline == HalfNumber(n.table) <==>
              c.idMin <= id <= c.idMax || (c.idMax - c.idMin + 1) % 2 == 0
  {
    SiblingIdsComplete(c.idMin, c.idMax, id);
  }

  // ---------------------------------------------------------------- sets of ids

  function IdRange(lo: int, hi: int): (r: set<int>)
    ensures forall s :: s in r <==> lo <= s <= hi
    decreases hi - lo
  {
    if hi < lo then {} else IdRange(lo, hi - 1) + {hi}
  }

  lemma {:induction false} RangeSize(lo: int, hi: int)
    requires lo <= hi + 1
    ensures |IdRange(lo, hi)| == hi - lo + 1
    decreases hi - lo
  {
    if lo <= hi { RangeSize(lo, hi - 1); }
  }

  lemma SubsetSize(a: set<int>, b: set<int>)
    requires a <= b
    ensures |a| <= |b|
  {
    assert b == a + (b - a);
  }

  /** Any two sets of half the cluster plus one share a node. */
  lemma QuorumsMeet(c: Config, a: set<int>, b: set<int>)
    requires c.idMin <= c.idMax
    requires a <= IdRange(c.idMin, c.idMax) && b <= IdRange(c.idMin, c.idMax)
    requires |a| >= (c.idMax - c.idMin + 1) / 2 + 1 && |b| >= (c.idMax - c.idMin + 1) / 2 + 1
    ensures exists x :: x in a && x in b
  {
    RangeSize(c.idMin, c.idMax);
    SubsetSize(a + b, IdRange(c.idMin, c.idMax));
    assert |a + b| + |a * b| == |a| + |b|;
    assert |a * b| > 0;
    var x :| x in a * b;
  }

  function Reached(ids: seq<int>, m: map<int, int>, index: int): set<int> {
    set s | s in ids && Number(m, s) >= index
  }

  /** Counting over a list without repetition is the size of a set. */
  lemma {:induction false} CountReachedIsSize(ids: seq<int>, m: map<int, int>, index: int)
    requires Distinct(ids)
    ensures CountReached(ids, m, index) == |Reached(ids, m, index)|
  {
    if ids != [] {
      var s := ids[|ids| - 1];
      var rest := ids[..|ids| - 1];
      CountReachedIsSize(rest, m, index);
      assert forall t :: t in ids <==> t in rest || t == s;
      if Number(m, s) >= index {
        assert Reached(ids, m, index) == Reached(rest, m, index) + {s};
        assert s !in rest;
      } else {
        assert Reached(ids, m, index) == Reached(rest, m, index);
      }
    } else {
      assert Reached(ids, m, index) == {};
    }
  }

  // ---------------------------------------------------------------- the configuration never changes

  ghost predicate Configured(w: World, c: Config) {
    && (forall x :: x in w.nodes <==> c.idMin <= x <= c.idMax)
    && (forall x :: x in w.nodes ==>
          && w.nodes[x].table.ids == SiblingIds(c.idMin, c.idMax, x)
          && w.nodes[x].winVoteBaseline == (c.idMax - c.idMin + 1) / 2 + 1)
  }

  lemma {:induction false} RunConfigured(c: Config, es: seq<Event>)
    ensures Configured(Run(c, es), c)
  {
    if es != [] {
      RunConfigured(c, es[..|es| - 1]);
      RunChronicled(c, es[..|es| - 1]);
      EventConfigured(Run(c, es[..|es| - 1]), es[|es| - 1], c);
    }
  }

  lemma EventConfigured(w: World, e: Event, c: Config)
    requires Chronicled(w) && Configured(w, c)
    ensures Configured(Apply(w, e), c)
  {
    if Enabled(w, e) { EventFits(w, e); }
  }
}
