/** What a leader's cron sends, whatever its tables hold: every append, every step down and every exit. */
module Sending {
  import opened EntryLog
  import opened ClusterNode
  import opened World
  import opened LogMatching
  import opened Bookkeeping
  import opened Terms
  import opened Leading

  /** The tables point into the log or just behind it. */
  predicate Inside(n: Node, s: int) { 1 <= Number(n.table.next, s) <= |n.log| + 1 }

  /** The append for a sibling: the entry at its nextIndex, if there is one, and what comes before. */
  ghost function AppendFor(n: Node, s: int): Message
    requires Inside(n, s)
  {
    var next := Number(n.table.next, s);
    var prevTerm := if next == 1 then 0 else n.log[next - 2].term;
    if next <= |n.log|
    then AppendEntry(n.term, n.id, next - 1, prevTerm,
                     next, n.log[next - 1].term, n.log[next - 1].content, n.commitIndex)
    else AppendEntry(n.term, n.id, next - 1, prevTerm, 0, 0, "", n.commitIndex)
  }

  lemma SendsInside(n: Node, s: int)
    requires n.role == Leader && Contiguous(n.log) && Inside(n, s)
    ensures SendAppend(n, s)
            == Res(n.(table := n.table.(empty := n.table.empty[s := Number(n.table.next, s) == |n.log| + 1],
                                        already := n.table.already[s := true])),
                   [Send(s, AppendFor(n, s))])
  {
    ContiguousAccess(n.log, Number(n.table.next, s));
    ContiguousAccess(n.log, Number(n.table.next, s) - 1);
  }

  lemma StopsOutside(n: Node, s: int)
    requires n.role == Leader && Contiguous(n.log) && !Inside(n, s)
    ensures SendAppend(n, s) == Res(if Number(n.table.next, s) < 1 then n.(halted := true)
                                    else n.(role := Follower, votedFor := -1), [])
  {
    ContiguousAccess(n.log, Number(n.table.next, s));
  }

  /**
   * One sibling, on any contiguous log: the append if its nextIndex is inside; without a vote among
   * the followers if that is past the end; and the end of the process if it is below 1.
   */
  lemma SendsOrStops(n: Node, s: int)
    requires n.role == Leader && !n.halted && Contiguous(n.log)
    ensures var r := SendAppend(n, s);
            var next := Number(n.table.next, s);
            if Inside(n, s) then
              && r.out == [Send(s, AppendFor(n, s))] && SameButFlags(n, r.node)
              && Flag(r.node.table.already, s) && (Flag(r.node.table.empty, s) <==> next == |n.log| + 1)
              && forall x :: x != s ==> Flag(r.node.table.already, x) == Flag(n.table.already, x)
                                        && Flag(r.node.table.empty, x) == Flag(n.table.empty, x)
            else
              && r.out == []
              && (if next < 1 then r.node == n.(halted := true) else r.node == n.(role := Follower, votedFor := -1))
  {
    if Inside(n, s) { SendsInside(n, s); } else { StopsOutside(n, s); }
  }

  /** The position of the first sibling of the list whose nextIndex is not inside, or the length of the list. */
  function FirstOutside(n: Node, ids: seq<int>): (k: nat)
    ensures k <= |ids| && (k < |ids| ==> !Inside(n, ids[k])) && forall j :: 0 <= j < k ==> Inside(n, ids[j])
  {
    if ids == [] then 0
    else
      var k := FirstOutside(n, ids[..|ids| - 1]);
      if k < |ids| - 1 || !Inside(n, ids[|ids| - 1]) then k else |ids|
  }

  /** What the loop has sent: one append to each sibling before the first that is outside, in order. */
  ghost predicate SentUpTo(n: Node, ids: seq<int>, out: seq<Send>, k: nat) {
    && k <= |ids| && |out| == k
    && forall j :: 0 <= j < k ==> Inside(n, ids[j]) && out[j] == Send(ids[j], AppendFor(n, ids[j]))
  }

  /** How the loop ends: as a leader; as a follower, if it lost its place at the last sibling; or with an exit. */
  ghost predicate LoopEnd(n: Node, ids: seq<int>, n': Node, k: nat)
    requires k <= |ids|
  {
    && n'.log == n.log && n'.term == n.term && n'.commitIndex == n.commitIndex && n'.id == n.id
    && n'.table.next == n.table.next
    && (if k == |ids| then SameButFlags(n, n')
        else if Number(n.table.next, ids[k]) < 1 then n'.role == Leader && n'.halted
        else n'.role == Follower && n'.votedFor == -1 && (n'.halted <==> k + 1 < |ids|))
  }

  lemma SameMessage(n: Node, n': Node, s: int)
    requires SameButFlags(n, n') && Inside(n, s)
    ensures Inside(n', s) && AppendFor(n', s) == AppendFor(n, s)
  {
  }

  lemma ExitOfFollower(n: Node, s: int)
    requires n.role != Leader
    ensures SendAppend(n, s) == Res(n.(halted := true), [])
  {
  }

  lemma NextSends(n: Node, ids: seq<int>, s: int, r: Res, k: nat)
    requires n.role == Leader && !n.halted && Contiguous(n.log)
    requires k == FirstOutside(n, ids) == |ids| && SentUpTo(n, ids, r.out, k) && LoopEnd(n, ids, r.node, k)
    ensures var r' := SendAppend(r.node, s);
            var all := ids + [s];
            var k' := if Inside(n, s) then |all| else k;
            SentUpTo(n, all, r.out + r'.out, k') && LoopEnd(n, all, r'.node, k')
  {
    SendsOrStops(r.node, s);
    if Inside(n, s) { SameMessage(n, r.node, s); }
  }

  /** Behind the first sibling outside, nothing more is sent; whoever does not lead any more ends. */
  lemma NextStops(n: Node, ids: seq<int>, s: int, r: Res, k: nat)
    requires k < |ids| && SentUpTo(n, ids, r.out, k) && LoopEnd(n, ids, r.node, k)
    ensures var r' := if r.node.halted then r else Res(SendAppend(r.node, s).node, r.out + SendAppend(r.node, s).out);
            SentUpTo(n, ids + [s], r'.out, k) && LoopEnd(n, ids + [s], r'.node, k)
  {
    if !r.node.halted {
      ExitOfFollower(r.node, s);
      assert r.out + [] == r.out;
    }
  }

  lemma FirstOutsideSnoc(n: Node, ids: seq<int>, s: int)
    ensures FirstOutside(n, ids + [s])
            == if FirstOutside(n, ids) < |ids| || !Inside(n, s) then FirstOutside(n, ids) else |ids| + 1
  {
    assert (ids + [s])[..|ids|] == ids;
  }

  lemma SendAppendsSnoc(n: Node, ids: seq<int>, s: int)
    ensures var r := SendAppends(n, ids);
            SendAppends(n, ids + [s])
            == if r.node.halted then r else Res(SendAppend(r.node, s).node, r.out + SendAppend(r.node, s).out)
  {
    assert (ids + [s])[..|ids|] == ids;
  }

  /** A loop that has served all goes on. */
  lemma LoopLives(n: Node, ids: seq<int>, n': Node)
    requires !n.halted && LoopEnd(n, ids, n', |ids|)
    ensures !n'.halted
  {
  }

  /** The whole loop, for any list and tables, on any contiguous log. */
  lemma {:induction false} LoopSends(n: Node, ids: seq<int>)
    requires n.role == Leader && !n.halted && Contiguous(n.log)
    ensures var r := SendAppends(n, ids);
            var k := FirstOutside(n, ids);
            SentUpTo(n, ids, r.out, k) && LoopEnd(n, ids, r.node, k)
  {
    if ids != [] {
      var front, s := ids[..|ids| - 1], ids[|ids| - 1];
      var r, k := SendAppends(n, front), FirstOutside(n, front);
      LoopSends(n, front);
      FirstOutsideSnoc(n, front, s);
      SendAppendsSnoc(n, front, s);
      assert ids == front + [s];
      if k == |front| {
        LoopLives(n, front, r.node);
        NextSends(n, front, s, r, k);
      } else {
        NextStops(n, front, s, r, k);
      }
    }
  }

  /**
   * A leader's cron in a working cluster, whatever its tables hold: the connected siblings that are
   * not waited for are served in order up to the first whose nextIndex is not inside the log.
   */
  lemma LeaderCron(n: Node, timedOut: bool)
    requires n.role == Leader && !n.halted && Contiguous(n.log) && SiblingsBaseline(n.table)
    ensures var r := Step(n, Cron(true, timedOut));
            var ids := NeedAppend(n.table, n.table.ids);
            var k := FirstOutside(n, ids);
            && SentUpTo(n, ids, r.out, k) && LoopEnd(n, ids, r.node, k)
            && forall s :: s in ids <==> s in n.table.ids && Flag(n.table.connected, s) && !Flag(n.table.already, s)
  {
    LoopSends(n, NeedAppend(n.table, n.table.ids));
    NeedAppendExactly(n.table, n.table.ids);
  }
}
