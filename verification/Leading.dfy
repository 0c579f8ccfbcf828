/**
 * How a leadership begins: who wins, where the new leader starts to send, and that its first
 * appends change nothing at a node that already has the leader's log.
 */
module Leading {
  import opened EntryLog
  import opened ClusterNode
  import opened NodeShape
  import opened World
  import opened Bookkeeping
  import opened Majority
  import opened Commit
  import opened Terms

  /** A step makes a leader exactly by the vote that completes the majority, or by the cron after it. */
  lemma ElectedExactly(n: Node, i: Input)
    ensures Elected(n, Step(n, i).node) <==> WinsNow(n, i)
  {
    if i.Receive? {
      RoleRule(n, i.src, i.msg);
    } else if i.Cron? {
      SendAppendsRole(n, NeedAppend(n.table, n.table.ids));
    }
  }

  lemma {:induction false} SendAppendsRole(n: Node, ids: seq<int>)
    ensures var r := SendAppends(n, ids); r.node.role == n.role || r.node.role == Follower
  {
    if ids != [] {
      var front := ids[..|ids| - 1];
      SendAppendsRole(n, front);
      SendAppendKeeps(SendAppends(n, front).node, ids[|ids| - 1]);
    }
  }

  /** Nothing is known of the sibling's log, it is taken to be the leader's, and it may be sent to. */
  ghost predicate Fresh(l: Node, s: int) {
    Number(l.table.next, s) == |l.log| + 1 && Number(l.table.matched, s) == 0 && !Flag(l.table.already, s)
  }

  /**
   * At every election the new leader has the log and term it had, takes all of the log for
   * committed, has no vote, and starts behind the end of its log with every sibling.
   */
  lemma LeaderStarts(n: Node, i: Input)
    requires Elected(n, Step(n, i).node) && Contiguous(n.log)
    ensures var l := Step(n, i).node;
            && Step(n, i).out == [] && l.halted == n.halted
            && l.log == n.log && l.term == n.term && l.votedFor == -1
            && l.lastEntryIndex == l.commitIndex == |n.log|
            && l.table.ids == n.table.ids && l.table.connected == n.table.connected
            && (forall s :: s in n.table.ids ==> Fresh(l, s))
  {
    ElectedExactly(n, i);
    ContiguousAccess(n.log, 0);
  }

  // ---------------------------------------------------------------- the first appends

  /** An append behind the end of the log, which carries no entry. */
  ghost function Heartbeat(l: Node): Message {
    AppendEntry(l.term, l.id, |l.log|, if l.log == [] then 0 else l.log[|l.log| - 1].term, 0, 0, "", l.commitIndex)
  }

  lemma SendHeartbeat(l: Node, s: int)
    requires l.role == Leader && Contiguous(l.log) && Number(l.table.next, s) == |l.log| + 1
    ensures SameButFlags(l, SendAppend(l, s).node) && SendAppend(l, s).out == [Send(s, Heartbeat(l))]
  {
    ContiguousAccess(l.log, |l.log| + 1);
    ContiguousAccess(l.log, |l.log|);
  }

  lemma {:induction false} SendHeartbeats(l: Node, ids: seq<int>)
    requires l.role == Leader && !l.halted && Contiguous(l.log)
    requires forall s :: s in ids ==> Number(l.table.next, s) == |l.log| + 1
    ensures var r := SendAppends(l, ids);
            SameButFlags(l, r.node) && |r.out| == |ids|
            && forall j :: 0 <= j < |ids| ==> r.out[j] == Send(ids[j], Heartbeat(l))
  {
    if ids != [] {
      SendHeartbeats(l, ids[..|ids| - 1]);
      SendHeartbeat(SendAppends(l, ids[..|ids| - 1]).node, ids[|ids| - 1]);
    }
  }

  /** A node with the log of the heartbeat's sender keeps it, takes over what is committed, and answers success. */
  lemma HeartbeatKept(l: Node, f: Node)
    requires Contiguous(l.log) && f.log == l.log && l.commitIndex == |l.log| && Follows(f, Heartbeat(l))
    ensures var r := Step(f, Receive(l.id, Heartbeat(l)));
            && r.node.log == f.log && r.out == [Send(l.id, AppendReply(Max(f.term, l.term), true))]
            && r.node.halted == f.halted && (l.log != [] ==> r.node.commitIndex == |l.log|)
  {
    var m := Heartbeat(l);
    AppendAnswer(f, l.id, m);
    CheckPreviousOnContiguous(f.log, m);
    ContiguousAccess(f.log, 0);
    assert f.log[..|f.log|] == f.log;
    assert Recognise(f, m).log == f.log;
  }

  /**
   * The first cron of a new leader before any client's command: every connected sibling is sent one
   * append, and a node that has the same log follows it, keeps its log and answers with success.
   */
  lemma FirstAppends(n: Node, i: Input, timedOut: bool)
    requires Elected(n, Step(n, i).node) && Contiguous(n.log) && !n.halted
    requires SiblingsBaseline(Step(n, i).node.table)
    ensures var l := Step(n, i).node;
            var r := Step(l, Cron(true, timedOut));
            && r.node.role == Leader && r.node.log == n.log && !r.node.halted
            && (forall j :: 0 <= j < |r.out| ==> r.out[j].msg == Heartbeat(l))
            && (forall s :: s in n.table.ids && Flag(n.table.connected, s) <==>
                  exists j :: 0 <= j < |r.out| && r.out[j].dst == s)
            && (forall f: Node {:trigger Follows(f, Heartbeat(l))} :: f.log == n.log && Follows(f, Heartbeat(l)) ==>
                  var a := Step(f, Receive(l.id, Heartbeat(l)));
                  a.node.log == f.log && a.out == [Send(l.id, AppendReply(Max(f.term, l.term), true))])
  {
    var l := Step(n, i).node;
    LeaderStarts(n, i);
    var ids := NeedAppend(l.table, l.table.ids);
    NeedAppendExactly(l.table, l.table.ids);
    SendHeartbeats(l, ids);
    var r := Step(l, Cron(true, timedOut));
    assert r == SendAppends(l, ids);
    forall s | s in n.table.ids && Flag(n.table.connected, s)
      ensures exists j :: 0 <= j < |r.out| && r.out[j].dst == s
    {
      var j :| 0 <= j < |ids| && ids[j] == s;
      assert r.out[j].dst == s;
    }
    forall j | 0 <= j < |r.out| ensures r.out[j].dst in ids { assert r.out[j].dst == ids[j]; }
    forall f: Node | f.log == n.log && Follows(f, Heartbeat(l))
      ensures var a := Step(f, Receive(l.id, Heartbeat(l)));
              a.node.log == f.log && a.out == [Send(l.id, AppendReply(Max(f.term, l.term), true))]
    {
      HeartbeatKept(l, f);
    }
  }
}
