/**
 * One append at a time. What a reply, a new connection and a lost one do to a leader's tables for
 * that sibling and no other, and that in every run a leader has an append awaited from a sibling
 * exactly while it does not send it another.
 */
module Pacing {
  import opened EntryLog
  import opened ClusterNode
  import opened NodeShape
  import opened World
  import opened LogMatching
  import opened Bookkeeping
  import opened Leading

  // ---------------------------------------------------------------- one sibling's entries

  /** All that the tables say of one sibling. */
  ghost predicate SameEntry(t: Table, t': Table, s: int) {
    && Flag(t'.registered, s) == Flag(t.registered, s) && Flag(t'.connected, s) == Flag(t.connected, s)
    && Number(t'.next, s) == Number(t.next, s) && Number(t'.matched, s) == Number(t.matched, s)
    && Flag(t'.already, s) == Flag(t.already, s) && Flag(t'.empty, s) == Flag(t.empty, s)
  }

  /** Only the tables of one sibling may have changed, and the commit index. */
  ghost predicate OnlyAbout(n: Node, n': Node, s: int) {
    && n' == n.(table := n'.table, commitIndex := n'.commitIndex)
    && n'.table.ids == n.table.ids
    && forall x :: x != s ==> SameEntry(n.table, n'.table, x)
  }

  /** What the tables say of the sibling after its reply, and that they say nothing new of others. */
  ghost predicate ReplyBooks(n: Node, n': Node, src: int, success: bool) {
    var next := Number(n.table.next, src);
    var moved := success && !Flag(n.table.empty, src);
    && OnlyAbout(n, n', src) && !Flag(n'.table.already, src)
    && Number(n'.table.next, src) == (if moved then next + 1 else if !success && next > 1 then next - 1 else next)
    && Number(n'.table.matched, src) == (if moved then next else Number(n.table.matched, src))
    && Flag(n'.table.connected, src) == Flag(n.table.connected, src)
    && Flag(n'.table.registered, src) == Flag(n.table.registered, src)
    && n'.table.leaderId == n.table.leaderId && (!moved ==> n'.commitIndex == n.commitIndex)
  }

  lemma CheckCommitKeeps(n: Node, index: int)
    ensures CheckCommit(n, index) == n.(commitIndex := CheckCommit(n, index).commitIndex)
  {
  }

  lemma EntryRecorded(n: Node, src: int, next: int, commitIndex: int)
    requires next == Number(n.table.next, src) && !Flag(n.table.empty, src)
    ensures var t := n.table;
            var t' := t.(already := t.already[src := false], next := t.next[src := next + 1],
                         matched := t.matched[src := next]);
            ReplyBooks(n, n.(table := t', commitIndex := commitIndex), src, true)
  {
  }

  /**
   * A leader and the reply of a sibling that is not ahead: it may be sent to again, a failure moves
   * its nextIndex back but not below 1, and a success for an entry records that and moves it on.
   */
  lemma ReplyTaken(n: Node, src: int, m: Message)
    requires TakesReply(n, Receive(src, m))
    ensures ReplyBooks(n, Step(n, Receive(src, m)).node, src, m.success)
  {
    if m.success && !Flag(n.table.empty, src) {
      var next := Number(n.table.next, src);
      var t := n.table;
      var t' := t.(already := t.already[src := false], next := t.next[src := next + 1],
                   matched := t.matched[src := next]);
      CheckCommitKeeps(n.(table := t'), next);
      EntryRecorded(n, src, next, Step(n, Receive(src, m)).node.commitIndex);
    }
  }

  /** A connection for a configured sibling that has none: it is sent to from behind the commit index. */
  lemma SiblingJoined(n: Node, s: int)
    ensures var n' := Step(n, Add(s)).node;
            if s in n.table.ids && !Flag(n.table.connected, s) && !Flag(n.table.registered, s) then
              && OnlyAbout(n, n', s) && n'.commitIndex == n.commitIndex && n'.table.leaderId == n.table.leaderId
              && Flag(n'.table.registered, s) && !Flag(n'.table.connected, s) && !Flag(n'.table.already, s)
              && Number(n'.table.next, s) == n.commitIndex + 1 && Number(n'.table.matched, s) == 0
            else n' == n
  {
  }

  lemma SiblingConfirmed(n: Node, s: int)
    ensures var n' := Step(n, Confirm(s)).node;
            if s in n.table.ids then
              && OnlyAbout(n, n', s) && n'.commitIndex == n.commitIndex && n'.table.leaderId == n.table.leaderId
              && Flag(n'.table.connected, s)
              && SameEntry(n.table.(connected := n'.table.connected), n'.table, s)
            else n' == n
  {
  }

  /** The loss of a connection: the sibling counts as connected no more and is no leader any more. */
  lemma SiblingLost(n: Node, s: int)
    ensures var n' := Step(n, Delete(s)).node;
            if s in n.table.ids && Flag(n.table.registered, s) then
              && OnlyAbout(n, n', s) && n'.commitIndex == n.commitIndex
              && !Flag(n'.table.registered, s) && !Flag(n'.table.connected, s) && !Flag(n'.table.already, s)
              && n'.table.leaderId == (if n.table.leaderId == s then -1 else n.table.leaderId)
            else n' == n
  {
  }

  /** A leader's node after a sibling's connection is lost, opened again and confirmed. */
  function Rejoined(n: Node, s: int): Node {
    Step(Step(Step(n, Delete(s)).node, Add(s)).node, Confirm(s)).node
  }

  lemma RejoinedTable(l: Node, s: int)
    requires s in l.table.ids && Flag(l.table.registered, s)
    ensures var l' := Rejoined(l, s);
            && OnlyAbout(l, l', s) && l'.commitIndex == l.commitIndex
            && Flag(l'.table.connected, s) && !Flag(l'.table.already, s)
            && Number(l'.table.next, s) == l.commitIndex + 1 && Number(l'.table.matched, s) == 0
  {
    var n1 := Step(l, Delete(s)).node;
    var n2 := Step(n1, Add(s)).node;
    SiblingLost(l, s);
    SiblingJoined(n1, s);
    SiblingConfirmed(n2, s);
  }

  /** A leader's cron sends to every connected sibling that is not waited for, from its nextIndex. */
  lemma CronReaches(l: Node, s: int, timedOut: bool)
    requires ShapedNode(l) && Booked(l) && l.role == Leader && SiblingsBaseline(l.table)
    requires s in l.table.ids && Flag(l.table.connected, s) && !Flag(l.table.already, s)
    ensures var r := Step(l, Cron(true, timedOut));
            exists j :: 0 <= j < |r.out| && r.out[j].dst == s && Built(l, s, r.out[j].msg)
  {
    var ids := NeedAppend(l.table, l.table.ids);
    NeedAppendExactly(l.table, l.table.ids);
    CronBatch(l);
    var r := Step(l, Cron(true, timedOut));
    assert r == SendAppends(l, ids);
    var j :| 0 <= j < |ids| && ids[j] == s;
    assert r.out[j].dst == s && Built(l, s, r.out[j].msg);
  }

  /**
   * A sibling that comes back is a connected sibling again, and the leader's next cron sends it an
   * append with the last committed entry as the previous one.
   */
  lemma RejoinsFromCommit(l: Node, s: int, timedOut: bool)
    requires ShapedNode(l) && Booked(l) && l.role == Leader
    requires s in l.table.ids && Flag(l.table.registered, s) && SiblingsBaseline(Rejoined(l, s).table)
    ensures var r := Step(Rejoined(l, s), Cron(true, timedOut));
            exists j :: && 0 <= j < |r.out| && r.out[j].dst == s && r.out[j].msg.AppendEntry?
                        && r.out[j].msg.prevIndex == l.commitIndex
  {
    RejoinedTable(l, s);
    RejoinedBooked(l, s);
    CronReaches(Rejoined(l, s), s, timedOut);
  }

  lemma RejoinedBooked(l: Node, s: int)
    requires ShapedNode(l) && Booked(l) && s in l.table.ids && Flag(l.table.registered, s)
    ensures ShapedNode(Rejoined(l, s)) && Booked(Rejoined(l, s))
  {
    var n1 := Step(l, Delete(s)).node;
    var n2 := Step(n1, Add(s)).node;
    ConnectionBooked(l, s);
    ConnectionBooked(n1, s);
    ConnectionBooked(n2, s);
  }

  // ---------------------------------------------------------------- waiting, by the flag

  /** A leader that stays leader: who is waited for after the step, by what it sent and what came. */
  ghost predicate FlagStep(n: Node, i: Input, r: Res) {
    n.role == Leader && r.node.role == Leader ==>
      forall s :: s in n.table.ids ==>
        Flag(r.node.table.already, s)
        == (SentTo(r.out, s)
            || (Flag(n.table.already, s)
                && !(TakesReply(n, i) && i.src == s)
                && !((i.Add? || i.Delete?) && i.sibling == s && r.node != n)))
  }

  lemma SentToSnoc(out: seq<Send>, d: Send, s: int)
    ensures SentTo(out + [d], s) <==> SentTo(out, s) || (d.dst == s && d.msg.AppendEntry?)
  {
    if SentTo(out, s) {
      var j :| 0 <= j < |out| && out[j].dst == s && out[j].msg.AppendEntry?;
      assert (out + [d])[j] == out[j];
    }
    assert (out + [d])[|out|] == d;
  }

  lemma {:induction false} SendAppendsFlags(n: Node, ids: seq<int>, s: int)
    requires SendAppends(n, ids).node.role == Leader
    ensures var r := SendAppends(n, ids);
            Flag(r.node.table.already, s) == (SentTo(r.out, s) || Flag(n.table.already, s))
  {
    if ids != [] {
      var r := SendAppends(n, ids[..|ids| - 1]);
      SendAppendsFlags(n, ids[..|ids| - 1], s);
      if !r.node.halted {
        var r' := SendAppend(r.node, ids[|ids| - 1]);
        if r'.out == [] {
          assert r.out + r'.out == r.out;
        } else {
          SentToSnoc(r.out, r'.out[0], s);
        }
      }
    }
  }

  lemma StepFlags(n: Node, i: Input)
    ensures FlagStep(n, i, Step(n, i))
  {
    var r := Step(n, i);
    if n.role == Leader && r.node.role == Leader {
      forall s | s in n.table.ids
        ensures Flag(r.node.table.already, s)
                == (SentTo(r.out, s)
                    || (Flag(n.table.already, s)
                        && !(TakesReply(n, i) && i.src == s)
                        && !((i.Add? || i.Delete?) && i.sibling == s && r.node != n)))
      {
        FlagOf(n, i, s);
      }
    }
  }

  lemma ReceiveFlag(n: Node, src: int, m: Message, s: int)
    requires n.role == Leader && Step(n, Receive(src, m)).node.role == Leader
    ensures var r := Step(n, Receive(src, m));
            && !SentTo(r.out, s)
            && Flag(r.node.table.already, s)
               == (Flag(n.table.already, s) && !(TakesReply(n, Receive(src, m)) && src == s))
  {
    if TakesReply(n, Receive(src, m)) {
      ReplyTaken(n, src, m);
    } else if m.AppendEntry? {
      HandleAppendCases(n, src, m);
    }
  }

  lemma FlagOf(n: Node, i: Input, s: int)
    requires n.role == Leader && Step(n, i).node.role == Leader
    ensures var r := Step(n, i);
            Flag(r.node.table.already, s)
            == (SentTo(r.out, s)
                || (Flag(n.table.already, s)
                    && !(TakesReply(n, i) && i.src == s)
                    && !((i.Add? || i.Delete?) && i.sibling == s && r.node != n)))
  {
    match i
    case Receive(src, m) => ReceiveFlag(n, src, m, s);
    case Cron(_, _) => SendAppendsFlags(n, NeedAppend(n.table, n.table.ids), s);
    case Request(_) =>
    case Add(x) => SiblingJoined(n, x);
    case Confirm(x) =>
    case Delete(x) => SiblingLost(n, x);
  }

  // ---------------------------------------------------------------- waiting, in runs

  /** A leader awaits an append's reply from a sibling exactly if its tables say that one was sent. */
  ghost predicate AwaitsExactly(w: World) {
    forall x, s :: x in w.nodes && w.nodes[x].role == Leader && s in w.nodes[x].table.ids ==>
      ((x, s) in w.waiting <==> Flag(w.nodes[x].table.already, s))
  }

  lemma {:induction false} AwaitKeys(x: int, out: seq<Send>, first: int, waiting: map<(int, int), int>, p: (int, int))
    ensures p in Await(x, out, first, waiting) <==> p in waiting || (p.0 == x && SentTo(out, p.1))
  {
    if out != [] {
      var k := |out| - 1;
      AwaitKeys(x, out[..k], first, waiting, p);
      assert out == out[..k] + [out[k]];
      SentToSnoc(out[..k], out[k], p.1);
    }
  }

  /** A new leader waits for nobody. */
  lemma NewAwaits(w: World, x: int, i: Input, packet: int, r: Res, s: int)
    requires Chronicled(w) && Fits(w, x, i, packet, r) && r == Step(w.nodes[x], i)
    requires Elected(w.nodes[x], r.node) && s in r.node.table.ids
    ensures (x, s) !in Record(w, x, i, packet, r).waiting && !Flag(r.node.table.already, s)
  {
    LeaderStarts(w.nodes[x], i);
    assert Fresh(r.node, s);
    AwaitKeys(x, r.out, |w.net|, Forget(x, w.nodes[x], i, r.node, w.waiting), (x, s));
  }

  lemma OwnAwaits(w: World, x: int, i: Input, packet: int, r: Res, s: int)
    requires Chronicled(w) && AwaitsExactly(w) && Fits(w, x, i, packet, r) && r == Step(w.nodes[x], i)
    requires r.node.role == Leader && s in r.node.table.ids
    ensures (x, s) in Record(w, x, i, packet, r).waiting <==> Flag(r.node.table.already, s)
  {
    var n := w.nodes[x];
    if n.role == Leader {
      AwaitKeys(x, r.out, |w.net|, Forget(x, n, i, r.node, w.waiting), (x, s));
      StepFlags(n, i);
    } else {
      NewAwaits(w, x, i, packet, r, s);
    }
  }

  lemma OthersAwait(w: World, x: int, i: Input, packet: int, r: Res, y: int, s: int)
    requires Fits(w, x, i, packet, r) && y != x
    ensures (y, s) in Record(w, x, i, packet, r).waiting <==> (y, s) in w.waiting
  {
    AwaitKeys(x, r.out, |w.net|, Forget(x, w.nodes[x], i, r.node, w.waiting), (y, s));
  }

  lemma RecordAwaits(w: World, x: int, i: Input, packet: int, r: Res)
    requires Chronicled(w) && AwaitsExactly(w) && Fits(w, x, i, packet, r) && r == Step(w.nodes[x], i)
    ensures AwaitsExactly(Record(w, x, i, packet, r))
  {
    var w' := Record(w, x, i, packet, r);
    forall y, s | y in w'.nodes && w'.nodes[y].role == Leader && s in w'.nodes[y].table.ids
      ensures (y, s) in w'.waiting <==> Flag(w'.nodes[y].table.already, s)
    {
      if y == x { OwnAwaits(w, x, i, packet, r, s); } else { OthersAwait(w, x, i, packet, r, y, s); }
    }
  }

  lemma {:induction false} RunAwaits(c: Config, es: seq<Event>)
    ensures AwaitsExactly(Run(c, es))
  {
    if es != [] {
      var w := Run(c, es[..|es| - 1]);
      var e := es[|es| - 1];
      RunChronicled(c, es[..|es| - 1]);
      RunAwaits(c, es[..|es| - 1]);
      if Enabled(w, e) {
        EventFits(w, e);
        RecordAwaits(w, Actor(w, e), InputOf(w, e), PacketOf(e), Step(w.nodes[Actor(w, e)], InputOf(w, e)));
      }
    }
  }

  lemma {:induction false} SendAppendsTo(n: Node, ids: seq<int>)
    ensures forall j :: 0 <= j < |SendAppends(n, ids).out| ==> SendAppends(n, ids).out[j].dst in ids
  {
    if ids != [] {
      var front := ids[..|ids| - 1];
      SendAppendsTo(n, front);
      assert forall s :: s in front ==> s in ids;
    }
  }

  lemma SendsToFree(n: Node, i: Input, s: int)
    requires ShapedNode(n) && (i.Receive? ==> ShapedMessage(i.msg)) && SentTo(Step(n, i).out, s)
    ensures n.role == Leader && s in n.table.ids && Flag(n.table.connected, s) && !Flag(n.table.already, s)
  {
    StepLog(n, i);
    if i.Cron? {
      SendAppendsTo(n, NeedAppend(n.table, n.table.ids));
      NeedAppendExactly(n.table, n.table.ids);
    } else if i.Receive? && i.msg.AppendEntry? {
      HandleAppendCases(n, i.src, i.msg);
    }
  }

  /** In every run an append is sent only to a connected sibling from which no reply is awaited. */
  lemma OneAppendAtATime(w: World, x: int, i: Input, s: int)
    requires Reachable(w) && x in w.nodes && SentTo(Step(w.nodes[x], i).out, s)
    requires i.Receive? ==> ShapedMessage(i.msg)
    ensures var n := w.nodes[x];
            n.role == Leader && s in n.table.ids && Flag(n.table.connected, s) && (x, s) !in w.waiting
  {
    ReachableChronicled(w);
    var c: Config, es :| 1 <= c.idMin && w == Run(c, es);
    RunAwaits(c, es);
    SendsToFree(w.nodes[x], i, s);
  }
}
