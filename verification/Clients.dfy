/**
 * What a client gets from a node: its command in the leader's log and with one round in a
 * follower's, or the name of a node that in every run has led.
 */
module Clients {
  import opened EntryLog
  import opened ClusterNode
  import opened NodeShape
  import opened World
  import opened LogMatching
  import opened Bookkeeping
  import opened Majority
  import opened Commit
  import opened Terms
  import opened Leading
  import opened Candidacy
  import opened Pacing
  import opened Repair

  // ---------------------------------------------------------------- a command

  /** The leader's log grows by the command, with the next index and the leader's term; other nodes take none. */
  lemma CommandLogged(n: Node, content: string)
    requires ShapedNode(n)
    ensures var n' := Step(n, Request(content)).node;
            && Step(n, Request(content)).out == []
            && n'.log == n.log + (if n.role == Leader then [Entry(|n.log| + 1, n.term, content)] else [])
            && n' == n.(log := n'.log, lastEntryIndex := n'.lastEntryIndex)
            && (n.role == Leader ==> n'.lastEntryIndex == |n'.log|)
            && (n.role != Leader ==> n' == n)
  {
  }

  lemma CommandedPair(l: Node, f: Node, content: string)
    requires Pair(l, f)
    ensures Pair(Step(l, Request(content)).node, f)
  {
    StepShape(l, Request(content));
  }

  /**
   * A follower with the leader's log has the leader's new log, the command included, one round
   * after the command has come, and the leader goes on behind it.
   */
  lemma CommandReplicated(l: Node, f: Node, content: string)
    requires Pair(l, f) && f.log == l.log && Number(l.table.next, f.id) == |l.log| + 1
    ensures var l' := Step(l, Request(content)).node;
            var r := Round(l', f);
            && l'.log == l.log + [Entry(|l.log| + 1, l.term, content)]
            && r.0.log == r.1.log == l'.log && Number(r.0.table.next, f.id) == |l'.log| + 1
  {
    CommandLogged(l, content);
    CommandedPair(l, f, content);
    var l' := Step(l, Request(content)).node;
    RoundIsNext(l', f);
    assert l'.log[..|l.log|] == l.log && l'.log == l.log + [l'.log[|l.log|]];
    assert f.log[..|l.log|] == l.log;
  }

  // ---------------------------------------------------------------- who is named as the leader

  lemma {:induction false} SendAppendsLeader(n: Node, ids: seq<int>)
    ensures SendAppends(n, ids).node.table.leaderId == n.table.leaderId
  {
    if ids != [] { SendAppendsLeader(n, ids[..|ids| - 1]); }
  }

  /** The leader a node names is the sender of the last append it followed, until too few siblings are connected. */
  lemma LeaderNamed(n: Node, i: Input)
    ensures Step(n, i).node.table.leaderId
            == if i.Receive? && i.msg.AppendEntry? && Follows(n, i.msg) then i.msg.leaderId
               else if i.Cron? && !SiblingsBaseline(n.table) then -1
               else if i.Delete? && i.sibling in n.table.ids && Flag(n.table.registered, i.sibling)
                       && i.sibling == n.table.leaderId then -1
               else n.table.leaderId
  {
    match i
    case Receive(src, m) => if m.AppendEntry? { AppendNames(n, src, m); }
    case Cron(_, _) => SendAppendsLeader(n, NeedAppend(n.table, n.table.ids));
    case _ =>
  }

  lemma AppendNames(n: Node, src: int, m: Message)
    requires m.AppendEntry?
    ensures Step(n, Receive(src, m)).node.table.leaderId
            == if Follows(n, m) then m.leaderId else n.table.leaderId
  {
  }

  ghost predicate HasLed(reigns: map<Reign, seq<Entry>>, x: int, upTo: int) {
    exists t: int :: t <= upTo && Reign(x, t) in reigns
  }

  ghost predicate NamesLeaders(w: World) {
    forall x :: x in w.nodes && w.nodes[x].table.leaderId != -1 ==>
      HasLed(w.reigns, w.nodes[x].table.leaderId, w.nodes[x].term)
  }

  lemma HasLedLater(reigns: map<Reign, seq<Entry>>, reigns': map<Reign, seq<Entry>>, x: int, upTo: int, upTo': int)
    requires HasLed(reigns, x, upTo) && Grown(reigns, reigns') && upTo <= upTo'
    ensures HasLed(reigns', x, upTo')
  {
    var t: int :| t <= upTo && Reign(x, t) in reigns;
    assert Reign(x, t) in reigns';
  }

  lemma OwnNames(w: World, x: int, i: Input, packet: int, r: Res)
    requires Chronicled(w) && NamesLeaders(w) && Fits(w, x, i, packet, r) && r == Step(w.nodes[x], i)
    ensures r.node.table.leaderId != -1 ==> HasLed(w.reigns, r.node.table.leaderId, r.node.term)
  {
    var n := w.nodes[x];
    LeaderNamed(n, i);
    if i.Receive? && i.msg.AppendEntry? && Follows(n, i.msg) {
      assert Backed(w.net[packet].msg, w.reigns);
      TermRule(n, i.src, i.msg);
      assert Reign(i.msg.leaderId, i.msg.term) in w.reigns;
    } else if r.node.table.leaderId != -1 {
      HasLedLater(w.reigns, w.reigns, n.table.leaderId, n.term, r.node.term);
    }
  }

  lemma RecordNames(w: World, x: int, i: Input, packet: int, r: Res)
    requires Chronicled(w) && NamesLeaders(w) && Fits(w, x, i, packet, r) && r == Step(w.nodes[x], i)
    ensures NamesLeaders(Record(w, x, i, packet, r))
  {
    var w' := Record(w, x, i, packet, r);
    OwnNames(w, x, i, packet, r);
    RecordReigns(w, x, i, packet, r);
    forall y | y in w'.nodes && w'.nodes[y].table.leaderId != -1
      ensures HasLed(w'.reigns, w'.nodes[y].table.leaderId, w'.nodes[y].term)
    {
      var upTo := w'.nodes[y].term;
      HasLedLater(w.reigns, w'.reigns, w'.nodes[y].table.leaderId, upTo, upTo);
    }
  }

  lemma {:induction false} RunNames(c: Config, es: seq<Event>)
    ensures NamesLeaders(Run(c, es))
  {
    if es != [] {
      var w := Run(c, es[..|es| - 1]);
      var e := es[|es| - 1];
      RunChronicled(c, es[..|es| - 1]);
      RunNames(c, es[..|es| - 1]);
      if Enabled(w, e) {
        EventFits(w, e);
        RecordNames(w, Actor(w, e), InputOf(w, e), PacketOf(e), Step(w.nodes[Actor(w, e)], InputOf(w, e)));
      }
    }
  }

  /** In every run: whom a node names as the leader has led a term that is not above the node's own. */
  lemma NamedHasLed(w: World, x: int) returns (t: int)
    requires Reachable(w) && x in w.nodes && w.nodes[x].table.leaderId != -1
    ensures t <= w.nodes[x].term && Reign(w.nodes[x].table.leaderId, t) in w.reigns
  {
    var c: Config, es :| 1 <= c.idMin && w == Run(c, es);
    RunNames(c, es);
    assert HasLed(w.reigns, w.nodes[x].table.leaderId, w.nodes[x].term);
    t :| t <= w.nodes[x].term && Reign(w.nodes[x].table.leaderId, t) in w.reigns;
  }
}
