/**
 * The cluster with its flush to the child servers: lastApplied of every node, and the process
 * that ends because its commit index is behind it.
 */
module Applied {
  import opened EntryLog
  import opened ClusterNode
  import opened NodeShape
  import opened World
  import opened LogMatching
  import opened Bookkeeping
  import opened Commit

  /** A world, how far each node has flushed, and the nodes whose processes a flush has ended. */
  datatype Served = Served(world: World, applied: map<int, int>, ended: set<int>)

  function AppliedAt(s: Served, x: int): int { Number(s.applied, x) }

  /** A cron that gets to the flush. */
  predicate Flushing(n: Node, i: Input) { i.Cron? && i.childrenReady && SiblingsBaseline(n.table) }

  /** lastApplied after a step: back to 0 without all child servers, one further with every attempt to flush. */
  function NextApplied(n: Node, i: Input, last: int): int {
    if i.Cron? && !i.childrenReady then 0
    else if Flushing(n, i) && last < n.commitIndex then last + 1
    else last
  }

  ghost predicate Serves(s: Served, e: Event) {
    WellFormed(s.world) && Enabled(s.world, e) && Actor(s.world, e) !in s.ended
  }

  ghost predicate Ends(s: Served, e: Event)
    requires Serves(s, e)
  {
    var x := Actor(s.world, e);
    Flushing(s.world.nodes[x], InputOf(s.world, e)) && s.world.nodes[x].commitIndex < AppliedAt(s, x)
  }

  ghost function ServeEvent(s: Served, e: Event): (s': Served)
    requires WellFormed(s.world)
    ensures WellFormed(s'.world)
  {
    if !Serves(s, e) then s
    else
      var x := Actor(s.world, e);
      if Ends(s, e) then s.(ended := s.ended + {x})
      else Served(Apply(s.world, e),
                  s.applied[x := NextApplied(s.world.nodes[x], InputOf(s.world, e), AppliedAt(s, x))], s.ended)
  }

  ghost function ServeRun(c: Config, es: seq<Event>): (s: Served)
    ensures WellFormed(s.world)
  {
    if es == [] then Served(Init(c), map[], {}) else ServeEvent(ServeRun(c, es[..|es| - 1]), es[|es| - 1])
  }

  /** The events that the worlds of such a run have seen. */
  ghost function Seen(c: Config, es: seq<Event>): seq<Event> {
    if es == [] then []
    else
      var front, e := es[..|es| - 1], es[|es| - 1];
      var s := ServeRun(c, front);
      if Serves(s, e) && !Ends(s, e) then Seen(c, front) + [e] else Seen(c, front)
  }

  /** Every world of a run with flushes is one of a run without, so what holds of those holds here. */
  lemma {:induction false} ServedIsRun(c: Config, es: seq<Event>)
    ensures ServeRun(c, es).world == Run(c, Seen(c, es))
  {
    if es != [] {
      var front, e := es[..|es| - 1], es[|es| - 1];
      ServedIsRun(c, front);
      var seen := Seen(c, front);
      assert (seen + [e])[..|seen|] == seen && (seen + [e])[|seen|] == e;
    }
  }

  // ---------------------------------------------------------------- falling behind lastApplied

  /** The commit index of a living node is behind what it has flushed. */
  ghost predicate Behind(s: Served, x: int) {
    x in s.world.nodes && x !in s.ended && s.world.nodes[x].commitIndex < AppliedAt(s, x)
  }

  ghost predicate ActsOn(s: Served, e: Event, x: int) { Serves(s, e) && Actor(s.world, e) == x }

  /** An append that is followed, accepted and says what is committed, on a log that is not empty then. */
  predicate TakesCommit(n: Node, i: Input) {
    && i.Receive? && i.msg.AppendEntry? && !TurnsAway(n, i.msg) && i.msg.leaderCommit != 0
    && Follow(n.log, i.msg).Accepted? && Follow(n.log, i.msg).log != []
  }

  /** What is committed by such an append: the leader's commit index, at most the end of the log. */
  function CommitTaken(n: Node, i: Input): int
    requires TakesCommit(n, i)
  {
    Min(i.msg.leaderCommit, Last(Follow(n.log, i.msg).log).index)
  }

  /**
   * The guards of the steps that put a node behind, for a lastApplied that is not ahead yet: an
   * append that commits less than was flushed, or a victory with a log that ends before that.
   */
  predicate UndercutBy(n: Node, i: Input, applied: int) {
    && applied <= n.commitIndex
    && ((TakesCommit(n, i) && CommitTaken(n, i) < applied)
        || (WinsNow(n, i) && Last(n.log).index < NextApplied(n, i, applied)))
  }

  /** A leader takes a success for its next entry, and with it a majority has reached that entry. */
  predicate Commits(n: Node, i: Input) {
    && i.Receive? && i.msg.AppendReply? && n.role == Leader && i.msg.term <= n.term && i.src in n.table.ids
    && i.msg.success && !Flag(n.table.empty, i.src)
    && var next := Number(n.table.next, i.src);
       1 + CountReached(n.table.ids, n.table.matched[i.src := next], next) >= HalfNumber(n.table)
  }

  /**
   * The guards of the steps that let a node catch up: the loss of a child server, an append or a
   * victory that commits as much as was flushed, or a majority for an entry as far.
   */
  predicate RecoversBy(n: Node, i: Input, applied: int) {
    || (i.Cron? && !i.childrenReady)
    || (TakesCommit(n, i) && applied <= CommitTaken(n, i))
    || (WinsNow(n, i) && applied <= Last(n.log).index)
    || (Commits(n, i) && applied <= Number(n.table.next, i.src))
  }

  ghost predicate Undercuts(s: Served, e: Event, x: int) {
    ActsOn(s, e, x) && UndercutBy(s.world.nodes[x], InputOf(s.world, e), AppliedAt(s, x))
  }

  ghost predicate Recovers(s: Served, e: Event, x: int) {
    ActsOn(s, e, x) && RecoversBy(s.world.nodes[x], InputOf(s.world, e), AppliedAt(s, x))
  }

  ghost predicate EndsNow(s: Served, e: Event, x: int) { ActsOn(s, e, x) && Ends(s, e) }

  ghost predicate Stays(s: Served, e: Event, x: int) { !Recovers(s, e, x) && !EndsNow(s, e, x) }

  /** A step leaves a node behind that was not, exactly by one of the guards. */
  lemma UndercutExactly(n: Node, i: Input, applied: int)
    requires applied <= n.commitIndex && 0 <= n.commitIndex
    ensures Step(n, i).node.commitIndex < NextApplied(n, i, applied) <==> UndercutBy(n, i, applied)
    ensures UndercutBy(n, i, applied) ==> LowersCommit(n, i)
  {
    match i
    case Receive(src, m) =>
    case Cron(childrenReady, timedOut) => SendAppendsCommit(n, NeedAppend(n.table, n.table.ids));
    case _ =>
  }

  /** A step that is not a flush lets a node catch up that was behind, exactly by one of the guards. */
  lemma RecoversExactly(n: Node, i: Input, applied: int)
    requires 0 <= n.commitIndex < applied && !Flushing(n, i)
    ensures NextApplied(n, i, applied) <= Step(n, i).node.commitIndex <==> RecoversBy(n, i, applied)
  {
    match i
    case Receive(src, m) =>
    case Cron(childrenReady, timedOut) => SendAppendsCommit(n, NeedAppend(n.table, n.table.ids));
    case _ =>
  }

  ghost predicate NaturalCommits(w: World) { forall y :: y in w.nodes ==> 0 <= w.nodes[y].commitIndex }

  lemma ApplyAt(w: World, e: Event)
    requires WellFormed(w) && Enabled(w, e)
    ensures var x := Actor(w, e);
            x in w.nodes && Apply(w, e).nodes == w.nodes[x := Step(w.nodes[x], InputOf(w, e)).node]
  {
  }

  /** The event of a node that goes on: where its commit index and lastApplied stand then. */
  lemma ActsBehind(s: Served, e: Event, x: int)
    requires WellFormed(s.world) && ActsOn(s, e, x) && !Ends(s, e)
    ensures x in s.world.nodes
    ensures var n, i := s.world.nodes[x], InputOf(s.world, e);
            Behind(ServeEvent(s, e), x) <==> Step(n, i).node.commitIndex < NextApplied(n, i, AppliedAt(s, x))
  {
    ApplyAt(s.world, e);
  }

  lemma OtherBehind(s: Served, e: Event, x: int)
    requires WellFormed(s.world) && !ActsOn(s, e, x)
    ensures Behind(ServeEvent(s, e), x) <==> Behind(s, x)
  {
    if Serves(s, e) { ApplyAt(s.world, e); }
  }

  /** One event: a node gets behind exactly by undercutting, and stays so until it recovers or ends. */
  lemma BehindStep(s: Served, e: Event, x: int)
    requires WellFormed(s.world) && NaturalCommits(s.world)
    ensures Behind(ServeEvent(s, e), x)
            <==> Undercuts(s, e, x) || (Behind(s, x) && Stays(s, e, x))
  {
    if !ActsOn(s, e, x) {
      OtherBehind(s, e, x);
    } else if !Ends(s, e) {
      var n, i := s.world.nodes[x], InputOf(s.world, e);
      ActsBehind(s, e, x);
      if AppliedAt(s, x) <= n.commitIndex {
        UndercutExactly(n, i, AppliedAt(s, x));
      } else {
        RecoversExactly(n, i, AppliedAt(s, x));
      }
    }
  }

  /** The state after the first k events. */
  ghost function At(c: Config, es: seq<Event>, k: nat): (s: Served)
    requires k <= |es|
    ensures WellFormed(s.world)
  {
    ServeRun(c, es[..k])
  }

  lemma AtNext(c: Config, es: seq<Event>, k: nat)
    requires k < |es|
    ensures At(c, es, k + 1) == ServeEvent(At(c, es, k), es[k])
  {
    assert es[..k + 1][..k] == es[..k];
  }

  lemma CommitsNatural(c: Config, es: seq<Event>)
    ensures NaturalCommits(ServeRun(c, es).world)
  {
    ServedIsRun(c, es);
    RunChronicled(c, Seen(c, es));
  }

  /** It has been undercut at event j and has neither recovered nor ended since. */
  ghost predicate UndercutSince(c: Config, es: seq<Event>, j: nat, k: nat, x: int)
    requires j < k <= |es|
  {
    && Undercuts(At(c, es, j), es[j], x)
    && forall m :: j < m < k ==> Stays(At(c, es, m), es[m], x)
  }

  lemma SinceNow(c: Config, es: seq<Event>, k: nat, x: int)
    requires k < |es|
    ensures UndercutSince(c, es, k, k + 1, x) <==> Undercuts(At(c, es, k), es[k], x)
  {
  }

  lemma SinceNext(c: Config, es: seq<Event>, j: nat, k: nat, x: int)
    requires j < k < |es|
    ensures UndercutSince(c, es, j, k + 1, x)
            <==> UndercutSince(c, es, j, k, x) && Stays(At(c, es, k), es[k], x)
  {
  }

  ghost predicate UndercutBefore(c: Config, es: seq<Event>, k: nat, x: int)
    requires k <= |es|
  {
    exists j :: 0 <= j < k && UndercutSince(c, es, j, k, x)
  }

  lemma BeforeNext(c: Config, es: seq<Event>, k: nat, x: int)
    requires k < |es|
    ensures UndercutBefore(c, es, k + 1, x)
            <==> Undercuts(At(c, es, k), es[k], x) || (UndercutBefore(c, es, k, x) && Stays(At(c, es, k), es[k], x))
  {
    SinceNow(c, es, k, x);
    var after := k + 1;
    if j :| 0 <= j < after && UndercutSince(c, es, j, after, x) {
      if j < k { SinceNext(c, es, j, k, x); }
    }
    if j :| 0 <= j < k && UndercutSince(c, es, j, k, x) { SinceNext(c, es, j, k, x); }
  }

  /** In every run: a node is behind exactly if it has been undercut and has neither recovered nor ended since. */
  lemma {:induction false} BehindExactly(c: Config, es: seq<Event>, k: nat, x: int)
    requires k <= |es|
    ensures Behind(At(c, es, k), x) <==> UndercutBefore(c, es, k, x)
  {
    if k == 0 {
      assert es[..0] == [];
    } else {
      BehindExactly(c, es, k - 1, x);
      BehindNext(c, es, k - 1, x);
      BeforeNext(c, es, k - 1, x);
    }
  }

  lemma BehindNext(c: Config, es: seq<Event>, k: nat, x: int)
    requires k < |es|
    ensures Behind(At(c, es, k + 1), x)
            <==> Undercuts(At(c, es, k), es[k], x) || (Behind(At(c, es, k), x) && Stays(At(c, es, k), es[k], x))
  {
    AtNext(c, es, k);
    CommitsNatural(c, es[..k]);
    BehindStep(At(c, es, k), es[k], x);
  }

  lemma EndsStep(s: Served, e: Event, x: int)
    requires WellFormed(s.world)
    ensures x in ServeEvent(s, e).ended <==> x in s.ended || EndsNow(s, e, x)
  {
  }

  ghost predicate EndedBefore(c: Config, es: seq<Event>, k: nat, x: int)
    requires k <= |es|
  {
    exists m :: 0 <= m < k && EndsNow(At(c, es, m), es[m], x)
  }

  lemma EndedBeforeNext(c: Config, es: seq<Event>, k: nat, x: int)
    requires k < |es|
    ensures EndedBefore(c, es, k + 1, x) <==> EndedBefore(c, es, k, x) || EndsNow(At(c, es, k), es[k], x)
  {
  }

  lemma {:induction false} EndsAtSome(c: Config, es: seq<Event>, k: nat, x: int)
    requires k <= |es|
    ensures x in At(c, es, k).ended <==> EndedBefore(c, es, k, x)
  {
    if k == 0 {
      assert es[..0] == [];
    } else {
      EndsAtSome(c, es, k - 1, x);
      EndedNext(c, es, k - 1, x);
      EndedBeforeNext(c, es, k - 1, x);
    }
  }

  lemma EndedNext(c: Config, es: seq<Event>, k: nat, x: int)
    requires k < |es|
    ensures x in At(c, es, k + 1).ended <==> x in At(c, es, k).ended || EndsNow(At(c, es, k), es[k], x)
  {
    AtNext(c, es, k);
    EndsStep(At(c, es, k), es[k], x);
  }

  /** A cron with a majority of siblings and all child servers, at node x. */
  ghost predicate FlushesAt(s: Served, e: Event, x: int) {
    ActsOn(s, e, x) && Flushing(s.world.nodes[x], InputOf(s.world, e))
  }

  /**
   * In every run: the flush ends the process of a node if and only if at some event the node was
   * undercut, and the next of its events that lets it recover or flush is a flush.
   */
  lemma FlushEndsExactly(c: Config, es: seq<Event>, x: int)
    ensures x in ServeRun(c, es).ended
            <==> exists j, k :: 0 <= j < k < |es| && UndercutSince(c, es, j, k, x) && FlushesAt(At(c, es, k), es[k], x)
  {
    assert es[..|es|] == es;
    EndsAtSome(c, es, |es|, x);
    forall k | 0 <= k < |es|
      ensures EndsNow(At(c, es, k), es[k], x) <==> Behind(At(c, es, k), x) && FlushesAt(At(c, es, k), es[k], x)
    {
    }
    forall k | 0 <= k < |es|
      ensures Behind(At(c, es, k), x) <==> UndercutBefore(c, es, k, x)
    {
      BehindExactly(c, es, k, x);
    }
  }

  /** If leaders take only the replies they wait for, the flush is the only thing that ends a process. */
  lemma OnlyFlushesEnd(c: Config, es: seq<Event>, x: int)
    requires 1 <= c.idMin && !ServeRun(c, es).world.stray && x in ServeRun(c, es).world.nodes
    ensures !ServeRun(c, es).world.nodes[x].halted
  {
    ServedIsRun(c, es);
    LeaderBookkeeping(ServeRun(c, es).world, x);
  }

  /** A node whose commit index is never undercut never ends in a flush, and flushes only what is committed to it. */
  lemma NeverUndercut(c: Config, es: seq<Event>, x: int)
    requires forall j :: 0 <= j < |es| ==> !Undercuts(At(c, es, j), es[j], x)
    ensures x !in ServeRun(c, es).ended && !Behind(ServeRun(c, es), x)
  {
    assert es[..|es|] == es;
    FlushEndsExactly(c, es, x);
    BehindExactly(c, es, |es|, x);
  }
}
