/**
 * The cluster's logs on disk. The file of a node shows its log exactly if every entry is
 * storable; it always does when clients send no command with the delimiter in it.
 */
module DiskLogs {
  import opened EntryLog
  import opened Decimal
  import opened Records
  import opened ClusterNode
  import opened NodeShape
  import opened World
  import opened LogMatching
  import opened TwoLeaders

  // ---------------------------------------------------------------- what a file shows

  /** Every operation of the program on the file agrees with the list. */
  ghost predicate Shows(file: string, log: seq<Entry>) {
    && Scan(Reader(file, true), NO_ENTRY) == log
    && (forall index: int, e: Entry :: FindIn(Reader(file, true), index, e) == Looked(log, index, e))
    && (forall e: Entry :: FindLast(Reader(file, true), e) == (log != [], LastOr(log, e)))
    && (forall index: int :: DeleteIn(file, index)
          == match DeleteFrom(log, index) case Some(kept) => Some(EncodeAll(kept)) case None => None)
  }

  /** The file that a log is written to shows it if and only if every entry is storable. */
  lemma ShowsExactly(log: seq<Entry>)
    ensures Shows(EncodeAll(log), log) <==> AllStorable(log)
  {
    var file := EncodeAll(log);
    if AllStorable(log) {
      ScanStorable(log, NO_ENTRY);
      forall index: int, e: Entry ensures FindIn(Reader(file, true), index, e) == Looked(log, index, e) {
        FindAgrees(log, index, e);
      }
      forall e: Entry ensures FindLast(Reader(file, true), e) == (log != [], LastOr(log, e)) {
        FindLastAgrees(log, e);
      }
      forall index: int ensures DeleteIn(file, index)
          == match DeleteFrom(log, index) case Some(kept) => Some(EncodeAll(kept)) case None => None
      {
        DeleteAgrees(log, index);
      }
    } else {
      ScanUnstorable(log, NO_ENTRY);
    }
  }

  /** The entry that a step appends, if it appends one, can be stored. */
  predicate StoresWell(n: Node, i: Input) {
    match i
    case Receive(_, m) => m.AppendEntry? ==> MessageFits(m)
    case Request(content) => n.role == Leader ==> Storable(Entry(n.lastEntryIndex + 1, n.term, content))
    case _ => true
  }

  predicate MessageFits(m: Message)
    requires m.AppendEntry?
  {
    m.index != 0 && m.entryTerm != 0 ==> Storable(Entry(m.index, m.entryTerm, m.content))
  }

  // ---------------------------------------------------------------- clean steps

  predicate CleanEntry(e: Entry, k: int) { DELIMITER !in e.content && 0 <= e.index <= k }

  predicate CleanLog(log: seq<Entry>, k: int) { |log| <= k && forall i :: 0 <= i < |log| ==> CleanEntry(log[i], k) }

  predicate CleanMessage(m: Message, k: int) {
    m.term <= k + 1 && (m.AppendEntry? ==> DELIMITER !in m.content && 0 <= m.index <= k)
  }

  ghost predicate CleanOut(out: seq<Send>, k: int) {
    forall j :: 0 <= j < |out| ==> CleanMessage(out[j].msg, k)
  }

  /** Of the size that k events can lead to, and without the delimiter. */
  ghost predicate CleanNode(n: Node, k: int) {
    ShapedNode(n) && CleanLog(n.log, k) && n.term <= k + 1
  }

  predicate CleanInput(i: Input, k: int) {
    match i
    case Receive(_, m) => CleanMessage(m, k)
    case Request(content) => DELIMITER !in content
    case _ => true
  }

  lemma CleanFollow(log: seq<Entry>, m: Message, k: int)
    requires CleanLog(log, k) && m.AppendEntry? && CleanMessage(m, k)
    ensures CleanLog(Follow(log, m).log, k + 1)
  {
    assert CleanLog(CheckPrevious(log, m).log, k);
  }

  lemma CleanSend(n: Node, s: int, k: int)
    requires CleanNode(n, k) && 0 <= k
    ensures CleanNode(SendAppend(n, s).node, k) && CleanOut(SendAppend(n, s).out, k)
  {
    SendAppendShape(n, s);
    SendAppendKeeps(n, s);
  }

  lemma {:induction false} CleanSends(n: Node, ids: seq<int>, k: int)
    requires CleanNode(n, k) && 0 <= k
    ensures CleanNode(SendAppends(n, ids).node, k) && CleanOut(SendAppends(n, ids).out, k)
  {
    if ids != [] {
      CleanSends(n, ids[..|ids| - 1], k);
      CleanSend(SendAppends(n, ids[..|ids| - 1]).node, ids[|ids| - 1], k);
    }
  }

  lemma {:induction false} CleanToAll(ids: seq<int>, m: Message, k: int)
    requires CleanMessage(m, k)
    ensures CleanOut(ToAll(ids, m), k)
  {
    if ids != [] { CleanToAll(ids[..|ids| - 1], m, k); }
  }

  lemma CleanTick(n: Node, childrenReady: bool, timedOut: bool, k: int)
    requires CleanNode(n, k) && 0 <= k
    ensures var r := Tick(n, childrenReady, timedOut);
            CleanLog(r.node.log, k + 1) && r.node.term <= k + 2 && CleanOut(r.out, k + 1)
  {
    CleanSends(n, NeedAppend(n.table, n.table.ids), k);
    var c := ToCandidate(n).node;
    CleanToAll(NeedAppend(c.table, c.table.ids), VoteRequest(c), k + 1);
  }

  lemma CleanAppend(n: Node, src: int, m: Message, k: int)
    requires CleanNode(n, k) && m.AppendEntry? && CleanMessage(m, k)
    ensures var r := HandleAppend(n, src, m);
            CleanLog(r.node.log, k + 1) && r.node.term <= k + 1 && CleanOut(r.out, k)
  {
    CleanFollow(n.log, m, k);
    HandleAppendCases(n, src, m);
  }

  /** A step lengthens a log by one at most and raises a term by one at most, and keeps what is clean clean. */
  lemma CleanStep(n: Node, i: Input, k: int)
    requires CleanNode(n, k) && CleanInput(i, k) && 0 <= k && (i.Receive? ==> ShapedMessage(i.msg))
    ensures CleanNode(Step(n, i).node, k + 1) && CleanOut(Step(n, i).out, k + 1)
  {
    StepShape(n, i);
    match i
    case Receive(src, m) => if m.AppendEntry? { CleanAppend(n, src, m, k); }
    case Cron(childrenReady, timedOut) => CleanTick(n, childrenReady, timedOut, k);
    case _ =>
  }

  lemma CleanFits(n: Node, i: Input, k: int)
    requires CleanNode(n, k) && CleanInput(i, k) && 0 <= k < INT_MAX && (i.Receive? ==> ShapedMessage(i.msg))
    ensures StoresWell(n, i)
  {
  }

  // ---------------------------------------------------------------- clean runs

  /** No client sends a command with the delimiter in it. */
  ghost predicate CleanRun(es: seq<Event>) {
    forall k :: 0 <= k < |es| && es[k].Local? && es[k].input.Request? ==> DELIMITER !in es[k].input.content
  }

  ghost predicate CleanWorld(w: World, k: int) {
    && (forall x :: x in w.nodes ==> CleanNode(w.nodes[x], k))
    && (forall j :: 0 <= j < |w.net| ==> CleanMessage(w.net[j].msg, k))
  }

  lemma CleanEvent(w: World, e: Event, k: int)
    requires Chronicled(w) && CleanWorld(w, k) && Enabled(w, e) && 0 <= k
    requires e.Local? && e.input.Request? ==> DELIMITER !in e.input.content
    ensures CleanInput(InputOf(w, e), k) && CleanWorld(Apply(w, e), k + 1)
  {
    var x, i := Actor(w, e), InputOf(w, e);
    EventFits(w, e);
    CleanStep(w.nodes[x], i, k);
    CleanRecord(w, x, i, PacketOf(e), Step(w.nodes[x], i), k);
  }

  lemma CleanRecord(w: World, x: int, i: Input, packet: int, r: Res, k: int)
    requires WellFormed(w) && x in w.nodes && (0 <= packet < |w.net| || packet == -1) && CleanWorld(w, k)
    requires CleanNode(r.node, k + 1) && CleanOut(r.out, k + 1)
    ensures CleanWorld(Record(w, x, i, packet, r), k + 1)
  {
    var w' := Record(w, x, i, packet, r);
    forall j | 0 <= j < |w'.net| ensures CleanMessage(w'.net[j].msg, k + 1) {
      if j < |w.net| { assert w'.net[j] == w.net[j]; } else { assert w'.net[j].msg == r.out[j - |w.net|].msg; }
    }
  }

  lemma {:induction false} RunIsClean(c: Config, es: seq<Event>)
    requires CleanRun(es)
    ensures CleanWorld(Run(c, es), |es|)
  {
    if es == [] {
      InitIsClean(c);
    } else {
      var front, e := es[..|es| - 1], es[|es| - 1];
      assert forall k :: 0 <= k < |front| ==> front[k] == es[k];
      RunIsClean(c, front);
      RunChronicled(c, front);
      EventIsClean(Run(c, front), e, |es| - 1);
    }
  }

  lemma InitIsClean(c: Config)
    ensures CleanWorld(Init(c), 0)
  {
  }

  lemma EventIsClean(w: World, e: Event, k: int)
    requires Chronicled(w) && CleanWorld(w, k) && 0 <= k
    requires e.Local? && e.input.Request? ==> DELIMITER !in e.input.content
    ensures CleanWorld(Apply(w, e), k + 1)
  {
    if Enabled(w, e) { CleanEvent(w, e, k); }
  }

  /**
   * In a run in which no client sends the delimiter, and that is short enough for all numbers to be
   * ints, the file of every node shows its log.
   */
  lemma FilesShowLogs(c: Config, es: seq<Event>, x: int)
    requires CleanRun(es) && |es| < INT_MAX && x in Run(c, es).nodes
    ensures var log := Run(c, es).nodes[x].log;
            AllStorable(log) && Shows(EncodeAll(log), log)
  {
    RunIsClean(c, es);
    var n := Run(c, es).nodes[x];
    assert CleanNode(n, |es|);
    ShowsExactly(n.log);
  }

  /** And every step of such a run appends only what can be stored, so a program that keeps the file follows it. */
  lemma StepsFit(c: Config, es: seq<Event>, e: Event)
    requires CleanRun(es + [e]) && |es| < INT_MAX && Enabled(Run(c, es), e)
    ensures var w := Run(c, es); StoresWell(w.nodes[Actor(w, e)], InputOf(w, e))
  {
    var w := Run(c, es);
    assert forall k :: 0 <= k < |es| ==> (es + [e])[k] == es[k];
    assert (es + [e])[|es|] == e;
    RunIsClean(c, es);
    RunChronicled(c, es);
    EventFits(w, e);
    CleanEvent(w, e, |es|);
    CleanFits(w.nodes[Actor(w, e)], InputOf(w, e), |es|);
  }

  // ---------------------------------------------------------------- the delimiter in a command

  /** The first read ends at the delimiter inside the command. */
  lemma CutRead(s: string, t: string, term: int, rest: string, e: Entry)
    requires DELIMITER !in s && IsInt(term)
    ensures Read(Reader(Encode(Entry(1, term, s + [DELIMITER] + t)) + rest, true), e)
            == (Reader(t + [DELIMITER] + rest, true), Entry(1, term, s))
  {
    CutLine(s, t);
    ReadEncoded(Entry(1, term, s + [DELIMITER] + t), rest, e);
    ConvertToString(1);
    ConvertToString(term);
  }

  /** The next read takes the rest of the command for an index, and the entry in hand stays what it was. */
  lemma StaleRead(t: string, y: Entry, e: Entry)
    requires DELIMITER !in t && Stoi(t).None?
    ensures Read(Reader(t + [DELIMITER] + Encode(y), true), e) == (Reader(y.content + [DELIMITER], true), e)
  {
    var tail := y.content + [DELIMITER];
    var mid := ToString(y.term) + [DELIMITER] + tail;
    NumberHasNoDelimiter(y.index);
    NumberHasNoDelimiter(y.term);
    assert Encode(y) == ToString(y.index) + [DELIMITER] + mid;
    CutLine(t, Encode(y));
    CutLine(ToString(y.index), mid);
    CutLine(ToString(y.term), tail);
  }

  lemma ShortRead(content: string, e: Entry)
    requires DELIMITER !in content
    ensures Read(Reader(content + [DELIMITER], true), e) == (SPENT, e)
  {
    assert content + [DELIMITER] == content + [DELIMITER] + "";
    CutLine(content, "");
  }

  /** A file with such a command before another entry: the last entry is found to have index 1, and no other is. */
  lemma StaleFile(s: string, t: string, term: int, y: Entry, e: Entry)
    requires DELIMITER !in s && DELIMITER !in t && Stoi(t).None? && IsInt(term) && DELIMITER !in y.content
    ensures var r := Reader(Encode(Entry(1, term, s + [DELIMITER] + t)) + Encode(y), true);
            && FindLast(r, e) == (true, Entry(1, term, s))
            && (forall index: int :: index != 1 ==> !FindIn(r, index, e).0)
  {
    var r0 := Reader(Encode(Entry(1, term, s + [DELIMITER] + t)) + Encode(y), true);
    var r1, r2 := Reader(t + [DELIMITER] + Encode(y), true), Reader(y.content + [DELIMITER], true);
    var first := Entry(1, term, s);
    CutRead(s, t, term, Encode(y), e);
    StaleRead(t, y, first);
    ShortRead(y.content, first);
    LeftoverStep(r1, first, r2, first);
    assert Leftover(r2, first) == first;
    forall index: int | index != 1 ensures !FindIn(r0, index, e).0 {
      assert FindIn(r0, index, e) == FindIn(r1, index, first);
      assert FindIn(r1, index, first) == FindIn(r2, index, first);
      assert FindIn(r2, index, first) == (false, first);
    }
  }

  lemma TwoCommands(reach: WorldSet, a: string, b: string) returns (w: World)
    requires Closed(reach) && reach(Init(THREE))
    ensures reach(w) && 1 in w.nodes && w.nodes[1].role == Leader && w.nodes[1].lastEntryIndex == 2
    ensures w.nodes[1].log == [Entry(1, 2, a), Entry(2, 2, b)]
  {
    var w1 := OneElected(reach);
    var w2 := TakesCommand(reach, w1, 1, a);
    w := TakesCommand(reach, w2, 1, b);
  }

  /**
   * Without the condition the file shows something else: a leader that takes a command with the
   * delimiter in it, and then another, finds its last entry to have index 1 and its second not at all.
   */
  lemma DelimiterHidesEntries(s: string, t: string, b: string) returns (w: World)
    requires DELIMITER !in s && DELIMITER !in t && Stoi(t).None? && DELIMITER !in b
    ensures Reachable(w) && 1 in w.nodes && w.nodes[1].role == Leader
    ensures var n := w.nodes[1];
            var r := Reader(EncodeAll(n.log), true);
            && n.lastEntryIndex == |n.log| == 2
            && FindLast(r, NO_ENTRY).1.index == 1 && !FindIn(r, 2, NO_ENTRY).0
            && !Shows(EncodeAll(n.log), n.log)
  {
    ReachablesClosed();
    var a := s + [DELIMITER] + t;
    w := TwoCommands(Reachables(), a, b);
    var x, y := Entry(1, 2, a), Entry(2, 2, b);
    assert EncodeAll([x, y]) == Encode(x) + Encode(y) by {
      assert [x, y][..1] == [x] && [x][..0] == [];
      assert EncodeAll([x]) == "" + Encode(x);
    }
    StaleFile(s, t, 2, y, NO_ENTRY);
    ShowsExactly([x, y]);
    assert !Storable([x, y][0]) by { assert a[|s|] == DELIMITER; }
  }
}
