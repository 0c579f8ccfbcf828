/** Committed commands flushed to the child servers, one index a time. */
module Flush {
  import opened EntryLog
  import opened Decimal
  import opened Protocol
  import opened RoundTrip
  import opened Records
  import opened Ring
  import opened ChildServers

  /** The server that answers for a command: none, a connection, or the end of the process. */
  datatype Respond = Nobody | Server(client: int) | Abort

  /** getRespondServer, for any hash function. */
  function RespondServer(k: Kids, hash: string -> nat, content: string): Respond {
    var (o, q) := Resolve(Feed(NEW_STREAM, content));
    if o == Failed then Nobody
    else if o != Done || q.argv == [] then Abort
    else
      var key := if |q.argv| == 1 then q.argv[0] else q.argv[1];
      if k.ring == [] then Nobody
      else
        var id := Owner(k.ring, hash(key) % HASH_VALUE_MAX);
        if id !in k.child || id !in k.status || !k.status[id] then Abort
        else match k.child[id] case None => Nobody case Some(client) => Server(client)
  }

  /** What one call of flushServer does. */
  datatype Flushed = Quiet | Sent(index: int, client: int, content: string) | Skipped(index: int) | Exit

  function FlushOnce(k: Kids, hash: string -> nat, lastApplied: int, commitIndex: int, file: string): (Flushed, int) {
    if commitIndex == lastApplied then (Quiet, lastApplied)
    else if commitIndex < lastApplied then (Exit, lastApplied)
    else
      var index := lastApplied + 1;
      var (found, e) := FindIn(Reader(file, true), index, NO_ENTRY);
      if !found then (Skipped(index), index)
      else
        match RespondServer(k, hash, e.content)
        case Nobody => (Skipped(index), index)
        case Abort => (Exit, index)
        case Server(client) => (Sent(index, client, e.content), index)
  }

  /** What a call finds: connections, commit index and log, all free to change between calls. */
  datatype Scene = Scene(kids: Kids, commitIndex: int, file: string)

  /** A call as a function of what it finds and lastApplied; the proofs over runs see no more of it. */
  type Call = (Scene, int) -> (Flushed, int)

  function Caller(hash: string -> nat): Call {
    (s: Scene, last: int) => FlushOnce(s.kids, hash, last, s.commitIndex, s.file)
  }

  /** All calls since lastApplied was last set to 0: their results and lastApplied. */
  function FlushAll(call: Call, scenes: seq<Scene>): (seq<Flushed>, int) {
    if scenes == [] then ([], 0)
    else
      var (done, last) := FlushAll(call, scenes[..|scenes| - 1]);
      if Exit in done then (done, last)
      else
        var (f, last') := call(scenes[|scenes| - 1], last);
        (done + [f], last')
  }

  /** The indexes sent, in order. */
  function SentIndexes(done: seq<Flushed>): seq<int> {
    if done == [] then []
    else
      var before := SentIndexes(done[..|done| - 1]);
      match done[|done| - 1] case Sent(i, _, _) => before + [i] case _ => before
  }

  predicate NoneSkipped(done: seq<Flushed>) { forall i :: 0 <= i < |done| ==> !done[i].Skipped? && !done[i].Exit? }

  // ---------------------------------------------------------------- order, whatever happens

  /** lastApplied rises by one with every attempt, and what is sent is the entry at the new lastApplied. */
  ghost predicate Moves(f: Flushed, last: int, last': int) {
    && last <= last' <= last + 1
    && (f.Sent? || f.Skipped? ==> last' == last + 1)
    && (f == Quiet ==> last' == last)
    && (f.Sent? ==> f.index == last')
  }

  ghost predicate Steady(call: Call) {
    forall s: Scene, last: int :: Moves(call(s, last).0, last, call(s, last).1)
  }

  lemma CallerSteady(hash: string -> nat)
    ensures Steady(Caller(hash))
  {
    forall s: Scene, last: int ensures Moves(Caller(hash)(s, last).0, last, Caller(hash)(s, last).1) {
      OnceMoves(s, hash, last);
    }
  }

  lemma OnceMoves(s: Scene, hash: string -> nat, last: int)
    ensures var r := FlushOnce(s.kids, hash, last, s.commitIndex, s.file); Moves(r.0, last, r.1)
  {
  }

  lemma SentSnoc(done: seq<Flushed>, f: Flushed)
    ensures SentIndexes(done + [f]) == SentIndexes(done) + (if f.Sent? then [f.index] else [])
  {
    assert (done + [f])[..|done|] == done;
  }

  /** Strictly increasing, from 1 to at most last. */
  ghost predicate Increasing(s: seq<int>, last: int) {
    && (forall i :: 0 <= i < |s| ==> 1 <= s[i] <= last)
    && (forall i, j :: 0 <= i < j < |s| ==> s[i] < s[j])
  }

  lemma IncreasingSnoc(s: seq<int>, f: Flushed, last: int, last': int)
    requires Increasing(s, last) && 0 <= last && Moves(f, last, last')
    ensures Increasing(s + (if f.Sent? then [f.index] else []), last')
  {
  }

  lemma {:induction false} SentIncreasing(call: Call, scenes: seq<Scene>)
    requires Steady(call)
    ensures var (done, last) := FlushAll(call, scenes);
            last >= 0 && Increasing(SentIndexes(done), last)
    decreases |scenes|
  {
    if scenes != [] {
      var front, s := scenes[..|scenes| - 1], scenes[|scenes| - 1];
      SentIncreasing(call, front);
      var (done, last) := FlushAll(call, front);
      if Exit !in done {
        var (f, last') := call(s, last);
        assert Moves(f, last, last');
        SentSnoc(done, f);
        IncreasingSnoc(SentIndexes(done), f, last, last');
      }
    }
  }

  /** Whatever the calls find, no index is sent twice or out of order. */
  lemma NeverTwice(hash: string -> nat, scenes: seq<Scene>)
    ensures var (done, last) := FlushAll(Caller(hash), scenes);
            last >= 0 && Increasing(SentIndexes(done), last)
  {
    CallerSteady(hash);
    SentIncreasing(Caller(hash), scenes);
  }

  /** 1, 2, ..., n. */
  function UpTo(n: nat): (s: seq<int>)
    ensures |s| == n && forall i :: 0 <= i < n ==> s[i] == i + 1
  {
    if n == 0 then [] else UpTo(n - 1) + [n]
  }

  lemma NoneSkippedSnoc(done: seq<Flushed>, f: Flushed)
    ensures NoneSkipped(done + [f]) <==> NoneSkipped(done) && !f.Skipped? && !f.Exit?
  {
    assert (done + [f])[|done|] == f;
    assert forall i :: 0 <= i < |done| ==> (done + [f])[i] == done[i];
  }

  lemma UpToSnoc(s: seq<int>, i: int, n: nat)
    ensures s + [i] == UpTo(n + 1) <==> s == UpTo(n) && i == n + 1
  {
    if s + [i] == UpTo(n + 1) {
      assert |s| == n && (s + [i])[..n] == s && UpTo(n + 1)[..n] == UpTo(n);
      assert (s + [i])[n] == i;
    }
  }

  lemma {:induction false} SentGapFree(call: Call, scenes: seq<Scene>)
    requires Steady(call) && Exit !in FlushAll(call, scenes).0
    ensures var (done, last) := FlushAll(call, scenes);
            |SentIndexes(done)| <= last && (SentIndexes(done) == UpTo(last) <==> NoneSkipped(done))
    decreases |scenes|
  {
    if scenes != [] {
      var front, s := scenes[..|scenes| - 1], scenes[|scenes| - 1];
      var (done, last) := FlushAll(call, front);
      assert Exit !in done;
      var (f, last') := call(s, last);
      SentGapFree(call, front);
      assert (done + [f])[|done|] == f;
      assert Moves(f, last, last');
      SentSnoc(done, f);
      NoneSkippedSnoc(done, f);
      if f.Sent? { UpToSnoc(SentIndexes(done), f.index, last); }
    }
  }

  /** lastApplied as call i finds it. */
  function LastBefore(call: Call, scenes: seq<Scene>, i: nat): int
    requires i <= |scenes|
  {
    FlushAll(call, scenes[..i]).1
  }

  function ResultOf(call: Call, scenes: seq<Scene>, i: nat): Flushed
    requires i < |scenes|
  {
    call(scenes[i], LastBefore(call, scenes, i)).0
  }

  /** As long as no call ends the process, each call does what it does where it finds lastApplied. */
  lemma {:induction false} ResultsInOrder(call: Call, scenes: seq<Scene>)
    requires forall i :: 0 <= i < |scenes| ==> !ResultOf(call, scenes, i).Exit?
    ensures var done := FlushAll(call, scenes).0;
            && Exit !in done && |done| == |scenes|
            && forall i :: 0 <= i < |scenes| ==> done[i] == ResultOf(call, scenes, i)
    decreases |scenes|
  {
    if scenes != [] {
      var n := |scenes| - 1;
      var front := scenes[..n];
      forall i | 0 <= i < n ensures ResultOf(call, front, i) == ResultOf(call, scenes, i) {
        assert front[..i] == scenes[..i];
      }
      ResultsInOrder(call, front);
      var f := ResultOf(call, scenes, n);
      assert FlushAll(call, scenes).0 == FlushAll(call, front).0 + [f];
    }
  }

  /** The guards of flushServer: an entry that is due but not found, or for which no server is found. */
  predicate Skips(hash: string -> nat, s: Scene, last: int) {
    && last < s.commitIndex
    && var (found, e) := FindIn(Reader(s.file, true), last + 1, NO_ENTRY);
       !found || RespondServer(s.kids, hash, e.content) == Nobody
  }

  /** A commit index behind lastApplied, or a search for the server that ends the process. */
  predicate Exits(hash: string -> nat, s: Scene, last: int) {
    || s.commitIndex < last
    || (&& last < s.commitIndex
        && var (found, e) := FindIn(Reader(s.file, true), last + 1, NO_ENTRY);
           found && RespondServer(s.kids, hash, e.content) == Abort)
  }

  lemma OnceSkipsOrExits(hash: string -> nat, s: Scene, last: int)
    ensures Caller(hash)(s, last).0.Skipped? <==> Skips(hash, s, last)
    ensures Caller(hash)(s, last).0.Exit? <==> Exits(hash, s, last)
  {
  }

  /**
   * The exact condition: while the process lives, the indexes sent are 1, 2, ..., lastApplied if
   * and only if no call finds its entry missing or no server for it.
   */
  lemma GapFreeExactly(hash: string -> nat, scenes: seq<Scene>)
    requires forall i :: 0 <= i < |scenes| ==> !Exits(hash, scenes[i], LastBefore(Caller(hash), scenes, i))
    ensures var (done, last) := FlushAll(Caller(hash), scenes);
            && last >= 0
            && (SentIndexes(done) == UpTo(last)
                <==> forall i :: 0 <= i < |scenes| ==> !Skips(hash, scenes[i], LastBefore(Caller(hash), scenes, i)))
  {
    var call := Caller(hash);
    forall i | 0 <= i < |scenes|
      ensures ResultOf(call, scenes, i).Exit? <==> Exits(hash, scenes[i], LastBefore(call, scenes, i))
      ensures ResultOf(call, scenes, i).Skipped? <==> Skips(hash, scenes[i], LastBefore(call, scenes, i))
    {
      OnceSkipsOrExits(hash, scenes[i], LastBefore(call, scenes, i));
    }
    ResultsInOrder(call, scenes);
    CallerSteady(hash);
    SentGapFree(call, scenes);
    NoneSkippedByGuards(hash, scenes, FlushAll(call, scenes).0);
  }

  lemma NoneSkippedByGuards(hash: string -> nat, scenes: seq<Scene>, done: seq<Flushed>)
    requires |done| == |scenes| && Exit !in done
    requires forall i :: 0 <= i < |scenes| ==>
               (done[i].Skipped? <==> Skips(hash, scenes[i], LastBefore(Caller(hash), scenes, i)))
    ensures NoneSkipped(done)
            <==> forall i :: 0 <= i < |scenes| ==> !Skips(hash, scenes[i], LastBefore(Caller(hash), scenes, i))
  {
    assert forall i :: 0 <= i < |done| ==> done[i] in done;
  }

  // ---------------------------------------------------------------- when nothing is skipped

  /** A stored command that a child server can be found for. */
  ghost predicate CompleteFrame(content: string) {
    exists t: char, args: seq<string> :: Printable(true, t, args) && content == Frame(true, t, args)
  }

  /** Connections as they can be, some server on the ring, and a log of complete frames. */
  ghost predicate Served(s: Scene, log: seq<Entry>) {
    && Consistent(s.kids) && s.kids.ring != []
    && AllStorable(log) && Contiguous(log) && s.file == EncodeAll(log)
    && forall i :: 0 <= i < |log| ==> CompleteFrame(log[i].content)
  }

  lemma FrameHasServer(k: Kids, hash: string -> nat, content: string)
    requires Consistent(k) && k.ring != [] && CompleteFrame(content)
    ensures RespondServer(k, hash, content).Server?
  {
    var t: char, args: seq<string> :| Printable(true, t, args) && content == Frame(true, t, args);
    assert Feed(NEW_STREAM, content).input == content + "";
    PrintThenParse(Feed(NEW_STREAM, content), t, args, "");
    var key := if |args| == 1 then args[0] else args[1];
    var s := NextExists(k.ring, hash(key) % HASH_VALUE_MAX);
    assert OnRing(k, s);
  }

  lemma NextIsFound(log: seq<Entry>, last: nat)
    requires AllStorable(log) && Contiguous(log) && last < |log|
    ensures FindIn(Reader(EncodeAll(log), true), last + 1, NO_ENTRY) == (true, log[last])
  {
    FindAgrees(log, last + 1, NO_ENTRY);
    ContiguousAccess(log, last + 1);
  }

  /** Nothing to do, or the next entry of the log sent. */
  ghost predicate Good(f: Flushed, log: seq<Entry>) {
    f == Quiet || (f.Sent? && 1 <= f.index <= |log| && f.content == log[f.index - 1].content)
  }

  lemma FoundIsSent(s: Scene, hash: string -> nat, last: nat, log: seq<Entry>)
    requires last < s.commitIndex <= |log| && Contiguous(log)
    requires FindIn(Reader(s.file, true), last + 1, NO_ENTRY) == (true, log[last])
    requires RespondServer(s.kids, hash, log[last].content).Server?
    ensures Good(FlushOnce(s.kids, hash, last, s.commitIndex, s.file).0, log)
  {
  }

  lemma DoneIsQuiet(s: Scene, hash: string -> nat, log: seq<Entry>)
    ensures Good(FlushOnce(s.kids, hash, s.commitIndex, s.commitIndex, s.file).0, log)
  {
  }

  lemma ServerForNext(s: Scene, log: seq<Entry>, hash: string -> nat, last: nat)
    requires Served(s, log) && last < |log|
    ensures RespondServer(s.kids, hash, log[last].content).Server?
  {
    assert CompleteFrame(log[last].content);
    FrameHasServer(s.kids, hash, log[last].content);
  }

  lemma ServedFlush(s: Scene, log: seq<Entry>, hash: string -> nat, last: int)
    requires Served(s, log) && 0 <= last <= s.commitIndex <= |log|
    ensures Good(FlushOnce(s.kids, hash, last, s.commitIndex, s.file).0, log)
  {
    if last == s.commitIndex {
      DoneIsQuiet(s, hash, log);
    } else {
      ServerForNext(s, log, hash, last);
      NextIsFound(log, last);
      FoundIsSent(s, hash, last, log);
    }
  }

  /** The call is good wherever between 0 and the commit index lastApplied stands. */
  ghost predicate GoodCall(call: Call, s: Scene, log: seq<Entry>) {
    forall last: int :: 0 <= last <= s.commitIndex <= |log| ==> Good(call(s, last).0, log)
  }

  lemma ServedCall(s: Scene, log: seq<Entry>, hash: string -> nat)
    requires Served(s, log)
    ensures GoodCall(Caller(hash), s, log)
  {
    forall last: int | 0 <= last <= s.commitIndex <= |log| ensures Good(Caller(hash)(s, last).0, log) {
      ServedFlush(s, log, hash, last);
    }
  }

  /** At every call the commit index lies between lastApplied and the end of the log. */
  ghost predicate Between(call: Call, scenes: seq<Scene>, logs: seq<seq<Entry>>) {
    && |logs| == |scenes|
    && forall i :: 0 <= i < |scenes| ==> FlushAll(call, scenes[..i]).1 <= scenes[i].commitIndex <= |logs[i]|
  }

  lemma BetweenFront(call: Call, scenes: seq<Scene>, logs: seq<seq<Entry>>)
    requires scenes != [] && Between(call, scenes, logs)
    ensures Between(call, scenes[..|scenes| - 1], logs[..|scenes| - 1])
  {
    var n := |scenes| - 1;
    assert forall i :: 0 <= i < n ==> scenes[..n][..i] == scenes[..i];
  }

  ghost predicate AllGood(done: seq<Flushed>, logs: seq<seq<Entry>>) {
    |done| == |logs| && forall i :: 0 <= i < |done| ==> Good(done[i], logs[i])
  }

  lemma GoodSnoc(done: seq<Flushed>, f: Flushed, logs: seq<seq<Entry>>)
    requires |logs| == |done| + 1 && AllGood(done, logs[..|done|]) && Good(f, logs[|done|])
    ensures AllGood(done + [f], logs)
  {
    forall i | 0 <= i < |done + [f]| ensures Good((done + [f])[i], logs[i]) {
      if i < |done| { assert logs[..|done|][i] == logs[i]; }
    }
  }

  lemma NoExit(done: seq<Flushed>, logs: seq<seq<Entry>>)
    requires AllGood(done, logs)
    ensures Exit !in done && NoneSkipped(done)
  {
  }

  ghost predicate AllGoodCalls(call: Call, scenes: seq<Scene>, logs: seq<seq<Entry>>) {
    |logs| == |scenes| && forall i :: 0 <= i < |scenes| ==> GoodCall(call, scenes[i], logs[i])
  }

  lemma GoodCallsFront(call: Call, scenes: seq<Scene>, logs: seq<seq<Entry>>)
    requires scenes != [] && AllGoodCalls(call, scenes, logs)
    ensures AllGoodCalls(call, scenes[..|scenes| - 1], logs[..|scenes| - 1])
  {
  }

  lemma {:induction false} GoodCalls(call: Call, scenes: seq<Scene>, logs: seq<seq<Entry>>)
    requires Steady(call) && Between(call, scenes, logs) && AllGoodCalls(call, scenes, logs)
    ensures AllGood(FlushAll(call, scenes).0, logs)
    decreases |scenes|
  {
    if scenes != [] {
      var n := |scenes| - 1;
      BetweenFront(call, scenes, logs);
      GoodCallsFront(call, scenes, logs);
      GoodCalls(call, scenes[..n], logs[..n]);
      SentIncreasing(call, scenes[..n]);
      var (done, last) := FlushAll(call, scenes[..n]);
      NoExit(done, logs[..n]);
      assert GoodCall(call, scenes[n], logs[n]);
      var f := call(scenes[n], last).0;
      assert Good(f, logs[n]);
      GoodSnoc(done, f, logs);
    }
  }

  /**
   * With connections that can be and a log of complete frames at every call, the commands sent to
   * the child servers are those at the indexes 1, 2, ..., lastApplied, each once and in order, with
   * the contents that the log holds there.
   */
  lemma AppliedWithoutGaps(hash: string -> nat, scenes: seq<Scene>, logs: seq<seq<Entry>>)
    requires Between(Caller(hash), scenes, logs)
    requires forall i :: 0 <= i < |scenes| ==> Served(scenes[i], logs[i])
    ensures var (done, last) := FlushAll(Caller(hash), scenes);
            last >= 0 && AllGood(done, logs) && SentIndexes(done) == UpTo(last)
  {
    CallerSteady(hash);
    forall i | 0 <= i < |scenes| ensures GoodCall(Caller(hash), scenes[i], logs[i]) {
      ServedCall(scenes[i], logs[i], hash);
    }
    GoodCalls(Caller(hash), scenes, logs);
    NoExit(FlushAll(Caller(hash), scenes).0, logs);
    SentIncreasing(Caller(hash), scenes);
    SentGapFree(Caller(hash), scenes);
  }
}
