/**
 * The server: commands against the database, the record of those that change it, and what
 * replaying that record after a restart brings back.
 */
module Recovery {
  import opened EntryLog
  import opened Decimal
  import opened Protocol
  import opened RoundTrip
  import opened ClientDrain
  import opened Records

  type Db = map<string, string>

  /** A command's return code, the database it leaves, and the body of its reply. */
  datatype Ran = Ran(ok: bool, db: Db, reply: Option<string>)

  function RunSet(db: Db, argv: seq<string>): Ran {
    if |argv| != 3 then Ran(false, db, Some("set no complete yet"))
    else Ran(true, db[argv[1] := argv[2]], Some("ok"))
  }

  function RunDel(db: Db, argv: seq<string>): Ran {
    if |argv| != 2 then Ran(false, db, None)
    else if argv[1] !in db then Ran(true, db, Some("Pardon?"))
    else Ran(true, db - {argv[1]}, Some("OK"))
  }

  function RunGet(db: Db, argv: seq<string>): Ran {
    if |argv| != 2 then Ran(false, db, Some("get no complete yet"))
    else if argv[1] !in db then Ran(true, db, Some("Pardon?"))
    else Ran(true, db, Some(db[argv[1]]))
  }

  function RunCommand(db: Db, argv: seq<string>): Ran
    requires argv != []
  {
    if argv[0] == "get" then RunGet(db, argv)
    else if argv[0] == "set" then RunSet(db, argv)
    else if argv[0] == "del" then RunDel(db, argv)
    else Ran(true, db, Some("no match command"))
  }

  predicate NeedPF(name: string) { name == "set" || name == "del" }

  // ---------------------------------------------------------------- the live server

  /** A command as sent, whose bytes the record can hold. */
  predicate Recordable(s: Sent) {
    Printable(true, s.commandType, s.args) && DELIMITER !in Frame(true, s.commandType, s.args)
  }

  predicate AllRecordable(cmds: seq<Sent>) { forall i :: 0 <= i < |cmds| ==> Recordable(cmds[i]) }

  function RecordOf(s: Sent): Entry { Entry(0, 0, Frame(true, s.commandType, s.args)) }

  /** The database after the commands, in the order in which they were executed. */
  function LiveDb(db: Db, cmds: seq<Sent>): Db
    requires forall i :: 0 <= i < |cmds| ==> cmds[i].args != []
    decreases |cmds|
  {
    if cmds == [] then db else LiveDb(RunCommand(db, cmds[0].args).db, cmds[1..])
  }

  /** The persistence file after the commands. */
  function LiveFile(file: string, cmds: seq<Sent>): string
    requires forall i :: 0 <= i < |cmds| ==> cmds[i].args != []
    decreases |cmds|
  {
    if cmds == [] then file
    else LiveFile(file + (if NeedPF(cmds[0].args[0]) then Encode(RecordOf(cmds[0])) else ""), cmds[1..])
  }

  /** The value of the last well-formed set of the key, unless a del of it came later. */
  function LastWrite(cmds: seq<Sent>, key: string): Option<string> {
    if cmds == [] then None
    else
      var args := cmds[|cmds| - 1].args;
      if |args| == 3 && args[0] == "set" && args[1] == key then Some(args[2])
      else if |args| == 2 && args[0] == "del" && args[1] == key then None
      else LastWrite(cmds[..|cmds| - 1], key)
  }

  lemma {:induction false} LiveDbSnoc(db: Db, cmds: seq<Sent>)
    requires cmds != [] && forall i :: 0 <= i < |cmds| ==> cmds[i].args != []
    ensures LiveDb(db, cmds) == RunCommand(LiveDb(db, cmds[..|cmds| - 1]), cmds[|cmds| - 1].args).db
    decreases |cmds|
  {
    if |cmds| == 1 {
      assert cmds[1..] == [] && cmds[..0] == [];
    } else {
      var next := RunCommand(db, cmds[0].args).db;
      LiveDbSnoc(next, cmds[1..]);
      assert cmds[1..][..|cmds| - 2] == cmds[..|cmds| - 1][1..];
    }
  }

  /** The database answers every key with the last write to it, whatever else was executed. */
  lemma {:induction false} LastWriteWins(cmds: seq<Sent>, key: string)
    requires forall i :: 0 <= i < |cmds| ==> cmds[i].args != []
    ensures var db := LiveDb(map[], cmds);
            LastWrite(cmds, key) == if key in db then Some(db[key]) else None
    decreases |cmds|
  {
    if cmds != [] {
      LastWriteWins(cmds[..|cmds| - 1], key);
      LiveDbSnoc(map[], cmds);
    }
  }

  /** A get is answered with the last write. */
  lemma GetAnswersLastWrite(cmds: seq<Sent>, key: string)
    requires forall i :: 0 <= i < |cmds| ==> cmds[i].args != []
    ensures var ran := RunCommand(LiveDb(map[], cmds), ["get", key]);
            && ran.ok && ran.db == LiveDb(map[], cmds)
            && ran.reply == match LastWrite(cmds, key) case Some(v) => Some(v) case None => Some("Pardon?")
  {
    LastWriteWins(cmds, key);
  }

  // ---------------------------------------------------------------- the replay

  datatype Replay = Imported | Stopped | Died

  /** What one entry does to the replay: it ends it, or the client is reset for the next. */
  datatype Turn = Halt(end: Replay, db: Db) | GoOn(parser: Parser, db: Db)

  /** The replay's client between two entries. */
  predicate Idling(p: Parser) { p.argv == [] && !p.complete && p.argc == -1 }

  function ImportEntry(p: Parser, content: string, db: Db): (t: Turn)
    requires Idling(p)
    ensures t.GoOn? ==> Idling(t.parser)
  {
    var (o, q) := Resolve(Feed(p, content));
    if o == Failed then Halt(Stopped, db)
    else if o != Done then Halt(Died, db)
    else if !q.complete then GoOn(Ready(q), db)
    else
      CompleteHasName(Feed(p, content));
      var ran := RunCommand(db, q.argv);
      if ran.ok then GoOn(Ready(q), ran.db) else Halt(Stopped, ran.db)
  }

  /** importPF, from the entry and the local client's parser it holds. */
  function Import(r: Reader, e: Entry, p: Parser, db: Db): (Replay, Db)
    requires Idling(p)
    decreases |r.rest|
  {
    var (r', e') := Read(r, e);
    if !r'.good then (Imported, db)
    else
      match ImportEntry(p, e'.content, db)
      case Halt(end, db') => (end, db')
      case GoOn(p', db') => Import(r', e', p', db')
  }

  lemma CompleteHasName(p: Parser)
    requires !p.complete && p.argc == -1 && Resolve(p).0 == Done && Resolve(p).1.complete
    ensures Resolve(p).1.argv != []
  {
    var q := TypeStage(HeaderStage(p).parser).parser;
    LoopHasName(q);
  }

  lemma {:induction false} LoopHasName(p: Parser)
    requires Args(p).0 == Done && (p.complete ==> p.argv != [])
    ensures Args(p).1.complete ==> Args(p).1.argv != []
    decreases |p.input|
  {
    if Available(p.input) {
      var q := ArgStep(p).1;
      if !(p.argvLen != -1 && q.argc == 0) { LoopHasName(q); }
    }
  }

  // ---------------------------------------------------------------- record and replay

  function Entries(cmds: seq<Sent>): seq<Entry>
    requires forall i :: 0 <= i < |cmds| ==> cmds[i].args != []
  {
    if cmds == [] then []
    else (if NeedPF(cmds[0].args[0]) then [RecordOf(cmds[0])] else []) + Entries(cmds[1..])
  }

  lemma {:induction false} EntriesStorable(cmds: seq<Sent>)
    requires AllRecordable(cmds)
    ensures AllStorable(Entries(cmds))
  {
    if cmds != [] { EntriesStorable(cmds[1..]); }
  }

  lemma {:induction false} FileHoldsEntries(file: string, cmds: seq<Sent>)
    requires AllRecordable(cmds)
    ensures LiveFile(file, cmds) == file + EncodeAll(Entries(cmds))
    decreases |cmds|
  {
    if cmds == [] {
      assert file + "" == file;
    } else {
      var rest := Entries(cmds[1..]);
      if NeedPF(cmds[0].args[0]) {
        var bytes := Encode(RecordOf(cmds[0]));
        FileHoldsEntries(file + bytes, cmds[1..]);
        EncodeFront([RecordOf(cmds[0])] + rest);
        assert ([RecordOf(cmds[0])] + rest)[1..] == rest;
        Assoc(file, bytes, EncodeAll(rest));
      } else {
        assert file + "" == file && [] + rest == rest;
        FileHoldsEntries(file, cmds[1..]);
      }
    }
  }

  /** A recorded command that fails: the live server drops its client, the replay stops at it. */
  predicate Poisonous(s: Sent)
    requires s.args != []
  {
    NeedPF(s.args[0]) && |s.args| != (if s.args[0] == "set" then 3 else 2)
  }

  function FirstPoison(cmds: seq<Sent>): (k: nat)
    requires forall i :: 0 <= i < |cmds| ==> cmds[i].args != []
    ensures k <= |cmds|
    ensures forall i :: 0 <= i < k ==> !Poisonous(cmds[i])
    ensures k < |cmds| ==> Poisonous(cmds[k])
  {
    if cmds == [] || Poisonous(cmds[0]) then 0 else 1 + FirstPoison(cmds[1..])
  }

  predicate FreshTyped(p: Parser) {
    Boundary(p) && p.input == "" && p.hasType && !p.wrap
  }

  lemma RecordResolves(p: Parser, s: Sent)
    requires FreshTyped(p) && Printable(true, s.commandType, s.args)
    ensures var (o, q) := Resolve(Feed(p, RecordOf(s).content));
            o == Done && q.complete && q.argv == s.args && Ready(q) == p
  {
    var frame := Frame(true, s.commandType, s.args);
    assert Feed(p, frame).input == frame + "";
    PrintThenParse(Feed(p, frame), s.commandType, s.args, "");
  }

  lemma ImportStep(r: Reader, e: Entry, p: Parser, db: Db, next: Reader, s: Sent)
    requires FreshTyped(p) && Recordable(s)
    requires Read(r, e) == (next, RecordOf(s)) && next.good
    ensures var ran := RunCommand(db, s.args);
            Import(r, e, p, db) == if ran.ok then Import(next, RecordOf(s), p, ran.db) else (Stopped, ran.db)
  {
    RecordResolves(p, s);
  }

  lemma RecordRead(cmds: seq<Sent>, e: Entry)
    requires AllRecordable(cmds) && cmds != [] && NeedPF(cmds[0].args[0])
    ensures Read(Reader(EncodeAll(Entries(cmds)), true), e)
            == (Reader(EncodeAll(Entries(cmds[1..])), true), RecordOf(cmds[0]))
  {
    var log := Entries(cmds);
    EntriesStorable(cmds);
    assert log[0] == RecordOf(cmds[0]) && log[1..] == Entries(cmds[1..]);
    ReadFront(log, e);
  }

  /** What a restart brings back: everything before the first poisonous command. */
  function Recovered(db: Db, cmds: seq<Sent>): (Replay, Db)
    requires forall i :: 0 <= i < |cmds| ==> cmds[i].args != []
  {
    var k := FirstPoison(cmds);
    (if k == |cmds| then Imported else Stopped, LiveDb(db, cmds[..k]))
  }

  lemma PoisonFails(db: Db, s: Sent)
    requires s.args != []
    ensures Poisonous(s) <==> NeedPF(s.args[0]) && !RunCommand(db, s.args).ok
    ensures !NeedPF(s.args[0]) ==> RunCommand(db, s.args).db == db
  {
  }

  lemma RecoveredStep(db: Db, cmds: seq<Sent>)
    requires cmds != [] && forall i :: 0 <= i < |cmds| ==> cmds[i].args != []
    ensures Recovered(db, cmds)
            == if Poisonous(cmds[0]) then (Stopped, db) else Recovered(RunCommand(db, cmds[0].args).db, cmds[1..])
  {
    var k := FirstPoison(cmds);
    if !Poisonous(cmds[0]) {
      assert cmds[..k][1..] == cmds[1..][..k - 1];
    }
  }

  /** The replay of a record brings back what it should, whatever entry the loop has in hand. */
  ghost predicate Replays(cmds: seq<Sent>, p: Parser, db: Db)
    requires AllRecordable(cmds) && FreshTyped(p)
  {
    forall e :: Import(Reader(EncodeAll(Entries(cmds)), true), e, p, db) == Recovered(db, cmds)
  }

  lemma ReplaysNothing(p: Parser, db: Db)
    requires FreshTyped(p)
    ensures Replays([], p, db)
  {
    forall e ensures Import(Reader("", true), e, p, db) == Recovered(db, []) {
      assert Read(Reader("", true), e) == (SPENT, e);
    }
  }

  lemma ReplaysUnrecorded(cmds: seq<Sent>, p: Parser, db: Db)
    requires AllRecordable(cmds) && FreshTyped(p) && cmds != [] && !NeedPF(cmds[0].args[0])
    requires Replays(cmds[1..], p, db)
    ensures Replays(cmds, p, db)
  {
    RecoveredStep(db, cmds);
    PoisonFails(db, cmds[0]);
    assert [] + Entries(cmds[1..]) == Entries(cmds[1..]);
  }

  lemma ReplaysRecorded(cmds: seq<Sent>, p: Parser, db: Db)
    requires AllRecordable(cmds) && FreshTyped(p) && cmds != [] && NeedPF(cmds[0].args[0])
    requires Poisonous(cmds[0]) || Replays(cmds[1..], p, RunCommand(db, cmds[0].args).db)
    ensures Replays(cmds, p, db)
  {
    RecoveredStep(db, cmds);
    PoisonFails(db, cmds[0]);
    var r, next := Reader(EncodeAll(Entries(cmds)), true), Reader(EncodeAll(Entries(cmds[1..])), true);
    forall e ensures Import(r, e, p, db) == Recovered(db, cmds) {
      RecordRead(cmds, e);
      ImportStep(r, e, p, db, next, cmds[0]);
    }
  }

  lemma {:induction false} EntriesReplay(cmds: seq<Sent>, p: Parser, db: Db)
    requires FreshTyped(p) && AllRecordable(cmds)
    ensures Replays(cmds, p, db)
    decreases |cmds|
  {
    if cmds == [] {
      ReplaysNothing(p, db);
    } else if NeedPF(cmds[0].args[0]) {
      if !Poisonous(cmds[0]) { EntriesReplay(cmds[1..], p, RunCommand(db, cmds[0].args).db); }
      ReplaysRecorded(cmds, p, db);
    } else {
      EntriesReplay(cmds[1..], p, db);
      ReplaysUnrecorded(cmds, p, db);
    }
  }

  // ---------------------------------------------------------------- main results

  /**
   * What a restart brings back: the database as it was before the first recorded command with a
   * wrong number of arguments, and the whole live database if there was none.
   */
  lemma ReplayIsExact(cmds: seq<Sent>, p: Parser)
    requires FreshTyped(p) && AllRecordable(cmds)
    ensures Import(Reader(LiveFile("", cmds), true), NO_ENTRY, p, map[]) == Recovered(map[], cmds)
  {
    FileHoldsEntries("", cmds);
    assert "" + EncodeAll(Entries(cmds)) == EncodeAll(Entries(cmds));
    EntriesReplay(cmds, p, map[]);
  }

  /** Recovery rebuilds the database, and reports success, exactly if no recorded command was poisonous. */
  lemma RecoveryRebuilds(cmds: seq<Sent>, p: Parser)
    requires FreshTyped(p) && AllRecordable(cmds)
    ensures (forall i :: 0 <= i < |cmds| ==> !Poisonous(cmds[i]))
            <==> Import(Reader(LiveFile("", cmds), true), NO_ENTRY, p, map[]) == (Imported, LiveDb(map[], cmds))
  {
    ReplayIsExact(cmds, p);
    assert cmds[..|cmds|] == cmds;
    var k := FirstPoison(cmds);
    if k < |cmds| { assert Poisonous(cmds[k]); }
  }

  function Half(key: string): Sent { Sent('w', ["set", key]) }

  function Full(key: string, value: string): Sent { Sent('w', ["set", key, value]) }

  lemma HalfThenFull(key: string, value: string)
    requires |key| <= INT_MAX && |value| <= INT_MAX && DELIMITER !in key && DELIMITER !in value
    ensures AllRecordable([Half(key), Full(key, value)])
  {
    FrameHasNoDelimiter(Half(key));
    FrameHasNoDelimiter(Full(key, value));
  }

  lemma HalfSetIsIgnored(key: string, value: string)
    ensures LiveDb(map[], [Half(key), Full(key, value)]) == map[key := value]
    ensures FirstPoison([Half(key), Full(key, value)]) == 0
  {
    var cmds := [Half(key), Full(key, value)];
    assert cmds[1..] == [Full(key, value)] && cmds[1..][1..] == [];
    assert RunCommand(map[], cmds[0].args).db == map[];
    assert RunCommand(map[], cmds[1].args).db == map[key := value];
    assert LiveDb(map[], cmds) == LiveDb(map[], cmds[1..]);
    assert LiveDb(map[], cmds[1..]) == LiveDb(map[key := value], []);
    assert Poisonous(cmds[0]);
  }

  /** A set without a value is answered with an error, and the next restart loses all that came after it. */
  lemma PoisonLosesData(p: Parser, key: string, value: string)
    requires FreshTyped(p) && |key| <= INT_MAX && |value| <= INT_MAX && DELIMITER !in key && DELIMITER !in value
    ensures var cmds := [Half(key), Full(key, value)];
            && LiveDb(map[], cmds) == map[key := value]
            && Import(Reader(LiveFile("", cmds), true), NO_ENTRY, p, map[]) == (Stopped, map[])
  {
    HalfThenFull(key, value);
    HalfSetIsIgnored(key, value);
    ReplayIsExact([Half(key), Full(key, value)], p);
  }

  lemma {:induction false} BodiesHaveNoDelimiter(args: seq<string>)
    requires forall i :: 0 <= i < |args| ==> DELIMITER !in args[i]
    ensures DELIMITER !in Bodies(args)
  {
    if args != [] {
      NumberHasNoDelimiter(|args[0]|);
      BodiesHaveNoDelimiter(args[1..]);
    }
  }

  lemma FrameHasNoDelimiter(s: Sent)
    requires s.commandType != DELIMITER && forall i :: 0 <= i < |s.args| ==> DELIMITER !in s.args[i]
    ensures DELIMITER !in Frame(true, s.commandType, s.args)
  {
    NumberHasNoDelimiter(|s.args|);
    BodiesHaveNoDelimiter(s.args);
  }
}
