/** The server as the program runs it: database, client and replay, each changed in place. */
module ServerProgram {
  import opened EntryLog
  import opened Decimal
  import opened Protocol
  import opened ProtocolProgram
  import opened RoundTrip
  import opened Records
  import opened PersistenceProgram
  import opened Recovery

  class DataBase {
    var dataSpace: Db

    constructor ()
      ensures dataSpace == map[]
    {
      dataSpace := map[];
    }

    method GetValue(key: string) returns (value: Option<string>)
      ensures value == if key in dataSpace then Some(dataSpace[key]) else None
    {
      value := if key in dataSpace then Some(dataSpace[key]) else None;
    }

    /** A key that is there is an error and keeps its value. */
    method InsertKey(key: string, value: string) returns (ok: bool)
      modifies this
      ensures ok == (key !in old(dataSpace))
      ensures dataSpace == if ok then old(dataSpace)[key := value] else old(dataSpace)
    {
      if key in dataSpace { return false; }
      dataSpace := dataSpace[key := value];
      return true;
    }

    /** The value object behind a key that is there. */
    method SetValue(key: string, value: string)
      requires key in dataSpace
      modifies this
      ensures dataSpace == old(dataSpace)[key := value]
    {
      dataSpace := dataSpace[key := value];
    }

    method DeleteKey(key: string) returns (ok: bool)
      modifies this
      ensures ok == (key in old(dataSpace))
      ensures dataSpace == if ok then old(dataSpace) - {key} else old(dataSpace)
    {
      if key !in dataSpace { return false; }
      dataSpace := dataSpace - {key};
      return true;
    }
  }

  class ServerClient {
    const stream: ProtocolStream
    const db: DataBase
    const pf: PersistenceFile?
    /** The replay's own client: it neither records nor answers. */
    const local: bool

    constructor (stream: ProtocolStream, db: DataBase, pf: PersistenceFile?, local: bool)
      ensures this.stream == stream && this.db == db && this.pf == pf && this.local == local
    {
      this.stream := stream;
      this.db := db;
      this.pf := pf;
      this.local := local;
    }

    function ReplyBytes(reply: Option<string>): string {
      if local || reply.None? then "" else Head(1) + Body(reply.value)
    }

    method Reply(part: string)
      modifies stream`outputBuf
      ensures stream.outputBuf == old(stream.outputBuf) + ReplyBytes(Some(part))
    {
      if !local {
        stream.InitReplyHead(1);
        stream.AppendReplyBody(part);
        Assoc(old(stream.outputBuf), Head(1), Body(part));
      }
    }

    method SetCommand() returns (ok: bool)
      modifies db, stream`outputBuf
      ensures var ran := RunSet(old(db.dataSpace), stream.argv);
              && ok == ran.ok && db.dataSpace == ran.db
              && stream.outputBuf == old(stream.outputBuf) + ReplyBytes(ran.reply)
    {
      var argv := stream.argv;
      if |argv| != 3 {
        Reply("set no complete yet");
        return false;
      }
      var value := db.GetValue(argv[1]);
      if value.Some? {
        db.SetValue(argv[1], argv[2]);
        Reply("ok");
        return true;
      }
      var inserted := db.InsertKey(argv[1], argv[2]);
      Reply("ok");
      return inserted;
    }

    method DelCommand() returns (ok: bool)
      modifies db, stream`outputBuf
      ensures var ran := RunDel(old(db.dataSpace), stream.argv);
              && ok == ran.ok && db.dataSpace == ran.db
              && stream.outputBuf == old(stream.outputBuf) + ReplyBytes(ran.reply)
    {
      var argv := stream.argv;
      if |argv| != 2 {
        assert stream.outputBuf + "" == stream.outputBuf;
        return false;
      }
      var value := db.GetValue(argv[1]);
      if value.None? {
        Reply("Pardon?");
        return true;
      }
      var deleted := db.DeleteKey(argv[1]);
      Reply("OK");
      return deleted;
    }

    method GetCommand() returns (ok: bool)
      modifies stream`outputBuf
      ensures ok == RunGet(db.dataSpace, stream.argv).ok
      ensures stream.outputBuf == old(stream.outputBuf) + ReplyBytes(RunGet(db.dataSpace, stream.argv).reply)
    {
      var argv := stream.argv;
      if |argv| != 2 {
        Reply("get no complete yet");
        return false;
      }
      var value := db.GetValue(argv[1]);
      if value.None? {
        Reply("Pardon?");
        return true;
      }
      Reply(value.value);
      return true;
    }

    /** Records first what changes the database, whether or not it will succeed, and then runs it. */
    method ExecuteCommand() returns (ok: bool)
      requires stream.argv != [] && (pf != null ==> pf.Valid())
      modifies db, stream`outputBuf, if pf == null then {} else {pf}
      ensures var ran := RunCommand(old(db.dataSpace), stream.argv);
              && ok == ran.ok && db.dataSpace == ran.db
              && stream.outputBuf == old(stream.outputBuf) + ReplyBytes(ran.reply)
      ensures pf != null ==>
                pf.Valid()
                && pf.file == old(pf.file) + (if !local && NeedPF(stream.argv[0])
                                              then Encode(Entry(0, 0, stream.curCommandBuf)) else "")
      ensures pf != null && local ==> pf.In() == old(pf.In())
    {
      var commandName := stream.argv[0];
      if pf != null {
        if !local && NeedPF(commandName) {
          pf.AppendToPF(Entry(0, 0, stream.curCommandBuf));
        } else {
          assert pf.file + "" == pf.file;
        }
      }
      if commandName == "get" {
        ok := GetCommand();
      } else if commandName == "set" {
        ok := SetCommand();
      } else if commandName == "del" {
        ok := DelCommand();
      } else {
        Reply("no match command");
        ok := true;
      }
    }
  }

  class Server {
    const db: DataBase
    const pf: PersistenceFile

    constructor (pf: PersistenceFile)
      ensures this.pf == pf && fresh(db) && db.dataSpace == map[]
    {
      this.pf := pf;
      db := new DataBase();
    }

    /** One entry of the replay. */
    method ImportOne(client: ServerClient, content: string) returns (end: Option<Replay>)
      requires client.local && client.db == db && client.pf == pf && pf.Valid()
      requires Idling(client.stream.View())
      modifies client.stream, db, pf
      ensures pf.Valid() && pf.In() == old(pf.In()) && pf.file == old(pf.file)
      ensures ImportEntry(old(client.stream.View()), content, old(db.dataSpace))
              == if end.Some? then Halt(end.value, db.dataSpace) else GoOn(client.stream.View(), db.dataSpace)
    {
      client.stream.FillReceiveBuf(content);
      ghost var p := client.stream.View();
      var o := client.stream.ResolveReceiveBuf();
      if o == Failed { return Some(Stopped); }
      if o != Done { return Some(Died); }
      if client.stream.receiveComplete {
        CompleteHasName(p);
        var ok := client.ExecuteCommand();
        if !ok { return Some(Stopped); }
      }
      client.stream.Clear();
      return None;
    }

    /** importPF. */
    method ImportPF() returns (r: Replay)
      requires pf.Valid()
      modifies db, pf
      ensures pf.Valid() && pf.file == old(pf.file)
      ensures (r, db.dataSpace)
              == Import(old(pf.In()), NO_ENTRY, NEW_STREAM, old(db.dataSpace))
    {
      var stream := new ProtocolStream(true, false, "none");
      var client := new ServerClient(stream, db, pf, true);
      var entry := NO_ENTRY;
      ghost var goal := Import(pf.In(), entry, stream.View(), db.dataSpace);
      while true
        invariant pf.Valid() && pf.file == old(pf.file) && Idling(stream.View())
        invariant Import(pf.In(), entry, stream.View(), db.dataSpace) == goal
        decreases |pf.In().rest|
      {
        var more: bool;
        more, entry := pf.GetNextPFEntry(entry);
        if !more { return Imported; }
        var end := ImportOne(client, entry.content);
        if end.Some? { return end.value; }
      }
    }
  }
}
