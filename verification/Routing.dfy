/**
 * A command goes to the server of its key. The server is told from the ring's points alone, equal
 * keys have equal servers, and what the servers answer is what one database would answer.
 */
module Routing {
  import opened EntryLog
  import opened Protocol
  import opened RoundTrip
  import opened Records
  import opened Recovery
  import opened Ring
  import opened ChildServers
  import opened Flush
  import ClientDrain

  type Command = ClientDrain.Sent

  /** What a command is placed by: its first argument, or its name if it has none. */
  function KeyOf(args: seq<string>): string
    requires args != []
  {
    if |args| == 1 then args[0] else args[1]
  }

  /** The spot of a key: at or behind its hash value the least point, and at the end of the ring the first. */
  ghost predicate SpotFor(k: Kids, hash: string -> nat, key: string, s: Spot) {
    NextSpot(k.ring, hash(key) % HASH_VALUE_MAX, s)
  }

  lemma OneSpot(k: Kids, hash: string -> nat, key: string, a: Spot, b: Spot)
    requires Sorted(k.ring) && SpotFor(k, hash, key, a) && SpotFor(k, hash, key, b)
    ensures a == b
  {
    var h := hash(key) % HASH_VALUE_MAX;
    var i :| 0 <= i < |k.ring| && k.ring[i] == a;
    var j :| 0 <= j < |k.ring| && k.ring[j] == b;
    if forall x :: x in k.ring ==> x.point < h {
      assert a.point == b.point;
    } else {
      var x :| x in k.ring && h <= x.point;
      assert h <= a.point && h <= b.point;
      assert a.point == b.point;
    }
  }

  lemma FrameParsed(t: char, args: seq<string>)
    requires Printable(true, t, args)
    ensures var r := Resolve(Feed(NEW_STREAM, Frame(true, t, args))); r.0 == Done && r.1.argv == args
  {
    assert Feed(NEW_STREAM, Frame(true, t, args)).input == Frame(true, t, args) + "";
    PrintThenParse(Feed(NEW_STREAM, Frame(true, t, args)), t, args, "");
  }

  /** The answer to whose a command is: the connection of the server at the next point for its key. */
  lemma KeyDecides(k: Kids, hash: string -> nat, t: char, args: seq<string>) returns (s: Spot, client: int)
    requires Consistent(k) && k.ring != [] && Printable(true, t, args)
    ensures SpotFor(k, hash, KeyOf(args), s)
    ensures s.server in k.child && k.child[s.server] == Some(client)
    ensures RespondServer(k, hash, Frame(true, t, args)) == Server(client)
  {
    FrameParsed(t, args);
    s := NextExists(k.ring, hash(KeyOf(args)) % HASH_VALUE_MAX);
    assert OnRing(k, s);
    client := k.child[s.server].value;
  }

  /** Commands with one key go to one server, whatever else they say. */
  lemma OneKeyOneServer(k: Kids, hash: string -> nat, t: char, args: seq<string>, t': char, args': seq<string>)
    requires Consistent(k) && k.ring != [] && Printable(true, t, args) && Printable(true, t', args')
    requires KeyOf(args) == KeyOf(args')
    ensures RespondServer(k, hash, Frame(true, t, args)) == RespondServer(k, hash, Frame(true, t', args'))
  {
    var s, client := KeyDecides(k, hash, t, args);
    var s', client' := KeyDecides(k, hash, t', args');
    OneSpot(k, hash, KeyOf(args), s, s');
  }

  /** A flush sends the next entry to the connection of the server at the next point for its key. */
  lemma FlushedToKey(scene: Scene, log: seq<Entry>, hash: string -> nat, last: nat, t: char, args: seq<string>)
    returns (s: Spot, client: int)
    requires Served(scene, log) && last < scene.commitIndex <= |log|
    requires Printable(true, t, args) && log[last].content == Frame(true, t, args)
    ensures SpotFor(scene.kids, hash, KeyOf(args), s)
    ensures s.server in scene.kids.child && scene.kids.child[s.server] == Some(client)
    ensures FlushOnce(scene.kids, hash, last, scene.commitIndex, scene.file)
            == (Sent(last + 1, client, log[last].content), last + 1)
  {
    s, client := KeyDecides(scene.kids, hash, t, args);
    NextIsFound(log, last);
  }

  // ---------------------------------------------------------------- many servers, one database

  predicate Named(cmds: seq<Command>) { forall i :: 0 <= i < |cmds| ==> cmds[i].args != [] }

  /** The server that a key is placed on. */
  function Place(k: Kids, hash: string -> nat, key: string): int
    requires k.ring != []
  {
    Owner(k.ring, hash(key) % HASH_VALUE_MAX)
  }

  /** The commands that go to one server, in order. */
  function Share(k: Kids, hash: string -> nat, cmds: seq<Command>, server: int): (share: seq<Command>)
    requires k.ring != [] && Named(cmds)
    ensures Named(share)
  {
    if cmds == [] then []
    else
      var c := cmds[|cmds| - 1];
      Share(k, hash, cmds[..|cmds| - 1], server) + (if Place(k, hash, KeyOf(c.args)) == server then [c] else [])
  }

  /** The place of a key is the server at its spot. */
  lemma PlaceIsNext(k: Kids, hash: string -> nat, key: string, s: Spot)
    requires Sorted(k.ring) && SpotFor(k, hash, key, s)
    ensures k.ring != [] && Place(k, hash, key) == s.server
  {
    OwnerIsNext(k.ring, hash(key) % HASH_VALUE_MAX, s);
  }

  /** One more command: it is the last write, takes it away, or has another key. */
  lemma LastWriteSnoc(cmds: seq<Command>, c: Command, key: string)
    ensures LastWrite(cmds + [c], key)
            == if |c.args| == 3 && c.args[0] == "set" && c.args[1] == key then Some(c.args[2])
               else if |c.args| == 2 && c.args[0] == "del" && c.args[1] == key then None
               else LastWrite(cmds, key)
  {
    assert (cmds + [c])[..|cmds|] == cmds;
  }

  /** The last write of a key is in its server's share. */
  lemma {:induction false} ShareKeepsWrites(k: Kids, hash: string -> nat, cmds: seq<Command>, key: string)
    requires k.ring != [] && Named(cmds)
    ensures LastWrite(Share(k, hash, cmds, Place(k, hash, key)), key) == LastWrite(cmds, key)
  {
    if cmds != [] {
      var front, c := cmds[..|cmds| - 1], cmds[|cmds| - 1];
      var share := Share(k, hash, front, Place(k, hash, key));
      ShareKeepsWrites(k, hash, front, key);
      LastWriteSnoc(front, c, key);
      LastWriteSnoc(share, c, key);
      assert front + [c] == cmds && share + [] == share;
    }
  }

  /** What a command is answered depends on its key's entry in the database alone. */
  lemma AnswerByKey(db: Db, db': Db, args: seq<string>)
    requires args != []
    requires var key := KeyOf(args); (key in db <==> key in db') && (key in db ==> db[key] == db'[key])
    ensures RunCommand(db, args).ok == RunCommand(db', args).ok
    ensures RunCommand(db, args).reply == RunCommand(db', args).reply
  {
  }

  /**
   * The ring is transparent: a command is answered by its server, which has executed only its own
   * share of the commands before, as by one database that has executed them all.
   */
  lemma RingIsTransparent(k: Kids, hash: string -> nat, cmds: seq<Command>, args: seq<string>)
    requires k.ring != [] && Named(cmds) && args != []
    ensures var one := RunCommand(LiveDb(map[], cmds), args);
            var own := RunCommand(LiveDb(map[], Share(k, hash, cmds, Place(k, hash, KeyOf(args)))), args);
            own.ok == one.ok && own.reply == one.reply
  {
    var key := KeyOf(args);
    var share := Share(k, hash, cmds, Place(k, hash, key));
    ShareKeepsWrites(k, hash, cmds, key);
    LastWriteWins(cmds, key);
    LastWriteWins(share, key);
    AnswerByKey(LiveDb(map[], cmds), LiveDb(map[], share), args);
  }
}
