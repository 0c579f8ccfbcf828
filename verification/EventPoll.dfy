/** The read-event part of the event loop, over cluster clients held in a queue. */
module EventPollProgram {
  import opened EntryLog
  import opened Protocol
  import opened ProtocolProgram
  import opened Chunking
  import opened ClientDrain

  class ClusterClient {
    const stream: ProtocolStream
    var executed: seq<Command>
    var closed: bool

    constructor (stream: ProtocolStream)
      ensures this.stream == stream && executed == [] && !closed
    {
      this.stream := stream;
      executed := [];
      closed := false;
    }

    ghost function State(): Client
      reads this, stream
    {
      Client(stream.View(), executed)
    }

    /** Open, and before or inside a command. */
    ghost predicate Live()
      reads this, stream
    {
      !closed && Underway(stream.View())
    }

    /** Where a pass over this client alone ends. */
    ghost function Goal(accept: Command -> bool): End
      requires Live()
      reads this, stream
    {
      Drained(accept, State())
    }

    /** The client is where the pass should leave it. */
    ghost predicate Settled(e: End)
      reads this, stream
    {
      match e
      case Idle(d) => !closed && State() == d
      case Closed(commands) => closed && executed == commands
      case Crashed => false
    }

    /** Runs the command; only an accepted command makes the parser ready for the next. */
    method ExecuteCommand(accept: Command -> bool) returns (ok: bool)
      modifies this`executed, stream
      ensures var q := old(stream.View());
              ok == accept(CommandOf(q))
              && State() == if ok then Executed(old(State()), q) else old(State())
    {
      var command := Command(stream.commandType, stream.argv, stream.curCommandBuf);
      if !accept(command) { return false; }
      executed := executed + [command];
      stream.GetReadyForNextCommand();
      return true;
    }
  }

  /** What becomes of a client after its turn. */
  datatype Next = Again | AtRest | Crash

  /** The goal of a pass, as a function that the loop treats as unknown. */
  ghost predicate IsGoal(accept: Command -> bool, goal: Client -> End) {
    forall c: Client {:trigger Drained(accept, c)} :: !c.parser.complete ==> goal(c) == Drained(accept, c)
  }

  class EventPoll {
    var readEventClientList: seq<ClusterClient>

    constructor ()
      ensures readEventClientList == []
    {
      readEventClientList := [];
    }

    method DeleteClient(client: ClusterClient)
      modifies client`closed
      ensures client.closed
    {
      client.closed := true;
    }

    /** One turn of a client: resolve, and execute what is complete. */
    method Turn(client: ClusterClient, accept: Command -> bool, ghost goal: Client -> End) returns (next: Next)
      requires client.Live() && IsGoal(accept, goal)
      modifies client, client.stream
      ensures next == Again ==>
                client.Live()
                && goal(client.State()) == old(goal(client.State()))
                && |client.stream.inputBuf| < old(|client.stream.inputBuf|)
      ensures next == AtRest ==> client.Settled(old(goal(client.State())))
      ensures next == Crash ==> old(goal(client.State())) == Crashed
    {
      ghost var p := client.stream.View();
      assert goal(client.State()) == Drained(accept, client.State());
      var r := client.stream.ResolveReceiveBuf();
      if r == Failed {
        DeleteClient(client);
        return AtRest;
      }
      if r != Done { return Crash; }
      ghost var q := client.stream.View();
      assert q == Resolve(p).1;
      if client.stream.receiveComplete {
        CompleteShrinks(p);
        var ok := client.ExecuteCommand(accept);
        if !ok {
          DeleteClient(client);
          return AtRest;
        }
      } else {
        IncompleteRunsDry(p);
      }
      var more := client.stream.IsReceiveBufAvailable();
      assert more ==> goal(client.State()) == Drained(accept, client.State());
      return if more then Again else AtRest;
    }

    static ghost predicate DistinctClients(cs: seq<ClusterClient>) {
      forall i, j :: 0 <= i < j < |cs| ==> cs[i] != cs[j]
    }

    /** No two clients share a stream. */
    static ghost predicate OwnStreams(cs: seq<ClusterClient>) {
      forall c, d :: c in cs && d in cs && c != d ==> c.stream != d.stream
    }

    /** Everything a pass over these clients may touch. */
    static ghost function Footprint(cs: seq<ClusterClient>): set<object> {
      (set c | c in cs :: c as object) + (set c | c in cs :: c.stream as object)
    }

    /** The bytes still to be read by the queued clients. */
    static ghost function Pending(cs: seq<ClusterClient>): nat
      reads Footprint(cs)
    {
      if cs == [] then 0 else |cs[0].stream.inputBuf| + Pending(cs[1..])
    }

    static lemma {:induction false} PendingAppend(cs: seq<ClusterClient>, c: ClusterClient)
      ensures Pending(cs + [c]) == Pending(cs) + |c.stream.inputBuf|
    {
      if cs == [] {
        assert cs + [c] == [c];
      } else {
        assert (cs + [c])[1..] == cs[1..] + [c];
        PendingAppend(cs[1..], c);
      }
    }

    /** Where the pass stands with a client: if queued, it is still to reach its end; if not, it has. */
    static ghost predicate OnTrack(goal: Client -> End, c: ClusterClient, queued: bool, e: End)
      reads c, c.stream
    {
      if queued then c.Live() && goal(c.State()) == e else c.Settled(e)
    }

    /**
     * The whole pass. Turns alternate between the clients, but each of them ends where a pass over
     * it alone would end, and the process survives exactly if no client crashes it. Clients that
     * are still open are then fit to be queued for the next pass.
     */
    method ProcessReadEvents(accept: Command -> bool) returns (alive: bool)
      requires DistinctClients(readEventClientList) && OwnStreams(readEventClientList)
      requires forall c :: c in readEventClientList ==> c.Live()
      requires this as object !in Footprint(readEventClientList)
      modifies this`readEventClientList, Footprint(readEventClientList)
      ensures alive ==> readEventClientList == []
      ensures alive ==> forall c :: c in old(readEventClientList) ==> c.Settled(old(c.Goal(accept)))
      ensures alive <==> forall c :: c in old(readEventClientList) ==> !old(c.Goal(accept)).Crashed?
      ensures alive ==> forall c :: c in old(readEventClientList) && !c.closed ==> c.Live()
    {
      ghost var goal := (c: Client) => if c.parser.complete then Crashed else Drained(accept, c);
      ghost var queue := readEventClientList;
      ghost var states := map c | c in queue :: c.State();
      assert forall c :: c in queue ==> Underway(states[c].parser) && c.Goal(accept) == Drained(accept, states[c]);
      alive := ServeQueue(accept, goal);
      if alive {
        forall c | c in queue && !c.closed ensures c.Live() {
          assert c.Settled(Drained(accept, states[c]));
          DrainedUnderway(accept, states[c]);
        }
      }
    }

    /** The front client takes its turn and queues up again if its buffer holds a line. */
    method TurnOfFront(accept: Command -> bool, ghost goal: Client -> End) returns (next: Next)
      requires readEventClientList != [] && IsGoal(accept, goal)
      requires var c := readEventClientList[0];
               c.Live() && c as object != this && c.stream as object != this
      modifies this`readEventClientList, readEventClientList[0], readEventClientList[0].stream
      ensures var c := old(readEventClientList[0]);
              && readEventClientList == old(readEventClientList[1..]) + (if next == Again then [c] else [])
              && (next == Again ==> |c.stream.inputBuf| < old(|readEventClientList[0].stream.inputBuf|))
              && (next == Crash ==> old(goal(readEventClientList[0].State())) == Crashed)
              && (next != Crash ==> OnTrack(goal, c, next == Again, old(goal(readEventClientList[0].State()))))
    {
      var processingClient := readEventClientList[0];
      readEventClientList := readEventClientList[1..];
      next := Turn(processingClient, accept, goal);
      if next == Again {
        readEventClientList := readEventClientList + [processingClient];
      }
    }

    /** What every round of the loop keeps. */
    ghost predicate MidPass(goal: Client -> End, all: seq<ClusterClient>, ends: map<ClusterClient, End>)
      reads this, Footprint(all)
    {
      && DistinctClients(readEventClientList)
      && (forall c :: c in readEventClientList ==> c in all)
      && AllOnTrack(goal, all, readEventClientList, ends)
    }

    method Round(accept: Command -> bool, ghost goal: Client -> End, ghost all: seq<ClusterClient>,
                 ghost ends: map<ClusterClient, End>) returns (alive: bool)
      requires IsGoal(accept, goal) && readEventClientList != []
      requires OwnStreams(all) && this as object !in Footprint(all) && MidPass(goal, all, ends)
      modifies this`readEventClientList, readEventClientList[0], readEventClientList[0].stream
      ensures alive ==> MidPass(goal, all, ends)
      ensures !alive ==> exists c :: c in all && ends[c] == Crashed
      ensures alive ==>
                var now, before := Pending(readEventClientList), old(Pending(readEventClientList));
                now < before || (now == before && |readEventClientList| < old(|readEventClientList|))
    {
      ghost var queue := readEventClientList;
      ghost var front, rest, pending := queue[0], queue[1..], Pending(queue[1..]);
      assert OnTrack(goal, front, true, ends[front]);
      assert {front as object, front.stream as object} !! Footprint(rest);
      OthersOnTrack(goal, all, queue, ends);
      var next := TurnOfFront(accept, goal);
      if next == Crash { return false; }
      assert OthersWaiting(goal, all, front, rest, ends);
      assert Pending(rest) == pending && rest + [] == rest;
      PendingAppend(rest, front);
      Requeue(goal, all, rest, front, next == Again, ends);
      return true;
    }

    method ServeQueue(accept: Command -> bool, ghost goal: Client -> End) returns (alive: bool)
      requires IsGoal(accept, goal)
      requires DistinctClients(readEventClientList) && OwnStreams(readEventClientList)
      requires forall c :: c in readEventClientList ==> c.Live()
      requires this as object !in Footprint(readEventClientList)
      modifies this`readEventClientList, Footprint(readEventClientList)
      ensures alive ==> readEventClientList == []
      ensures alive ==> forall c :: c in old(readEventClientList) ==> c.Settled(old(goal(c.State())))
      ensures alive <==> forall c :: c in old(readEventClientList) ==> !old(goal(c.State())).Crashed?
    {
      ghost var all := readEventClientList;
      ghost var ends := map c | c in all :: goal(c.State());
      while |readEventClientList| != 0
        invariant MidPass(goal, all, ends)
        decreases Pending(readEventClientList), |readEventClientList|
      {
        var go := Round(accept, goal, all, ends);
        if !go { return false; }
      }
      return true;
    }

    static ghost predicate AllOnTrack(goal: Client -> End, all: seq<ClusterClient>, queue: seq<ClusterClient>,
                                      ends: map<ClusterClient, End>)
      reads Footprint(all)
    {
      forall c :: c in all ==> c in ends && OnTrack(goal, c, c in queue, ends[c])
    }

    /** Before a turn, everybody behind the front client is as it will be after it. */
    static lemma OthersOnTrack(goal: Client -> End, all: seq<ClusterClient>, queue: seq<ClusterClient>,
                               ends: map<ClusterClient, End>)
      requires queue != [] && DistinctClients(queue) && AllOnTrack(goal, all, queue, ends)
      ensures OthersWaiting(goal, all, queue[0], queue[1..], ends)
    {
      forall c | c in all && c != queue[0] ensures c in ends && OnTrack(goal, c, c in queue[1..], ends[c]) {
        assert c in queue <==> c in queue[1..];
      }
    }

    static ghost predicate OthersWaiting(goal: Client -> End, all: seq<ClusterClient>, front: ClusterClient,
                                         rest: seq<ClusterClient>, ends: map<ClusterClient, End>)
      reads Footprint(all)
    {
      forall c :: c in all && c != front ==> c in ends && OnTrack(goal, c, c in rest, ends[c])
    }

    static lemma Requeue(goal: Client -> End, all: seq<ClusterClient>, rest: seq<ClusterClient>, front: ClusterClient,
                         again: bool, ends: map<ClusterClient, End>)
      requires front in all && front !in rest && front in ends && OnTrack(goal, front, again, ends[front])
      requires DistinctClients(rest) && forall c :: c in rest ==> c in all
      requires OthersWaiting(goal, all, front, rest, ends)
      ensures var queue := rest + (if again then [front] else []);
              && AllOnTrack(goal, all, queue, ends)
              && DistinctClients(queue) && forall c :: c in queue ==> c in all
    {
      var queue := rest + (if again then [front] else []);
      forall c | c in all ensures c in ends && OnTrack(goal, c, c in queue, ends[c]) {
        if c != front { assert c in queue <==> c in rest; }
      }
    }
  }
}
