/** The in-memory packet routing of the stress harness: each world view owns
    a list of pipes, each pipe a delayed FIFO queue of packets for one
    destination view. A tick of `update` moves due packets to their
    destinations, `flush` moves all of them; a destination never receives a
    packet that originated from its own player id. */
module Routing {
  import opened Base
  import opened PacketFormat
  import opened PacketQueue
  import opened Players

  /** The errors `pipe` and `unpipe` throw: no destination given, and no
      pipe towards the destination to remove. */
  datatype RoutingError =
    | NullDestination
    | NoSuchDestination

  /** A pipe towards one destination and the packets waiting in it. */
  class Pipe {
    const destination: WorldView
    var outPacketQueue: seq<PacketQueueEntry>

    constructor (destination: WorldView, outPacketQueue: seq<PacketQueueEntry>)
      ensures this.destination == destination && this.outPacketQueue == outPacketQueue
    {
      this.destination := destination;
      this.outPacketQueue := outPacketQueue;
    }

    /** Queues one packet behind the others with the delay drawn for it. */
    method PushPacket(data: seq<byte>, origin: JsValue, delay: Delay)
      modifies this
      ensures outPacketQueue == old(outPacketQueue) + [PacketQueueEntry(data, delay, origin)]
    {
      var packet := PacketQueueEntry(data, delay, origin);
      outPacketQueue := outPacketQueue + [packet];
    }

    /** A new pipe to the same destination holding a copy of every entry;
        the copy is a separate object, so ticking it leaves this queue as it is. */
    method Clone() returns (pipe: Pipe)
      ensures fresh(pipe)
      ensures pipe.destination == destination && pipe.outPacketQueue == outPacketQueue
    {
      pipe := new Pipe(destination, outPacketQueue);
    }

    /** One due packet leaves the pipe: the destination handles it unless it
        originated from the destination's own player id, and the matching
        event line is written. */
    method HandOver(from: JsValue, packet: PacketQueueEntry, flushing: bool) returns (line: RouteEvent)
      modifies destination`handled
      ensures destination.handled == old(destination.handled) + Forwarded(packet, destination.playerId)
      ensures line == RouteEventOf(flushing, from, destination.playerId, packet)
    {
      var packetDestination := destination;
      if packetDestination.playerId != packet.origin {
        packetDestination.Receive(packet);
      }
      line := RouteEventOf(flushing, from, packetDestination.playerId, packet);
    }

    /** The `while` loop of `_tickPackets` for this pipe. */
    method Tick(from: JsValue) returns (events: seq<RouteEvent>)
      modifies this`outPacketQueue, destination`handled
      ensures outPacketQueue == TickQueue(old(outPacketQueue)).remaining
      ensures destination.handled
              == old(destination.handled) + Delivered(TickQueue(old(outPacketQueue)).popped, destination.playerId)
      ensures events == RouteEvents(false, from, destination.playerId, TickQueue(old(outPacketQueue)).popped)
    {
      ghost var q := outPacketQueue;
      ghost var done := [];
      ghost var start := destination.handled;
      events := [];
      while |outPacketQueue| > 0
        invariant TickQueue(q).popped == done + TickQueue(outPacketQueue).popped
        invariant TickQueue(q).remaining == TickQueue(outPacketQueue).remaining
        invariant destination.handled == start + Delivered(done, destination.playerId)
        invariant events == RouteEvents(false, from, destination.playerId, done)
        decreases |outPacketQueue|
      {
        var packet := outPacketQueue[0];
        if packet.delay > 0 {
          assert done + [] == done;
          outPacketQueue := [packet.(delay := packet.delay - 1)] + outPacketQueue[1..];
          break;
        }
        var line := HandOver(from, packet, false);
        events := events + [line];
        DeliveredSnoc(done, packet, destination.playerId);
        AppendAssoc(start, Delivered(done, destination.playerId), Forwarded(packet, destination.playerId));
        RouteEventsSnoc(false, from, destination.playerId, done, packet);
        AppendAssoc(done, [packet], TickQueue(outPacketQueue[1..]).popped);
        done := done + [packet];
        outPacketQueue := outPacketQueue[1..];
      }
      assert done + [] == done;
    }

    /** The body of `flush` for this pipe: every entry is handed over in queue
        order whatever its delay, then the queue is emptied. */
    method Flush(from: JsValue) returns (events: seq<RouteEvent>)
      modifies this`outPacketQueue, destination`handled
      ensures outPacketQueue == []
      ensures destination.handled == old(destination.handled) + Delivered(old(outPacketQueue), destination.playerId)
      ensures events == RouteEvents(true, from, destination.playerId, old(outPacketQueue))
    {
      ghost var start := destination.handled;
      events := [];
      if |outPacketQueue| > 0 {
        for i := 0 to |outPacketQueue|
          invariant outPacketQueue == old(outPacketQueue)
          invariant destination.handled == start + Delivered(outPacketQueue[..i], destination.playerId)
          invariant events == RouteEvents(true, from, destination.playerId, outPacketQueue[..i])
        {
          var packet := outPacketQueue[i];
          var line := HandOver(from, packet, true);
          events := events + [line];
          assert outPacketQueue[..i + 1] == outPacketQueue[..i] + [packet];
          DeliveredSnoc(outPacketQueue[..i], packet, destination.playerId);
          AppendAssoc(start, Delivered(outPacketQueue[..i], destination.playerId), Forwarded(packet, destination.playerId));
          RouteEventsSnoc(true, from, destination.playerId, outPacketQueue[..i], packet);
        }
        assert outPacketQueue[..|outPacketQueue|] == outPacketQueue;
        outPacketQueue := [];
      }
    }
  }

  /** A pipe as it stands before a tick or a flush. */
  datatype PipeState = PipeState(destination: WorldView, queue: seq<PacketQueueEntry>)

  ghost function States(ps: seq<Pipe>): (r: seq<PipeState>)
    reads ps
    ensures |r| == |ps|
    ensures forall i :: 0 <= i < |ps| ==> r[i] == PipeState(ps[i].destination, ps[i].outPacketQueue)
  {
    if ps == [] then [] else States(ps[..|ps| - 1]) + [PipeState(ps[|ps| - 1].destination, ps[|ps| - 1].outPacketQueue)]
  }

  /** The entries a pipe hands to its destination's check: the due front of
      the queue on a tick, the whole queue on a flush. */
  function Handed(s: PipeState, flushing: bool): seq<PacketQueueEntry> {
    if flushing then s.queue else TickQueue(s.queue).popped
  }

  /** The queue a pipe keeps: after a tick what the tick leaves, after a
      flush nothing. */
  function Left(s: PipeState, flushing: bool): seq<PacketQueueEntry> {
    if flushing then [] else TickQueue(s.queue).remaining
  }

  /** What one pipe's pass does, worked out from the pipe as it stood before
      the pass: the queue it held and keeps, the packets its destination
      receives and the event lines written on the way. */
  datatype PipeRun = PipeRun(destination: WorldView, before: seq<PacketQueueEntry>, after: seq<PacketQueueEntry>,
                             got: seq<PacketQueueEntry>, lines: seq<RouteEvent>)

  function RunOf(from: JsValue, s: PipeState, flushing: bool): (r: PipeRun)
    ensures r.destination == s.destination && r.before == s.queue
  {
    var handed := Handed(s, flushing);
    PipeRun(s.destination, s.queue, Left(s, flushing),
            Delivered(handed, s.destination.playerId), RouteEvents(flushing, from, s.destination.playerId, handed))
  }

  /** The pass of every pipe of a snapshot, in list order. */
  function Runs(from: JsValue, states: seq<PipeState>, flushing: bool): (r: seq<PipeRun>)
    ensures |r| == |states|
  {
    if states == [] then []
    else Runs(from, states[..|states| - 1], flushing) + [RunOf(from, states[|states| - 1], flushing)]
  }

  lemma {:induction false} RunsAt(from: JsValue, states: seq<PipeState>, flushing: bool, i: nat)
    requires i < |states|
    ensures Runs(from, states, flushing)[i] == RunOf(from, states[i], flushing)
  {
    if i < |states| - 1 {
      RunsAt(from, states[..|states| - 1], flushing, i);
    }
  }

  /** The parts of each pass that the loop over the pipes relies on. */
  lemma RunsShape(from: JsValue, states: seq<PipeState>, flushing: bool)
    ensures forall j :: 0 <= j < |states| ==>
      && Runs(from, states, flushing)[j].destination == states[j].destination
      && Runs(from, states, flushing)[j].before == states[j].queue
      && Runs(from, states, flushing)[j].after == Left(states[j], flushing)
  {
    forall j | 0 <= j < |states|
      ensures Runs(from, states, flushing)[j] == RunOf(from, states[j], flushing)
    {
      RunsAt(from, states, flushing, j);
    }
  }

  /** The log of destination `v` after the first `n` passes, taken in order,
      when it held `log` before them. */
  function Received(log: seq<PacketQueueEntry>, runs: seq<PipeRun>, n: nat, v: WorldView): seq<PacketQueueEntry>
    requires n <= |runs|
  {
    if n == 0 then log
    else Received(log, runs, n - 1, v) + (if runs[n - 1].destination == v then runs[n - 1].got else [])
  }

  /** The event lines of the first `n` passes, in pipe order. */
  function Logged(runs: seq<PipeRun>, n: nat): seq<RouteEvent>
    requires n <= |runs|
  {
    if n == 0 then [] else Logged(runs, n - 1) + runs[n - 1].lines
  }

  /** Each pass is what `RunOf` works out for the pipe towards its
      destination holding the queue the pass found. */
  predicate Planned(from: JsValue, runs: seq<PipeRun>, flushing: bool) {
    runs != [] ==>
      && Planned(from, runs[..|runs| - 1], flushing)
      && runs[|runs| - 1] == RunOf(from, PipeState(runs[|runs| - 1].destination, runs[|runs| - 1].before), flushing)
  }

  /** The pass of pipe `i` is worked out from that pipe alone. */
  lemma {:induction false} PlannedAt(from: JsValue, runs: seq<PipeRun>, flushing: bool, i: nat)
    requires Planned(from, runs, flushing) && i < |runs|
    ensures runs[i] == RunOf(from, PipeState(runs[i].destination, runs[i].before), flushing)
  {
    if i < |runs| - 1 {
      PlannedAt(from, runs[..|runs| - 1], flushing, i);
    }
  }

  /** The passes of a snapshot are planned pass by pass. */
  lemma {:induction false} RunsPlanned(from: JsValue, states: seq<PipeState>, flushing: bool)
    ensures Planned(from, Runs(from, states, flushing), flushing)
  {
    if states != [] {
      var init := states[..|states| - 1];
      RunsPlanned(from, init, flushing);
      assert Runs(from, states, flushing)[..|states| - 1] == Runs(from, init, flushing);
    }
  }

  /** The pipes and their passes line up: the list has no repeats, pipe `j`
      is towards the destination of pass `j`, and every destination is among
      `dests`, whose starting logs `start` holds. None of this changes while
      the pipes run. */
  predicate Lined(ps: seq<Pipe>, runs: seq<PipeRun>, dests: set<WorldView>,
                 start: map<WorldView, seq<PacketQueueEntry>>) {
    && Unique(ps) && |ps| == |runs| && dests <= start.Keys
    && forall j :: 0 <= j < |ps| ==>
         && ps[j].destination == runs[j].destination && runs[j].destination in dests
  }

  /** The queues before pipe `i` runs: the pipes before it hold what their
      pass left behind, the others still hold what they held. */
  ghost predicate QueuesAt(ps: seq<Pipe>, runs: seq<PipeRun>, i: nat)
    reads ps
  {
    forall j :: 0 <= j < |ps| && j < |runs| ==> ps[j].outPacketQueue == if j < i then runs[j].after else runs[j].before
  }

  /** Every destination has received, after the log it held at `start`, what
      the first `i` passes hand over to it. */
  ghost predicate ReceivedAt(dests: set<WorldView>, start: map<WorldView, seq<PacketQueueEntry>>,
                             runs: seq<PipeRun>, i: nat)
    reads dests
  {
    forall v :: v in dests && v in start && i <= |runs| ==> v.handled == Received(start[v], runs, i, v)
  }

  /** A snapshot of the pipes, before any of them runs, satisfies what the
      loop over them starts from. */
  lemma Prepared(from: JsValue, flushing: bool, ps: seq<Pipe>, dests: set<WorldView>,
                 start: map<WorldView, seq<PacketQueueEntry>>)
    requires Unique(ps) && dests == (set p | p in ps :: p.destination)
    requires start == map v | v in dests :: v.handled
    ensures Planned(from, Runs(from, States(ps), flushing), flushing)
    ensures Lined(ps, Runs(from, States(ps), flushing), dests, start)
    ensures RunningAt(ps, Runs(from, States(ps), flushing), dests, start, 0)
  {
    RunsShape(from, States(ps), flushing);
    RunsPlanned(from, States(ps), flushing);
  }

  /** The state of the loop over the pipes before pipe `i` runs. */
  ghost predicate RunningAt(ps: seq<Pipe>, runs: seq<PipeRun>, dests: set<WorldView>,
                            start: map<WorldView, seq<PacketQueueEntry>>, i: nat)
    reads ps, dests
  {
    QueuesAt(ps, runs, i) && ReceivedAt(dests, start, runs, i)
  }

  /** A destination receives a packet exactly when one of the pipes towards
      it hands that packet over and the packet did not originate from the
      destination's own player id. */
  lemma {:induction false} ReceivedIff(log: seq<PacketQueueEntry>, from: JsValue, states: seq<PipeState>,
                                       flushing: bool, n: nat, v: WorldView, e: PacketQueueEntry)
    requires n <= |states|
    ensures e in Received(log, Runs(from, states, flushing), n, v) <==>
      || e in log
      || (e.origin != v.playerId && exists i :: 0 <= i < n && states[i].destination == v && e in Handed(states[i], flushing))
  {
    var runs := Runs(from, states, flushing);
    ReceivedFrom(log, runs, n, v, e);
    if exists i :: 0 <= i < n && runs[i].destination == v && e in runs[i].got {
      var i :| 0 <= i < n && runs[i].destination == v && e in runs[i].got;
      RunsAt(from, states, flushing, i);
      DeliveredIff(Handed(states[i], flushing), v.playerId, e);
    }
    if e.origin != v.playerId && exists i :: 0 <= i < n && states[i].destination == v && e in Handed(states[i], flushing) {
      var i :| 0 <= i < n && states[i].destination == v && e in Handed(states[i], flushing);
      RunsAt(from, states, flushing, i);
      DeliveredIff(Handed(states[i], flushing), v.playerId, e);
    }
  }

  /** What `v` holds after `n` passes is its log and the packets of the passes
      towards it. */
  lemma {:induction false} ReceivedFrom(log: seq<PacketQueueEntry>, runs: seq<PipeRun>, n: nat, v: WorldView,
                                        e: PacketQueueEntry)
    requires n <= |runs|
    ensures e in Received(log, runs, n, v) <==>
      e in log || exists i :: 0 <= i < n && runs[i].destination == v && e in runs[i].got
  {
    if n > 0 {
      ReceivedFrom(log, runs, n - 1, v, e);
    }
  }

  /** Passes towards other destinations hand `v` nothing, so a view no pipe
      leads to receives nothing. */
  lemma {:induction false} ReceivedOthers(log: seq<PacketQueueEntry>, runs: seq<PipeRun>, n: nat, v: WorldView)
    requires n <= |runs|
    requires forall i :: 0 <= i < n ==> runs[i].destination != v
    ensures Received(log, runs, n, v) == log
  {
    if n > 0 {
      ReceivedOthers(log, runs, n - 1, v);
    }
  }

  /** A world view (server or client) with its pipes and its player lists. */
  class WorldView {
    /** 'server', 'player.' + a random id, or `null` for a server view built
        without initialisation. */
    const playerId: JsValue
    var pipes: seq<Pipe>
    /** The packets handed to `Z.applyUpdate(this.doc, ...)`, in order. */
    var handled: seq<PacketQueueEntry>
    /** The `playerId` of each map in the document's 'players' array. */
    var playersArray: seq<JsValue>
    var remotePlayers: seq<Player>

    /** Pipes are created one at a time by `PipeTo`, so no pipe is listed twice. */
    ghost predicate Valid()
      reads this`pipes
    {
      Unique(pipes)
    }

    ghost function Destinations(): set<WorldView>
      reads this`pipes
    {
      set p | p in pipes :: p.destination
    }

    constructor (playerId: JsValue, playersArray: seq<JsValue>)
      ensures Valid()
      ensures this.playerId == playerId && this.playersArray == playersArray
      ensures pipes == [] && handled == [] && remotePlayers == []
    {
      this.playerId := playerId;
      this.pipes := [];
      this.handled := [];
      this.playersArray := playersArray;
      this.remotePlayers := [];
    }

    /** `pipe(packetDestination)`: a null destination throws; otherwise one new
        empty pipe goes to the end of the list. */
    method PipeTo(packetDestination: WorldView?) returns (r: Result<Pipe, RoutingError>)
      requires Valid()
      modifies this`pipes
      ensures Valid()
      ensures packetDestination == null ==> r == Failure(NullDestination) && pipes == old(pipes)
      ensures packetDestination != null ==>
        && r.Success? && fresh(r.value)
        && r.value.destination == packetDestination && r.value.outPacketQueue == []
        && pipes == old(pipes) + [r.value]
    {
      if packetDestination == null {
        return Failure(NullDestination);
      }
      var pipe := new Pipe(packetDestination, []);
      pipes := pipes + [pipe];
      return Success(pipe);
    }

    /** `unpipe(packetDestination)`: the first pipe towards it is spliced out,
        the others keep their order; with no such pipe it throws. */
    method Unpipe(packetDestination: WorldView?) returns (r: Outcome<RoutingError>)
      requires Valid()
      modifies this`pipes
      ensures Valid()
      ensures match FindIndex(old(pipes), (p: Pipe) => p.destination == packetDestination)
        case None => r == Fail(NoSuchDestination) && pipes == old(pipes)
        case Some(k) => r == Pass && pipes == RemoveAt(old(pipes), k)
    {
      var index := FindIndex(pipes, (p: Pipe) => p.destination == packetDestination);
      if index.Some? {
        UniqueRemoveAt(pipes, index.value);
        pipes := RemoveAt(pipes, index.value);
        return Pass;
      } else {
        return Fail(NoSuchDestination);
      }
    }

    /** `pushPacket(data, origin = null)`: one entry with this data and origin
        goes to the back of every pipe's queue, an `undefined` origin taking
        the default `null`; `delays[i]` is the delay drawn for pipe i. */
    method PushPacket(data: seq<byte>, origin: JsValue, delays: seq<Delay>)
      requires Valid() && |delays| == |pipes|
      modifies pipes
      ensures pipes == old(pipes)
      ensures forall i :: 0 <= i < |pipes| ==>
        pipes[i].outPacketQueue == old(pipes[i].outPacketQueue) + [PacketQueueEntry(data, delays[i], DefaultNull(origin))]
    {
      var o := DefaultNull(origin);
      UniqueIff(pipes);
      for i := 0 to |pipes|
        invariant forall j :: 0 <= j < i ==>
          pipes[j].outPacketQueue == old(pipes[j].outPacketQueue) + [PacketQueueEntry(data, delays[j], o)]
        invariant forall j :: i <= j < |pipes| ==> pipes[j].outPacketQueue == old(pipes[j].outPacketQueue)
      {
        pipes[i].PushPacket(data, o, delays[i]);
      }
    }

    /** The document's 'update' listener: an update whose origin is not this
        view's player id is pushed to every pipe, tagged with its origin, or
        with this view's id when the origin is `null` or `undefined`. */
    method OnDocUpdate(data: seq<byte>, origin: JsValue, delays: seq<Delay>)
      requires Valid() && |delays| == |pipes|
      modifies pipes
      ensures pipes == old(pipes)
      ensures origin == playerId ==> forall i :: 0 <= i < |pipes| ==> pipes[i].outPacketQueue == old(pipes[i].outPacketQueue)
      ensures origin != playerId ==> forall i :: 0 <= i < |pipes| ==>
        pipes[i].outPacketQueue == old(pipes[i].outPacketQueue) + [PacketQueueEntry(data, delays[i], DefaultNull(Nullish(origin, playerId)))]
    {
      if origin != playerId {
        var o := Nullish(origin, playerId);
        PushPacket(data, o, delays);
      }
    }

    /** Pipe `i`'s pass of the loop over `this.pipes` in `_tickPackets` (a
        tick) or in `flush`: the pipe's own queue is ticked or drained, its
        destination also receives what the pipe hands over, and every other
        pipe and destination is left as it was. */
    method RunPipe(pipe: Pipe, flushing: bool, ps: seq<Pipe>, i: nat, ghost runs: seq<PipeRun>,
                   ghost dests: set<WorldView>, ghost start: map<WorldView, seq<PacketQueueEntry>>)
      returns (newEvents: seq<RouteEvent>)
      requires i < |ps| && ps[i] == pipe
      requires Lined(ps, runs, dests, start) && RunningAt(ps, runs, dests, start, i)
      requires runs[i] == RunOf(playerId, PipeState(pipe.destination, runs[i].before), flushing)
      modifies pipe`outPacketQueue, pipe.destination`handled
      ensures RunningAt(ps, runs, dests, start, i + 1)
      ensures newEvents == runs[i].lines
    {
      if flushing {
        newEvents := pipe.Flush(playerId);
      } else {
        newEvents := pipe.Tick(playerId);
      }
      forall j | 0 <= j < |ps| && j != i
        ensures ps[j].outPacketQueue == old(ps[j].outPacketQueue)
      {
        UniqueDistinct(ps, i, j);
      }
    }

    /** The loop `for (const pipe of this.pipes)` shared by `_tickPackets`
        and `flush`: the pipes run one after the other, in list order. */
    method RunPipes(ps: seq<Pipe>, flushing: bool, ghost runs: seq<PipeRun>,
                    ghost dests: set<WorldView>, ghost start: map<WorldView, seq<PacketQueueEntry>>)
      returns (events: seq<RouteEvent>)
      requires Planned(playerId, runs, flushing)
      requires Lined(ps, runs, dests, start) && RunningAt(ps, runs, dests, start, 0)
      modifies (set p | p in ps)`outPacketQueue, dests`handled
      ensures RunningAt(ps, runs, dests, start, |ps|)
      ensures events == Logged(runs, |ps|)
    {
      events := [];
      for i := 0 to |ps|
        invariant RunningAt(ps, runs, dests, start, i)
        invariant events == Logged(runs, i)
      {
        PlannedAt(playerId, runs, flushing, i);
        var newEvents := RunPipe(ps[i], flushing, ps, i, runs, dests, start);
        events := events + newEvents;
      }
    }

    /** `_tickPackets`, the packet part of `update`: every pipe, in order, runs
        one tick of its queue; the destinations receive what the pipes hand
        over, and the event lines of all pipes are returned. */
    method Update() returns (events: seq<RouteEvent>)
      requires Valid()
      modifies (set p | p in pipes)`outPacketQueue, Destinations()`handled
      ensures pipes == old(pipes)
      ensures forall i :: 0 <= i < |pipes| ==> pipes[i].outPacketQueue == TickQueue(old(pipes[i].outPacketQueue)).remaining
      ensures forall v :: v in Destinations() ==>
        v.handled == Received(old(v.handled), Runs(playerId, old(States(pipes)), false), |pipes|, v)
      ensures events == Logged(Runs(playerId, old(States(pipes)), false), |pipes|)
    {
      var ps := pipes;
      ghost var states := States(ps);
      ghost var runs := Runs(playerId, states, false);
      ghost var dests := Destinations();
      ghost var start := map v | v in dests :: v.handled;
      Prepared(playerId, false, ps, dests, start);
      RunsShape(playerId, states, false);
      events := RunPipes(ps, false, runs, dests, start);
      assert old(States(pipes)) == states;
    }

    /** `flush`: every pipe, in order, hands over its whole queue regardless of
        delay and is left empty. */
    method Flush() returns (events: seq<RouteEvent>)
      requires Valid()
      modifies (set p | p in pipes)`outPacketQueue, Destinations()`handled
      ensures pipes == old(pipes)
      ensures forall i :: 0 <= i < |pipes| ==> pipes[i].outPacketQueue == []
      ensures forall v :: v in Destinations() ==>
        v.handled == Received(old(v.handled), Runs(playerId, old(States(pipes)), true), |pipes|, v)
      ensures events == Logged(Runs(playerId, old(States(pipes)), true), |pipes|)
    {
      var ps := pipes;
      ghost var states := States(ps);
      ghost var runs := Runs(playerId, states, true);
      ghost var dests := Destinations();
      ghost var start := map v | v in dests :: v.handled;
      Prepared(playerId, true, ps, dests, start);
      RunsShape(playerId, states, true);
      events := RunPipes(ps, true, runs, dests, start);
      assert old(States(pipes)) == states;
    }

    /** `Z.applyUpdate(this.doc, packet.data, packet.origin)`, recorded as the
        packet being appended to the log of handled packets. */
    method Receive(packet: PacketQueueEntry)
      modifies this`handled
      ensures handled == old(handled) + [packet]
    {
      handled := handled + [packet];
    }

    /** `handlePacket`: apply the update, then throw if two players in the
        players array share an id. */
    method HandlePacket(packet: PacketQueueEntry) returns (r: Outcome<PlayerError>)
      modifies this`handled
      ensures handled == old(handled) + [packet]
      ensures r.Pass? <==> Unique(playersArray)
      ensures r.Fail? ==> FirstRepeat(playersArray).Some? &&
                          r.error == DuplicatePlayerId(playersArray[FirstRepeat(playersArray).value])
    {
      Receive(packet);
      r := CheckPlayerIds(playersArray);
    }

    /** The two loops of the players observer, with `matches` choosing which
        remote player a deletion removes. */
    method ApplyPlayersEvent(deleted: seq<JsValue>, added: seq<JsValue>, matches: (JsValue, Player) -> bool)
      returns (r: Outcome<PlayerError>)
      modifies this`remotePlayers
      ensures var removal := DeletePlayers(old(remotePlayers), deleted, matches);
        match removal.failed
        case Some(id) => r == Fail(DeleteNonexistentPlayer(id)) && remotePlayers == removal.players
        case None => r == Pass && remotePlayers == removal.players + AsPlayers(added)
    {
      for i := 0 to |deleted|
        invariant DeletePlayers(old(remotePlayers), deleted, matches) == DeletePlayers(remotePlayers, deleted[i..], matches)
      {
        var playerId := deleted[i];
        assert deleted[i..][1..] == deleted[i + 1..];
        var oldPlayerIndex := FindMatch(remotePlayers, playerId, matches);
        if oldPlayerIndex.Some? {
          remotePlayers := RemoveAt(remotePlayers, oldPlayerIndex.value);
        } else {
          return Fail(DeleteNonexistentPlayer(playerId));
        }
      }
      ghost var kept := remotePlayers;
      for i := 0 to |added|
        invariant remotePlayers == kept + AsPlayers(added[..i])
      {
        AsPlayersSnoc(added, i);
        AppendAssoc(kept, AsPlayers(added[..i]), [Player(added[i])]);
        remotePlayers := remotePlayers + [Player(added[i])];
      }
      assert added[..|added|] == added;
      return Pass;
    }

    /** The players observer as written: each deletion removes the first
        remote player whose id is truthy. */
    method OnPlayersChanged(deleted: seq<JsValue>, added: seq<JsValue>) returns (r: Outcome<PlayerError>)
      modifies this`remotePlayers
      ensures var removal := DeletePlayers(old(remotePlayers), deleted, AsWrittenMatch);
        match removal.failed
        case Some(id) => r == Fail(DeleteNonexistentPlayer(id)) && remotePlayers == removal.players
        case None => r == Pass && remotePlayers == removal.players + AsPlayers(added)
    {
      r := ApplyPlayersEvent(deleted, added, AsWrittenMatch);
    }

    /** The players observer with each deletion looked up by the deleted
        player's id. */
    method OnPlayersChangedById(deleted: seq<JsValue>, added: seq<JsValue>) returns (r: Outcome<PlayerError>)
      modifies this`remotePlayers
      ensures var removal := DeletePlayers(old(remotePlayers), deleted, ByIdMatch);
        match removal.failed
        case Some(id) => r == Fail(DeleteNonexistentPlayer(id)) && remotePlayers == removal.players
        case None => r == Pass && remotePlayers == removal.players + AsPlayers(added)
    {
      r := ApplyPlayersEvent(deleted, added, ByIdMatch);
    }

    /** `clearPlayer(playerId)`, which only the server view (`ServerWorldView`)
        has: delete, from the players array, the index of the first remote
        player with that id; do nothing if there is none. The index is one of
        the remote players, not necessarily that player's array index. */
    method ClearPlayer(id: JsValue)
      modifies this`playersArray
      ensures match FindMatch(remotePlayers, id, ByIdMatch)
        case None => playersArray == old(playersArray)
        case Some(k) => playersArray == ArrayDelete(old(playersArray), k)
    {
      var playerIndex := FindMatch(remotePlayers, id, ByIdMatch);
      if playerIndex.Some? {
        playersArray := ArrayDelete(playersArray, playerIndex.value);
      }
    }

    /** `clearPlayer` with the player looked up in the players array itself:
        the first entry with that id is deleted, whatever the remote players
        list holds. */
    method ClearPlayerById(id: JsValue)
      modifies this`playersArray
      ensures playersArray == Cleared(old(playersArray), id)
    {
      playersArray := Cleared(playersArray, id);
    }
  }

  /** The players array with the first entry equal to `id` taken out: one
      occurrence of `id` fewer, and the entries before and after it keep
      their order. */
  function Cleared(ids: seq<JsValue>, id: JsValue): (r: seq<JsValue>)
    ensures multiset(r) == multiset(ids) - multiset{id}
    ensures id !in ids ==> r == ids
    ensures forall k :: 0 <= k < |ids| && ids[k] == id && id !in ids[..k] ==> r == ids[..k] + ids[k + 1..]
  {
    match IndexOfId(ids, id)
    case None => ids
    case Some(k) =>
      assert ids == ids[..k] + [ids[k]] + ids[k + 1..];
      FirstIndexUnique(ids, id, k);
      ids[..k] + ids[k + 1..]
  }

  /** Only one position is the first to hold `id`. */
  lemma FirstIndexUnique(ids: seq<JsValue>, id: JsValue, k: nat)
    requires k < |ids| && ids[k] == id && id !in ids[..k]
    ensures forall m :: 0 <= m < |ids| && ids[m] == id && id !in ids[..m] ==> m == k
  {
  }

  /** `indexOf` on the players array: the first position holding `id`. */
  function IndexOfId(ids: seq<JsValue>, id: JsValue): (r: Option<nat>)
    ensures r.Some? ==> r.value < |ids| && ids[r.value] == id && id !in ids[..r.value]
    ensures r.None? <==> id !in ids
  {
    if ids == [] then None
    else if ids[0] == id then Some(0)
    else
      assert ids == [ids[0]] + ids[1..];
      match IndexOfId(ids[1..], id)
      case None => None
      case Some(k) =>
        assert ids[..k + 1] == [ids[0]] + ids[1..][..k];
        Some(k + 1)
  }

  /** Players "a", "b" and "c" are listed in the array and, in the same
      order, in the server's remote players. Clearing "c" deletes array index
      2; the observer as written then splices out "a" instead of "c". Clearing
      "b" next finds remote index 0 and deletes "a" from the array, leaving
      "b" in it. */
  lemma ClearPlayerDeletesWrongEntry()
    ensures var players := [Str("a"), Str("b"), Str("c")];
            var remote := AsPlayers(players);
            var k1 := FindMatch(remote, Str("c"), ByIdMatch);
            var remote1 := DeletePlayers(remote, [Str("c")], AsWrittenMatch).players;
            var k2 := FindMatch(remote1, Str("b"), ByIdMatch);
            && k1 == Some(2)
            && remote1 == [Player(Str("b")), Player(Str("c"))]
            && k2 == Some(0)
            && ArrayDelete(ArrayDelete(players, k1.value), k2.value) == [Str("b")]
  {
    AsPlayersThree();
    FindByIdInThree();
    AsWrittenSplicesFirst();
    FindByIdInTwo();
    DeleteTwiceFromThree();
  }

  /** Deleting array index 2 and then index 0 from ["a", "b", "c"]. */
  lemma DeleteTwiceFromThree()
    ensures ArrayDelete(ArrayDelete([Str("a"), Str("b"), Str("c")], 2), 0) == [Str("b")]
  {
    assert RemoveAt([Str("a"), Str("b"), Str("c")], 2) == [Str("a"), Str("b")];
    assert RemoveAt([Str("a"), Str("b")], 0) == [Str("b")];
  }

  /** The remote players mirror the array ["a", "b", "c"] in order. */
  lemma AsPlayersThree()
    ensures AsPlayers([Str("a"), Str("b"), Str("c")]) == [Player(Str("a")), Player(Str("b")), Player(Str("c"))]
  {
  }

  /** Looking up "c" by id among the three remote players finds index 2. */
  lemma FindByIdInThree()
    ensures FindMatch([Player(Str("a")), Player(Str("b")), Player(Str("c"))], Str("c"), ByIdMatch) == Some(2)
  {
    var remote := [Player(Str("a")), Player(Str("b")), Player(Str("c"))];
    assert Str("a").s[0] != Str("c").s[0] && Str("b").s[0] != Str("c").s[0];
    assert !ByIdMatch(Str("c"), remote[0]) && !ByIdMatch(Str("c"), remote[1]) && ByIdMatch(Str("c"), remote[2]);
  }

  /** Looking up "b" by id after the wrong splice finds index 0. */
  lemma FindByIdInTwo()
    ensures FindMatch([Player(Str("b")), Player(Str("c"))], Str("b"), ByIdMatch) == Some(0)
  {
    var remote := [Player(Str("b")), Player(Str("c"))];
    assert ByIdMatch(Str("b"), remote[0]);
  }

  /** The as-written observer, told that "c" was deleted, splices out "a". */
  lemma AsWrittenSplicesFirst()
    ensures DeletePlayers([Player(Str("a")), Player(Str("b")), Player(Str("c"))], [Str("c")], AsWrittenMatch).players
            == [Player(Str("b")), Player(Str("c"))]
  {
    var remote := [Player(Str("a")), Player(Str("b")), Player(Str("c"))];
    assert Truthy(Str("a"));
    assert AsWrittenMatch(Str("c"), remote[0]);
    assert FindMatch(remote, Str("c"), AsWrittenMatch) == Some(0);
    assert [Str("c")][1..] == [];
    assert RemoveAt(remote, 0) == [Player(Str("b")), Player(Str("c"))];
  }

  /** The same two clears with the player looked up in the array: "c" and
      then "b" go, and "a" stays. */
  lemma ClearByIdKeepsOthers()
    ensures Cleared(Cleared([Str("a"), Str("b"), Str("c")], Str("c")), Str("b")) == [Str("a")]
  {
    var players := [Str("a"), Str("b"), Str("c")];
    assert players[2] == Str("c") && Str("c") !in players[..2];
    assert players[..2] + players[3..] == [Str("a"), Str("b")];
    var players1 := [Str("a"), Str("b")];
    assert players1[1] == Str("b") && Str("b") !in players1[..1];
    assert players1[..1] + players1[2..] == [Str("a")];
  }

  /** `playersArray.delete(index)` on the list: the element at `index` goes,
      the rest keep their order; an index past the end deletes nothing. */
  function ArrayDelete<T>(s: seq<T>, index: nat): (r: seq<T>)
    ensures index < |s| ==> r == RemoveAt(s, index)
    ensures index >= |s| ==> r == s
  {
    if index < |s| then RemoveAt(s, index) else s
  }
}
