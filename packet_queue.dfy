/** The delayed FIFO queue of one pipe, as values: what one tick of
    `WorldView.update` and what `flush` do to a queue, which packets they
    hand to the destination, and the event lines they report. */
module PacketQueue {
  import opened Base
  import opened PacketFormat

  /** The largest delay `Pipe.pushPacket` draws: `floor((5 r) ^ 0.7)` with
      `0 <= r < 1` stays below `5 ^ 0.7`, which is about 3.09. */
  const MaxDelay: nat := 3
  type Delay = d: nat | d <= MaxDelay

  /** `PacketQueueEntry`: an update waiting in a pipe, the number of ticks it
      still waits, and the player id it came from. */
  datatype PacketQueueEntry = PacketQueueEntry(data: seq<byte>, delay: nat, origin: JsValue)

  /** What a tick does to one queue: the queue left behind and the entries
      shifted off its front, in order. */
  datatype TickResult = TickResult(remaining: seq<PacketQueueEntry>, popped: seq<PacketQueueEntry>)

  /** The `while` loop of `_tickPackets` on one queue: a head that still waits
      loses one tick of delay and stops the pipe; a head that is due is
      shifted off and the loop goes on. */
  function TickQueue(q: seq<PacketQueueEntry>): (r: TickResult)
    ensures |r.remaining| + |r.popped| == |q|
    ensures forall e :: e in r.popped ==> e.delay == 0
    decreases |q|
  {
    if q == [] then TickResult([], [])
    else if q[0].delay > 0 then TickResult([q[0].(delay := q[0].delay - 1)] + q[1..], [])
    else
      var rest := TickQueue(q[1..]);
      TickResult(rest.remaining, [q[0]] + rest.popped)
  }

  /** One tick shifts off exactly the due entries at the front of the queue,
      in queue order; it stops at the first entry that still waits, whose
      delay drops by one while every later entry keeps its own. */
  lemma {:induction false} TickQueueShape(q: seq<PacketQueueEntry>)
    ensures var r := TickQueue(q); var k := |r.popped|;
      && k <= |q|
      && r.popped == q[..k]
      && (forall i :: 0 <= i < k ==> q[i].delay == 0)
      && (k == |q| ==> r.remaining == [])
      && (k < |q| ==> q[k].delay > 0 && r.remaining == [q[k].(delay := q[k].delay - 1)] + q[k + 1..])
    decreases |q|
  {
    if q != [] && q[0].delay == 0 {
      TickQueueShape(q[1..]);
      var rest := TickQueue(q[1..]);
      assert q == [q[0]] + q[1..];
    }
  }

  /** A tick never adds to a queue: every entry is either still queued or was shifted off. */
  lemma TickNeverGrows(q: seq<PacketQueueEntry>)
    ensures |TickQueue(q).remaining| + |TickQueue(q).popped| == |q|
  {
    TickQueueShape(q);
  }

  /** A head that still waits blocks its pipe for this tick. */
  lemma BlockedHead(q: seq<PacketQueueEntry>)
    requires q != [] && q[0].delay > 0
    ensures TickQueue(q).popped == []
    ensures TickQueue(q).remaining[0] == q[0].(delay := q[0].delay - 1)
    ensures TickQueue(q).remaining[1..] == q[1..]
  {
    TickQueueShape(q);
  }

  /** Total ticks of waiting plus one per entry. */
  function Pending(q: seq<PacketQueueEntry>): nat {
    if q == [] then 0 else q[0].delay + 1 + Pending(q[1..])
  }

  /** Every tick of a non-empty queue makes progress, so a queue that nothing
      is pushed onto drains within `Pending(q)` ticks. */
  lemma {:induction false} TickMakesProgress(q: seq<PacketQueueEntry>)
    requires q != []
    ensures Pending(TickQueue(q).remaining) < Pending(q)
    decreases |q|
  {
    if q[0].delay > 0 {
      var r := TickQueue(q).remaining;
      assert r[1..] == q[1..];
    } else if q[1..] != [] {
      TickMakesProgress(q[1..]);
    }
  }

  /** The single entry `e` if a destination with player id `destId` handles
      it, nothing if it is that destination's own echo. */
  function Forwarded(e: PacketQueueEntry, destId: JsValue): seq<PacketQueueEntry> {
    if e.origin != destId then [e] else []
  }

  /** The entries of `popped` that reach a destination whose player id is
      `destId`: `if (packetDestination.playerId !== packet.origin)`. */
  function Delivered(popped: seq<PacketQueueEntry>, destId: JsValue): (r: seq<PacketQueueEntry>)
    ensures |r| <= |popped|
    ensures forall e :: e in r ==> e.origin != destId
  {
    if popped == [] then []
    else
      var last := popped[|popped| - 1];
      Delivered(popped[..|popped| - 1], destId) + Forwarded(last, destId)
  }

  /** A shifted entry is handed over exactly when it did not originate from
      the destination's own player id. */
  lemma {:induction false} DeliveredIff(popped: seq<PacketQueueEntry>, destId: JsValue, e: PacketQueueEntry)
    ensures e in Delivered(popped, destId) <==> e in popped && e.origin != destId
  {
    if popped != [] {
      var init := popped[..|popped| - 1];
      DeliveredIff(init, destId, e);
      assert popped == init + [popped[|popped| - 1]];
    }
  }

  /** Delivery splits the shifted entries exactly into those handed over and
      those dropped as echoes of the destination (the order of the handed-over
      entries follows from `Delivered`'s definition). */
  lemma {:induction false} DeliveredPartition(popped: seq<PacketQueueEntry>, destId: JsValue)
    ensures multiset(Delivered(popped, destId)) + multiset(Echoes(popped, destId)) == multiset(popped)
  {
    if popped != [] {
      var init := popped[..|popped| - 1];
      var last := popped[|popped| - 1];
      DeliveredPartition(init, destId);
      assert popped == init + [last];
      PartitionStep(Delivered(init, destId), Echoes(init, destId), init, last,
                    Delivered(popped, destId), Echoes(popped, destId));
    }
  }

  /** Adding one entry to either side of a split of `init` splits `init + [last]`. */
  lemma PartitionStep<T>(kept: seq<T>, dropped: seq<T>, init: seq<T>, last: T, kept': seq<T>, dropped': seq<T>)
    requires multiset(kept) + multiset(dropped) == multiset(init)
    requires (kept' == kept + [last] && dropped' == dropped) || (kept' == kept && dropped' == dropped + [last])
    ensures multiset(kept') + multiset(dropped') == multiset(init + [last])
  {
  }

  /** The entries dropped because they came from the destination itself. */
  function Echoes(popped: seq<PacketQueueEntry>, destId: JsValue): (r: seq<PacketQueueEntry>)
    ensures forall e :: e in r ==> e.origin == destId
  {
    if popped == [] then []
    else
      var last := popped[|popped| - 1];
      Echoes(popped[..|popped| - 1], destId) + (if last.origin == destId then [last] else [])
  }

  /** Appending one shifted entry extends the delivered packets by that entry
      or by nothing. */
  lemma DeliveredSnoc(popped: seq<PacketQueueEntry>, e: PacketQueueEntry, destId: JsValue)
    ensures Delivered(popped + [e], destId) == Delivered(popped, destId) + Forwarded(e, destId)
  {
    assert (popped + [e])[..|popped|] == popped;
  }

  /** The event lines of `update` and `flush`. */
  datatype RouteEvent =
    | Sent(from: JsValue, to: JsValue, origin: JsValue)
    | SkippedSending(from: JsValue, to: JsValue, origin: JsValue)
    | Flushed(from: JsValue, to: JsValue, origin: JsValue)
    | SkippedFlushing(from: JsValue, to: JsValue, origin: JsValue)

  /** The line one handled entry produces. */
  function RouteEventOf(flushing: bool, from: JsValue, to: JsValue, e: PacketQueueEntry): (r: RouteEvent)
    ensures r.from == from && r.to == to && r.origin == e.origin
    ensures r.Sent? || r.Flushed? <==> to != e.origin
    ensures r.Flushed? || r.SkippedFlushing? <==> flushing
  {
    if flushing then
      if to != e.origin then Flushed(from, to, e.origin) else SkippedFlushing(from, to, e.origin)
    else
      if to != e.origin then Sent(from, to, e.origin) else SkippedSending(from, to, e.origin)
  }

  /** One line per handled entry, in order. */
  function RouteEvents(flushing: bool, from: JsValue, to: JsValue, handled: seq<PacketQueueEntry>): (r: seq<RouteEvent>)
    ensures |r| == |handled|
  {
    if handled == [] then []
    else RouteEvents(flushing, from, to, handled[..|handled| - 1]) + [RouteEventOf(flushing, from, to, handled[|handled| - 1])]
  }

  /** Line `i` is the line of entry `i`: sent or skipped (flushed or skipped
      on a flush), from this view to the destination, with the entry's origin. */
  lemma {:induction false} RouteEventsLines(flushing: bool, from: JsValue, to: JsValue, handled: seq<PacketQueueEntry>)
    ensures forall i :: 0 <= i < |handled| ==>
      RouteEvents(flushing, from, to, handled)[i] == RouteEventOf(flushing, from, to, handled[i])
  {
    if handled != [] {
      RouteEventsLines(flushing, from, to, handled[..|handled| - 1]);
    }
  }

  lemma RouteEventsSnoc(flushing: bool, from: JsValue, to: JsValue, handled: seq<PacketQueueEntry>, e: PacketQueueEntry)
    ensures RouteEvents(flushing, from, to, handled + [e]) == RouteEvents(flushing, from, to, handled) + [RouteEventOf(flushing, from, to, e)]
  {
    assert (handled + [e])[..|handled|] == handled;
  }

  /** A line reports a delivery exactly when the entry was handed over, so a
      tick reports as many `sent` lines as it delivers packets. */
  lemma {:induction false} SentLinesAreDeliveries(flushing: bool, from: JsValue, to: JsValue, handled: seq<PacketQueueEntry>)
    ensures |Delivered(handled, to)| == CountDeliveries(RouteEvents(flushing, from, to, handled))
  {
    if handled != [] {
      var init := handled[..|handled| - 1];
      SentLinesAreDeliveries(flushing, from, to, init);
      assert RouteEvents(flushing, from, to, handled)[..|init|] == RouteEvents(flushing, from, to, init);
    }
  }

  /** Number of `sent` and `flushed` lines. */
  function CountDeliveries(events: seq<RouteEvent>): nat {
    if events == [] then 0
    else CountDeliveries(events[..|events| - 1]) + (if events[|events| - 1].Sent? || events[|events| - 1].Flushed? then 1 else 0)
  }
}
