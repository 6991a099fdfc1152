/** Enqueueing a multicast frame once per covering gateway (internal/downlink/multicast/enqueue.go
    over the queue table of internal/storage/multicast_group.go).

    The object is one multicast-group row together with its rows of the queue table. The gateways
    to use, the current time and the leap seconds are arguments. Every method keeps Valid(), so the
    spacing it states holds after any interleaving of enqueues, deletes and flushes.
 */
module MulticastQueue {
  import opened Options
  import opened Common
  import opened ClassB
  import opened Gps

  const ENQUEUE_MARGIN: int := 5 * SECOND

  datatype GroupType = ClassBGroup | ClassCGroup

  datatype QueueItem = QueueItem(id: nat, gatewayId: int, fCnt: int, fPort: int, scheduleAt: int, emitAt: Option<int>)

  datatype EnqueueError = InvalidFCnt | InvalidFPort | NoPingSlot(cause: PingError)

  function EmitTimes(items: seq<QueueItem>): (times: seq<Option<int>>)
    ensures |times| == |items| && forall i :: 0 <= i < |items| ==> times[i] == items[i].emitAt
  {
    seq(|items|, i requires 0 <= i < |items| => items[i].emitAt)
  }

  /** max(schedule_at), None standing for the SQL null of an empty table */
  function MaxScheduleAt(items: seq<QueueItem>): (max: Option<int>)
    ensures max.None? <==> items == []
    ensures max.Some? ==> exists i :: 0 <= i < |items| && items[i].scheduleAt == max.value
    ensures max.Some? ==> forall i :: 0 <= i < |items| ==> items[i].scheduleAt <= max.value
  {
    if items == [] then None
    else
      var rest := MaxScheduleAt(items[1..]);
      if rest.None? || items[0].scheduleAt > rest.value then Some(items[0].scheduleAt) else rest
  }

  /** Where a Class-C batch starts: a delay after everything queued, now when nothing is. */
  function ClassCStart(items: seq<QueueItem>, now: int, delay: int): int {
    var max := MaxScheduleAt(items);
    if max.None? then now else max.value + delay
  }

  /** The time after which a Class-B batch looks for its first slot. */
  function ClassBStart(items: seq<QueueItem>, leaps: seq<Leap>, now: int): int {
    var max := MaxEmitAt(EmitTimes(items));
    if max == 0 then UtcToGps(leaps, now + ENQUEUE_MARGIN) else max
  }

  /** A Class-C batch starts a gateway delay behind the latest row, and at once when none is queued. */
  lemma ClassCStartMeans(items: seq<QueueItem>, now: int, delay: int)
    ensures items == [] ==> ClassCStart(items, now, delay) == now
    ensures forall i :: 0 <= i < |items| ==> items[i].scheduleAt + delay <= ClassCStart(items, now, delay)
    ensures items != [] ==>
              exists i :: 0 <= i < |items| && ClassCStart(items, now, delay) == items[i].scheduleAt + delay
  {
    var max := MaxScheduleAt(items);
    if max.Some? {
      var i :| 0 <= i < |items| && items[i].scheduleAt == max.value;
    }
  }

  /** A Class-B batch emits behind the latest queued emission, and else more than five seconds from now. */
  lemma ClassBStartMeans(items: seq<QueueItem>, leaps: seq<Leap>, now: int)
    requires WellFormed(leaps) && 0 <= now
    ensures forall i :: 0 <= i < |items| && items[i].emitAt.Some? ==>
                          items[i].emitAt.value <= ClassBStart(items, leaps, now)
    ensures || (exists i :: 0 <= i < |items| && items[i].emitAt == Some(ClassBStart(items, leaps, now)))
            || ClassBStart(items, leaps, now) == UtcToGps(leaps, now + 5_000_000_000)
    ensures (forall i :: 0 <= i < |items| ==> items[i].emitAt.None?) ==>
              ClassBStart(items, leaps, now) == UtcToGps(leaps, now + 5_000_000_000)
  {
    var max := MaxEmitAt(EmitTimes(items));
    OffsetMonotone(leaps, now + ENQUEUE_MARGIN, now + ENQUEUE_MARGIN);
    assert forall i :: 0 <= i < |items| ==> EmitTimes(items)[i] == items[i].emitAt;
    if max != 0 {
      var i :| 0 <= i < |items| && EmitTimes(items)[i] == Some(max);
      assert items[i].emitAt == Some(max);
    }
  }

  /** So every row of a batch emits behind everything queued, or more than five seconds from now. */
  lemma BatchEmitsLater(r: Receiver, items: seq<QueueItem>, batch: seq<QueueItem>, leaps: seq<Leap>, now: int, i: nat)
    requires WellFormed(leaps) && 0 <= now
    requires ClassB.Valid(r) && ConsecutiveSlots(r, batch, ClassBStart(items, leaps, now)) && i < |batch|
    ensures batch[i].emitAt.Some? && IsSlot(r, batch[i].emitAt.value)
    ensures forall j :: 0 <= j < |items| && items[j].emitAt.Some? ==> items[j].emitAt.value < batch[i].emitAt.value
    ensures (forall j :: 0 <= j < |items| ==> items[j].emitAt.None?) ==>
              UtcToGps(leaps, now + 5_000_000_000) < batch[i].emitAt.value
  {
    var start := ClassBStart(items, leaps, now);
    ClassBStartMeans(items, leaps, now);
    hide ClassBStart, UtcToGps, SlotTime;
    assert forall j :: 0 <= j < |batch| ==> SlotBefore(batch, j, start) < batch[j].emitAt.value;
    BatchAscends(batch, start, i, i);
  }

  /** A Class-B row is handed to the scheduler two of its intervals before it emits. */
  ghost predicate TimedByEmission(batch: seq<QueueItem>, leaps: seq<Leap>, interval: int) {
    forall i :: 0 <= i < |batch| ==>
                  batch[i].emitAt.Some? && batch[i].scheduleAt == GpsToUtc(leaps, batch[i].emitAt.value) - 2 * interval
  }

  ghost predicate IdsDistinct(items: seq<QueueItem>, nextId: nat) {
    && (forall i :: 0 <= i < |items| ==> items[i].id < nextId)
    && (forall i, j :: 0 <= i < j < |items| ==> items[i].id != items[j].id)
  }

  ghost predicate EmitTimesDistinct(items: seq<QueueItem>) {
    && (forall i :: 0 <= i < |items| ==> items[i].emitAt.Some? && 0 < items[i].emitAt.value)
    && (forall i, j :: 0 <= i < j < |items| ==> items[i].emitAt != items[j].emitAt)
  }

  ghost predicate SpacedBy(items: seq<QueueItem>, delay: int) {
    forall i, j :: 0 <= i < |items| && 0 <= j < |items| && i != j ==>
                     || items[i].scheduleAt + delay <= items[j].scheduleAt
                     || items[j].scheduleAt + delay <= items[i].scheduleAt
  }

  /** The batch adds one row per gateway, in order, all with the frame's counter. */
  ghost predicate IsBatch(batch: seq<QueueItem>, gateways: seq<int>, qi: QueueItem) {
    && |batch| == |gateways|
    && forall i :: 0 <= i < |batch| ==>
                     batch[i].gatewayId == gateways[i] && batch[i].fCnt == qi.fCnt && batch[i].fPort == qi.fPort
  }

  /** The i-th row of a Class-C batch is scheduled i gateway delays after the first. */
  ghost predicate ScheduledFrom(batch: seq<QueueItem>, start: int, delay: int) {
    forall i :: 0 <= i < |batch| ==> batch[i].scheduleAt == start + i * delay
  }

  /** The time after which row i of a Class-B batch looks for its slot. */
  ghost function SlotBefore(batch: seq<QueueItem>, i: nat, start: int): int
    requires i < |batch|
  {
    if i == 0 || batch[i-1].emitAt.None? then start else batch[i-1].emitAt.value
  }

  /** Gateway i of the batch emits in the very next ping slot after gateway i - 1, the first one
      in the next slot after time start. */
  ghost predicate ConsecutiveSlots(r: Receiver, batch: seq<QueueItem>, start: int)
    requires ClassB.Valid(r)
  {
    forall i :: 0 <= i < |batch| ==>
                  batch[i].emitAt.Some? && IsNextSlot(r, SlotBefore(batch, i, start), batch[i].emitAt.value)
  }

  lemma BatchSpaced(batch: seq<QueueItem>, start: int, delay: int, i: nat, j: nat)
    requires ScheduledFrom(batch, start, delay) && i < j < |batch|
    requires 0 <= delay
    ensures batch[i].scheduleAt + delay <= batch[j].scheduleAt
  {
    TimesOrder(i, j, delay);
  }

  lemma BatchFollows(batch: seq<QueueItem>, start: int, delay: int, i: nat)
    requires ScheduledFrom(batch, start, delay) && i < |batch|
    requires 0 <= delay
    ensures start <= batch[i].scheduleAt
  {
    if i > 0 {
      BatchSpaced(batch, start, delay, 0, i);
    }
    assert 0 * delay == 0;
  }

  lemma SpacedAppend(items: seq<QueueItem>, batch: seq<QueueItem>, start: int, delay: int)
    requires SpacedBy(items, delay) && 0 <= delay
    requires ScheduledFrom(batch, start, delay)
    requires forall i :: 0 <= i < |items| ==> items[i].scheduleAt + delay <= start
    ensures SpacedBy(items + batch, delay)
  {
    hide ScheduledFrom;
    var all := items + batch;
    forall i, j | 0 <= i < j < |all|
      ensures all[i].scheduleAt + delay <= all[j].scheduleAt || all[j].scheduleAt + delay <= all[i].scheduleAt
    {
      if |items| <= i {
        BatchSpaced(batch, start, delay, i - |items|, j - |items|);
      } else if |items| <= j {
        BatchFollows(batch, start, delay, j - |items|);
      }
    }
  }

  ghost predicate EmitAscending(batch: seq<QueueItem>, start: int) {
    forall i :: 0 <= i < |batch| ==> batch[i].emitAt.Some? && SlotBefore(batch, i, start) < batch[i].emitAt.value
  }

  function LastEmit(batch: seq<QueueItem>, start: int): int {
    if batch == [] || batch[|batch| - 1].emitAt.None? then start else batch[|batch| - 1].emitAt.value
  }

  lemma BatchStart(items: seq<QueueItem>, leaps: seq<Leap>, now: int, gateways: seq<int>, qi: QueueItem)
    requires WellFormed(leaps) && 0 <= now
    ensures var start := ClassBStart(items, leaps, now);
            && 0 < start && EmitAscending([], start) && LastEmit([], start) == start
            && forall i :: 0 <= i < |items| && items[i].emitAt.Some? ==> items[i].emitAt.value <= start
    ensures IsBatch([], gateways[..0], qi)
  {
    OffsetMonotone(leaps, now + ENQUEUE_MARGIN, now + ENQUEUE_MARGIN);
  }

  lemma ConsecutiveNil(r: Receiver, start: int)
    requires ClassB.Valid(r)
    ensures ConsecutiveSlots(r, [], start)
  {
  }

  lemma BatchStartC(gateways: seq<int>, qi: QueueItem)
    ensures IsBatch([], gateways[..0], qi)
  {
  }

  lemma BatchSnoc(batch: seq<QueueItem>, gateways: seq<int>, qi: QueueItem, row: QueueItem)
    requires |batch| < |gateways| && IsBatch(batch, gateways[..|batch|], qi)
    requires row.gatewayId == gateways[|batch|] && row.fCnt == qi.fCnt && row.fPort == qi.fPort
    ensures IsBatch(batch + [row], gateways[..|batch| + 1], qi)
  {
  }

  /** Extending a batch by a row whose slot follows the last one. */
  lemma ConsecutiveSnoc(r: Receiver, batch: seq<QueueItem>, row: QueueItem, start: int)
    requires ClassB.Valid(r) && ConsecutiveSlots(r, batch, start) && EmitAscending(batch, start)
    requires row.emitAt.Some? && LastEmit(batch, start) < row.emitAt.value
    requires IsNextSlot(r, LastEmit(batch, start), row.emitAt.value)
    ensures ConsecutiveSlots(r, batch + [row], start) && EmitAscending(batch + [row], start)
    ensures LastEmit(batch + [row], start) == row.emitAt.value
  {
    hide ClassB.IsNextSlot;
    var longer := batch + [row];
    assert forall i :: 0 <= i < |batch| ==> SlotBefore(longer, i, start) == SlotBefore(batch, i, start);
    assert SlotBefore(longer, |batch|, start) == LastEmit(batch, start);
  }

  lemma {:induction false} BatchAscends(batch: seq<QueueItem>, start: int, i: nat, j: nat)
    requires EmitAscending(batch, start) && i <= j < |batch|
    ensures start < batch[i].emitAt.value <= batch[j].emitAt.value
    ensures i < j ==> batch[i].emitAt.value < batch[j].emitAt.value
    decreases i + j
  {
    if i < j {
      BatchAscends(batch, start, i, j - 1);
      assert SlotBefore(batch, j, start) == batch[j-1].emitAt.value;
    } else if 0 < i {
      BatchAscends(batch, start, i - 1, i - 1);
      assert SlotBefore(batch, i, start) == batch[i-1].emitAt.value;
    }
  }

  /** Times found one after the other, all later than the rows already queued. */
  lemma AscendingDistinct(items: seq<QueueItem>, batch: seq<QueueItem>, start: int)
    requires EmitTimesDistinct(items) && 0 < start
    requires EmitAscending(batch, start)
    requires forall i :: 0 <= i < |items| && items[i].emitAt.Some? ==> items[i].emitAt.value <= start
    ensures EmitTimesDistinct(items + batch)
  {
    var all := items + batch;
    forall i | 0 <= i < |all| ensures all[i].emitAt.Some? && 0 < all[i].emitAt.value {
      if |items| <= i {
        BatchAscends(batch, start, i - |items|, i - |items|);
      }
    }
    forall i, j | 0 <= i < j < |all| ensures all[i].emitAt != all[j].emitAt {
      if |items| <= j {
        var k := if |items| <= i then i - |items| else 0;
        BatchAscends(batch, start, k, j - |items|);
      }
    }
  }

  class Group {
    const groupType: GroupType
    const mcAddr: int
    const pingSlotPeriod: nat
    const aes: (int, int) -> (Byte, Byte)
    const gatewayDelay: int
    const schedulerInterval: int
    var fCnt: int
    var queue: seq<QueueItem>
    var nextId: nat
    /** The counters of every frame enqueued so far. */
    ghost var accepted: seq<int>

    ghost predicate Valid()
      reads this
    {
      QueueValid() && CountersValid() && IdsDistinct(queue, nextId)
    }

    ghost predicate QueueValid()
      reads this`queue
    {
      && 0 <= gatewayDelay
      && (groupType == ClassBGroup ==> EmitTimesDistinct(queue))
      && (groupType == ClassCGroup ==> SpacedBy(queue, gatewayDelay))
    }

    ghost predicate CountersValid()
      reads this`fCnt, this`accepted
    {
      && 0 <= fCnt < UINT32
      && (forall i :: 0 <= i < |accepted| ==> 0 <= accepted[i] < UINT32)
      && (UINT32 - 1 !in accepted ==>
            && (forall i, j :: 0 <= i < j < |accepted| ==> accepted[i] < accepted[j])
            && (accepted != [] ==> accepted[|accepted| - 1] < fCnt))
    }

    function PingNb(): nat {
      if pingSlotPeriod != 0 then PING_PERIOD_BASE / pingSlotPeriod else 0
    }

    /** One ping slot every pingSlotPeriod of the 4096 positions. */
    lemma PingNbIs()
      ensures pingSlotPeriod == 0 ==> PingNb() == 0
      ensures pingSlotPeriod > 0 ==> PingNb() * pingSlotPeriod <= 4096 < (PingNb() + 1) * pingSlotPeriod
    {
    }

    function Listener(): Receiver {
      Receiver(aes, mcAddr, PingNb())
    }

    constructor (groupType: GroupType, mcAddr: int, pingSlotPeriod: nat, aes: (int, int) -> (Byte, Byte),
                 gatewayDelay: int, schedulerInterval: int)
      requires 0 <= gatewayDelay
      ensures Valid() && queue == [] && accepted == [] && fCnt == 0
    {
      this.groupType, this.mcAddr, this.pingSlotPeriod, this.aes := groupType, mcAddr, pingSlotPeriod, aes;
      this.gatewayDelay, this.schedulerInterval := gatewayDelay, schedulerInterval;
      fCnt, queue, nextId, accepted := 0, [], 0, [];
    }

    method CreateQueueItem(item: QueueItem) returns (error: Option<EnqueueError>)
      requires IdsDistinct(queue, nextId)
      modifies this`queue, this`nextId
      ensures IdsDistinct(queue, nextId)
      ensures error == if item.fPort == 0 then Some(InvalidFPort) else None
      ensures queue == if item.fPort == 0 then old(queue) else old(queue) + [item.(id := old(nextId))]
      ensures nextId == if item.fPort == 0 then old(nextId) else old(nextId) + 1
    {
      if item.fPort == 0 {
        return Some(InvalidFPort);
      }
      queue := queue + [item.(id := nextId)];
      nextId := nextId + 1;
      error := None;
    }

    /** The Class-C loop: schedule times a gateway delay apart, after everything queued. */
    method EnqueueClassC(qi: QueueItem, gateways: seq<int>, now: int)
      returns (error: Option<EnqueueError>, ghost batch: seq<QueueItem>)
      requires QueueValid() && groupType == ClassCGroup && IdsDistinct(queue, nextId)
      modifies this`queue, this`nextId
      ensures QueueValid() && IdsDistinct(queue, nextId)
      ensures error == if qi.fPort == 0 && gateways != [] then Some(InvalidFPort) else None
      ensures queue == old(queue) + batch
      ensures error.None? ==> IsBatch(batch, gateways, qi)
      ensures ScheduledFrom(batch, ClassCStart(old(queue), now, gatewayDelay), gatewayDelay)
    {
      hide IdsDistinct, IsBatch;
      batch := [];
      BatchStartC(gateways, qi);
      var ts := ClassCStart(queue, now, gatewayDelay);
      ghost var start := ts;
      for g := 0 to |gateways|
        invariant 0 < g ==> qi.fPort != 0
        invariant IdsDistinct(queue, nextId)
        invariant ts == start + g * gatewayDelay
        invariant queue == old(queue) + batch
        invariant |batch| == g && IsBatch(batch, gateways[..g], qi)
        invariant ScheduledFrom(batch, start, gatewayDelay)
      {
        var item := qi.(gatewayId := gateways[g], scheduleAt := ts);
        ghost var row := item.(id := nextId);
        error := CreateQueueItem(item);
        if error.Some? {
          assert queue == old(queue);
          return;
        }
        BatchSnoc(batch, gateways, qi, row);
        batch := batch + [row];
        TimesSucc(g, gatewayDelay);
        ts := ts + gatewayDelay;
      }
      SpacedAppend(old(queue), batch, start, gatewayDelay);
      assert gateways[..|gateways|] == gateways;
      error := None;
    }

    /** One round of the Class-B loop. */
    method ScheduleInNextSlot(qi: QueueItem, after: int, leaps: seq<Leap>)
      returns (error: Option<EnqueueError>, row: QueueItem)
      requires QueueValid() && groupType == ClassBGroup && 0 <= after && IdsDistinct(queue, nextId)
      modifies this`queue, this`nextId
      ensures IdsDistinct(queue, nextId)
      ensures error == if PingNb() == 0 then Some(NoPingSlot(PingNbZero))
                       else if qi.fPort == 0 then Some(InvalidFPort) else None
      ensures error.Some? ==> queue == old(queue)
      ensures error.None? ==> queue == old(queue) + [row] && row.emitAt.Some?
      ensures error.None? ==> row.fCnt == qi.fCnt && row.fPort == qi.fPort && row.gatewayId == qi.gatewayId
      ensures error.None? ==> ClassB.Valid(Listener()) && IsNextSlot(Listener(), after, row.emitAt.value)
      ensures error.None? ==> after < row.emitAt.value
      ensures error.None? ==> row.scheduleAt == GpsToUtc(leaps, row.emitAt.value) - 2 * schedulerInterval
    {
      row := qi;
      var next := GetNextPingSlotAfter(Listener(), after);
      if next.Err? {
        return Some(NoPingSlot(next.error)), row;
      }
      SearchFindsNextSlot(Listener(), after, next.value);
      row := qi.(id := nextId, emitAt := Some(next.value),
                 scheduleAt := GpsToUtc(leaps, next.value) - 2 * schedulerInterval);
      error := CreateQueueItem(row);
    }

    /** The Class-B loop: one ping slot after the other. */
    method EnqueueClassB(qi: QueueItem, gateways: seq<int>, leaps: seq<Leap>, now: int)
      returns (error: Option<EnqueueError>, ghost batch: seq<QueueItem>)
      requires QueueValid() && groupType == ClassBGroup && WellFormed(leaps) && 0 <= now && IdsDistinct(queue, nextId)
      modifies this`queue, this`nextId
      ensures QueueValid() && IdsDistinct(queue, nextId)
      ensures error.Some? <==> gateways != [] && (PingNb() == 0 || qi.fPort == 0)
      ensures error.Some? ==> error.value != InvalidFCnt
      ensures queue == old(queue) + batch
      ensures error.None? ==> IsBatch(batch, gateways, qi)
      ensures error.None? && gateways != [] ==>
                ClassB.Valid(Listener()) && ConsecutiveSlots(Listener(), batch, ClassBStart(old(queue), leaps, now))
      ensures error.None? ==> TimedByEmission(batch, leaps, schedulerInterval)
    {
      hide ClassB.IsNextSlot, ClassB.Valid, IsBatch, ConsecutiveSlots, EmitAscending, EmitTimesDistinct, LastEmit;
      hide IdsDistinct, GpsToUtc;
      hide ClassBStart, Group.PingNb, Group.Listener;
      batch := [];
      BatchStart(queue, leaps, now, gateways, qi);
      var scheduleTS := ClassBStart(queue, leaps, now);
      ghost var start := scheduleTS;
      for g := 0 to |gateways|
        invariant 0 < g ==> ClassB.Valid(Listener()) && PingNb() != 0 && qi.fPort != 0
        invariant queue == old(queue) + batch
        invariant |batch| == g && IsBatch(batch, gateways[..g], qi)
        invariant EmitAscending(batch, start)
        invariant 0 < start <= scheduleTS == LastEmit(batch, start)
        invariant g > 0 ==> ConsecutiveSlots(Listener(), batch, start)
        invariant QueueValid() && IdsDistinct(queue, nextId)
        invariant TimedByEmission(batch, leaps, schedulerInterval)
      {
        var row;
        error, row := ScheduleInNextSlot(qi.(gatewayId := gateways[g]), scheduleTS, leaps);
        if error.Some? {
          return;
        }
        if g == 0 { ConsecutiveNil(Listener(), start); }
        ConsecutiveSnoc(Listener(), batch, row, start);
        BatchSnoc(batch, gateways, qi, row);
        batch := batch + [row];
        scheduleTS := row.emitAt.value;
        AscendingDistinct(old(queue), batch, start);
      }
      assert gateways[..|gateways|] == gateways;
      error := None;
    }

    /** Enqueues inside a transaction: a failure leaves the group and its queue as they were. */
    method EnqueueQueueItem(qi: QueueItem, gateways: seq<int>, leaps: seq<Leap>, now: int)
      returns (error: Option<EnqueueError>, ghost batch: seq<QueueItem>)
      requires Valid() && WellFormed(leaps) && 0 <= now && 0 <= qi.fCnt < UINT32
      modifies this
      ensures Valid()
      ensures error == Some(InvalidFCnt) <==> qi.fCnt < old(fCnt)
      ensures error.Some? ==> fCnt == old(fCnt) && queue == old(queue) && accepted == old(accepted)
      ensures error.None? ==> fCnt == (qi.fCnt + 1) % UINT32 && accepted == old(accepted) + [qi.fCnt]
      ensures error.None? ==> queue == old(queue) + batch && IsBatch(batch, gateways, qi)
      ensures error.None? && gateways != [] && groupType == ClassBGroup ==>
                ClassB.Valid(Listener()) && ConsecutiveSlots(Listener(), batch, ClassBStart(old(queue), leaps, now))
      ensures error.None? && groupType == ClassBGroup ==> TimedByEmission(batch, leaps, schedulerInterval)
      ensures error.None? && groupType == ClassCGroup ==>
                ScheduledFrom(batch, ClassCStart(old(queue), now, gatewayDelay), gatewayDelay)
    {
      hide ClassB.IsNextSlot, ClassB.Valid, IsBatch, ConsecutiveSlots, EmitTimesDistinct, SpacedBy, ScheduledFrom;
      hide TimedByEmission;
      hide Group.PingNb, Group.Listener;
      batch := [];
      if qi.fCnt < fCnt {
        return Some(InvalidFCnt), [];
      }
      var queueBefore, fCntBefore, nextIdBefore := queue, fCnt, nextId;
      fCnt := (qi.fCnt + 1) % UINT32;
      accepted := accepted + [qi.fCnt];
      match groupType {
        case ClassCGroup => error, batch := EnqueueClassC(qi, gateways, now);
        case ClassBGroup => error, batch := EnqueueClassB(qi, gateways, leaps, now);
      }
      if error.Some? {
        queue, fCnt, nextId, accepted := queueBefore, fCntBefore, nextIdBefore, old(accepted);
      }
    }

    method DeleteQueueItem(id: nat) returns (found: bool)
      requires Valid()
      modifies this`queue
      ensures Valid()
      ensures found <==> exists i :: 0 <= i < |old(queue)| && old(queue)[i].id == id
      ensures !found ==> queue == old(queue)
      ensures found ==> exists i :: && 0 <= i < |old(queue)| && old(queue)[i].id == id
                                    && queue == old(queue)[..i] + old(queue)[i + 1..]
      ensures forall row :: row in queue <==> row in old(queue) && row.id != id
    {
      for i := 0 to |queue|
        invariant queue == old(queue)
        invariant forall j :: 0 <= j < i ==> queue[j].id != id
      {
        if queue[i].id == id {
          queue := queue[..i] + queue[i + 1..];
          return true;
        }
      }
      found := false;
    }

    method Flush()
      requires Valid()
      modifies this`queue
      ensures Valid() && queue == []
    {
      queue := [];
    }
  }
}
