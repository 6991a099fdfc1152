/** The device queue table of one device (internal/storage/device_queue.go).

    rows holds the table in the order "order by f_cnt" reads it. The device profile and session
    fields that creation looks at, and the current time, form an Env that one call sees fixed.
 */
module DeviceQueue {
  import opened Options
  import opened Common
  import opened ClassB
  import opened Gps

  const SCHEDULE_MARGIN: int := 5 * SECOND

  datatype Item = Item(id: nat, payload: seq<int>, fCnt: int, fPort: int, confirmed: bool, isPending: bool,
                       emitAt: Option<int>, timeoutAfter: Option<int>, retryAfter: Option<int>)

  datatype QueueError = InvalidFPort | NoPingSlot | DoesNotExist

  datatype Env = Env(leaps: seq<Leap>, now: int, receiver: Receiver, supportsClassB: bool, beaconLocked: bool,
                     classBTimeout: int)

  function GpsNow(env: Env): int {
    UtcToGps(env.leaps, env.now)
  }

  /** Leap seconds in order and no longer than the margin, as the shipped table has them. */
  ghost predicate ValidEnv(env: Env) {
    && env.receiver.pingNb <= PING_PERIOD_BASE && 0 <= GpsNow(env) && 0 <= env.classBTimeout
    && WellFormed(env.leaps) && forall i :: 0 <= i < |env.leaps| ==> env.leaps[i].duration <= SCHEDULE_MARGIN
  }

  ghost predicate Sorted(rows: seq<Item>) {
    forall i, j :: 0 <= i < j < |rows| ==> rows[i].fCnt <= rows[j].fCnt
  }

  function EmitTimes(rows: seq<Item>): (times: seq<Option<int>>)
    ensures |times| == |rows| && forall i :: 0 <= i < |rows| ==> times[i] == rows[i].emitAt
  {
    seq(|rows|, i requires 0 <= i < |rows| => rows[i].emitAt)
  }

  /** A device that operates in Class-B and has a beacon lock. */
  predicate InClassB(env: Env) {
    env.supportsClassB && env.beaconLocked
  }

  /** Creation schedules an item itself only for a Class-B device with beacon lock, and only when
      neither a timeout nor an emission time is given. */
  predicate MustSchedule(env: Env, item: Item) {
    item.timeoutAfter.None? && item.emitAt.None? && InClassB(env)
  }

  /** The time the ping slot of a new item has to follow. */
  function ScheduleAfter(env: Env, rows: seq<Item>): int {
    (if MaxEmitAt(EmitTimes(rows)) == 0 then GpsNow(env) else MaxEmitAt(EmitTimes(rows))) + SCHEDULE_MARGIN
  }

  /** The very next ping slot is sought after every emission that is queued, or after now. */
  lemma ScheduleAfterMeans(env: Env, rows: seq<Item>)
    requires 0 <= GpsNow(env)
    ensures forall i :: 0 <= i < |rows| && rows[i].emitAt.Some? ==>
                          rows[i].emitAt.value + 5 * SECOND <= ScheduleAfter(env, rows)
    ensures || (exists i :: 0 <= i < |rows| && rows[i].emitAt == Some(ScheduleAfter(env, rows) - 5 * SECOND))
            || ScheduleAfter(env, rows) == UtcToGps(env.leaps, env.now) + 5 * SECOND
    ensures (forall i :: 0 <= i < |rows| ==> rows[i].emitAt.None?) ==>
              ScheduleAfter(env, rows) == UtcToGps(env.leaps, env.now) + 5 * SECOND
  {
    var max := MaxEmitAt(EmitTimes(rows));
    if max != 0 {
      var i :| 0 <= i < |rows| && EmitTimes(rows)[i] == Some(max);
      assert rows[i].emitAt == Some(max);
    }
    assert forall i :: 0 <= i < |rows| ==> EmitTimes(rows)[i] == rows[i].emitAt;
  }

  /** The row that stores a new item: its fields, a fresh id and, for a scheduled one, the next
      ping slot and the Class-B timeout counted from it. */
  ghost predicate IsStored(env: Env, rows: seq<Item>, item: Item, row: Item)
    requires ValidEnv(env)
  {
    if MustSchedule(env, item) then
      && ClassB.Valid(env.receiver) && row.emitAt.Some?
      && row == item.(id := row.id, emitAt := row.emitAt,
                      timeoutAfter := Some(GpsToUtc(env.leaps, row.emitAt.value) + env.classBTimeout * SECOND))
      && ScheduleAfter(env, rows) < row.emitAt.value
      && IsNextSlot(env.receiver, ScheduleAfter(env, rows), row.emitAt.value)
    else
      row == item.(id := row.id)
  }

  /** Only an item without times for a device in Class-B with beacon lock is scheduled: later than every
      queued emission, with the timeout counted from its slot. Any other is stored as it is. */
  lemma StoredMeans(env: Env, rows: seq<Item>, item: Item, row: Item)
    requires ValidEnv(env) && IsStored(env, rows, item, row)
    ensures row == item.(id := row.id, emitAt := row.emitAt, timeoutAfter := row.timeoutAfter)
    ensures item.timeoutAfter.Some? || item.emitAt.Some? || !env.supportsClassB || !env.beaconLocked ==>
              row.emitAt == item.emitAt && row.timeoutAfter == item.timeoutAfter
    ensures item.timeoutAfter.None? && item.emitAt.None? && env.supportsClassB && env.beaconLocked ==>
              && row.emitAt.Some? && IsSlot(env.receiver, row.emitAt.value)
              && row.timeoutAfter == Some(GpsToUtc(env.leaps, row.emitAt.value) + env.classBTimeout * SECOND)
              && (forall i :: 0 <= i < |rows| && rows[i].emitAt.Some? ==>
                                rows[i].emitAt.value + 5 * SECOND < row.emitAt.value)
              && ((forall i :: 0 <= i < |rows| ==> rows[i].emitAt.None?) ==>
                    UtcToGps(env.leaps, env.now) + 5 * SECOND < row.emitAt.value)
  {
    ScheduleAfterMeans(env, rows);
    hide ScheduleAfter, UtcToGps, GpsToUtc;
  }

  /** An emission time, when there is one, that lies in the future. */
  predicate EmitsLater(env: Env, row: Item) {
    row.emitAt.None? || GpsNow(env) < row.emitAt.value
  }

  predicate HasTimedOut(row: Item, now: int) {
    row.timeoutAfter.Some? && row.timeoutAfter.value < now
  }

  /** A row as creation leaves it: not pending, nothing to emit in the past, no timeout that has passed. */
  predicate Fresh(env: Env, row: Item) {
    !row.isPending && EmitsLater(env, row) && !HasTimedOut(row, env.now)
  }

  /** The position behind every row with an equal or smaller counter. */
  function Position(rows: seq<Item>, fCnt: int): (p: nat)
    ensures p <= |rows|
    ensures p < |rows| ==> fCnt < rows[p].fCnt
    ensures forall i :: 0 <= i < p ==> rows[i].fCnt <= fCnt
  {
    if rows == [] || fCnt < rows[0].fCnt then 0 else 1 + Position(rows[1..], fCnt)
  }

  function Insert(rows: seq<Item>, row: Item): seq<Item> {
    var p := Position(rows, row.fCnt);
    rows[..p] + [row] + rows[p..]
  }

  /** The row is put in front of the first one of greater counter; all others keep their order. */
  lemma InsertMeans(rows: seq<Item>, row: Item) returns (p: nat)
    ensures p <= |rows| && Insert(rows, row) == rows[..p] + [row] + rows[p..]
    ensures (forall i :: 0 <= i < p ==> rows[i].fCnt <= row.fCnt) && (p < |rows| ==> row.fCnt < rows[p].fCnt)
  {
    p := Position(rows, row.fCnt);
  }

  lemma InsertLast(rows: seq<Item>, row: Item)
    requires forall i :: 0 <= i < |rows| ==> rows[i].fCnt <= row.fCnt
    ensures Insert(rows, row) == rows + [row]
  {
    assert Position(rows, row.fCnt) == |rows|;
  }

  /** The row with the pending state and timeout of another reading of it. */
  function Pended(row: Item, item: Item): Item {
    row.(isPending := item.isPending, timeoutAfter := item.timeoutAfter)
  }

  /** An item as it is queued again: no id yet, not pending, without its old times. */
  function Renewed(item: Item): Item {
    item.(id := 0, isPending := false, emitAt := None, timeoutAfter := None, retryAfter := None)
  }

  /** The row carries the item's counter and contents. */
  ghost predicate SameFrame(row: Item, item: Item) {
    row.fCnt == item.fCnt && row.payload == item.payload && row.fPort == item.fPort && row.confirmed == item.confirmed
  }

  /** Converting a GPS time back loses no more than the margin: what lies more than the margin after
      the GPS reading of an instant lies after that instant. */
  lemma LaterInUtc(env: Env, g: int)
    requires ValidEnv(env) && GpsNow(env) + SCHEDULE_MARGIN < g
    ensures env.now < GpsToUtc(env.leaps, g)
  {
    var t := GpsToUtc(env.leaps, g);
    GpsRoundTrip(env.leaps, g);
    assert g - SCHEDULE_MARGIN <= UtcToGps(env.leaps, t);
    if t < env.now {
      UtcToGpsIncreasing(env.leaps, t, env.now);
    }
  }

  /** A row created without times carries the item unchanged, and can be sent: it neither emits in
      the past nor has timed out. */
  lemma StoredIsFresh(env: Env, rows: seq<Item>, item: Item, row: Item)
    requires ValidEnv(env) && IsStored(env, rows, Renewed(item), row)
    requires forall i :: 0 <= i < |rows| ==> Fresh(env, rows[i])
    ensures SameFrame(row, item) && Fresh(env, row) && row.retryAfter.None?
  {
    hide ClassB.IsNextSlot, Gps.GpsToUtc, Gps.WellFormed, GpsNow;
    if MustSchedule(env, Renewed(item)) {
      assert GpsNow(env) + SCHEDULE_MARGIN <= ScheduleAfter(env, rows);
      LaterInUtc(env, row.emitAt.value);
    }
  }

  ghost predicate ValidRows(rows: seq<Item>, nextId: nat) {
    && Sorted(rows)
    && (forall i :: 0 <= i < |rows| ==> rows[i].fPort != 0)
    && (forall i :: 0 <= i < |rows| ==> rows[i].id < nextId)
    && (forall i, j :: 0 <= i < j < |rows| ==> rows[i].id != rows[j].id)
  }

  lemma Removed(rows: seq<Item>, nextId: nat, i: nat)
    requires ValidRows(rows, nextId) && i < |rows|
    ensures var left := rows[..i] + rows[i + 1..];
            ValidRows(left, nextId) && forall row :: row in left <==> row in rows && row.id != rows[i].id
  {
    var left := rows[..i] + rows[i + 1..];
    assert forall k :: 0 <= k < |left| ==> left[k] == rows[if k < i then k else k + 1];
    forall row | row in rows && row.id != rows[i].id ensures row in left {
      var k :| 0 <= k < |rows| && rows[k] == row;
      assert left[if k < i then k else k - 1] == row;
    }
  }

  class Queue {
    var rows: seq<Item>
    var nextId: nat

    ghost predicate Valid()
      reads this
    {
      ValidRows(rows, nextId)
    }

    lemma OnlyRow(item: Item)
      requires Valid() && item in rows
      ensures forall i :: 0 <= i < |rows| && rows[i].id == item.id ==> rows[i] == item
    {
    }

    constructor ()
      ensures Valid() && rows == []
    {
      rows, nextId := [], 0;
    }

    /** insert into device_queue ... returning id */
    method Store(item: Item) returns (row: Item)
      requires Valid() && item.fPort != 0
      modifies this
      ensures Valid() && nextId == old(nextId) + 1
      ensures row == item.(id := old(nextId)) && rows == Insert(old(rows), row)
    {
      row := item.(id := nextId);
      var p := Position(rows, row.fCnt);
      rows := rows[..p] + [row] + rows[p..];
      nextId := nextId + 1;
      hide Position;
    }

    method CreateDeviceQueueItem(env: Env, item: Item) returns (error: Option<QueueError>, row: Item)
      requires Valid() && ValidEnv(env)
      modifies this
      ensures Valid() && old(nextId) <= nextId
      ensures error == if item.fPort == 0 then Some(InvalidFPort)
                       else if MustSchedule(env, item) && env.receiver.pingNb == 0 then Some(NoPingSlot) else None
      ensures error.Some? ==> rows == old(rows)
      ensures error.None? ==> IsStored(env, old(rows), item, row) && row.id == old(nextId)
      ensures error.None? ==> rows == Insert(old(rows), row)
    {
      hide ClassB.IsNextSlot, ClassB.IsFirstSearched, Insert, Sorted;
      row := item;
      if item.fPort == 0 {
        return Some(InvalidFPort), row;
      }
      if MustSchedule(env, item) {
        var after := ScheduleAfter(env, rows);
        var next := GetNextPingSlotAfter(env.receiver, after);
        if next.Err? {
          return Some(NoPingSlot), row;
        }
        SearchFindsNextSlot(env.receiver, after, next.value);
        row := item.(emitAt := Some(next.value),
                     timeoutAfter := Some(GpsToUtc(env.leaps, next.value) + env.classBTimeout * SECOND));
      }
      row := Store(row);
      error := None;
    }

    /** An item of smallest counter and whether more are queued; nothing while it awaits its acknowledgement. */
    method GetNextDeviceQueueItem(now: int) returns (next: Option<(Item, bool)>)
      requires Valid()
      ensures next.Some? ==> next.value.0 in rows && !AwaitsAck(next.value.0, now) && (next.value.1 <==> |rows| > 1)
      ensures next.Some? ==> forall row :: row in rows ==> next.value.0.fCnt <= row.fCnt
      ensures next.None? ==> forall row :: row in rows ==>
                exists head :: head in rows && head.fCnt <= row.fCnt && AwaitsAck(head, now)
      ensures next.None? <==> rows == [] || AwaitsAck(rows[0], now)
      ensures next.None? && rows != [] ==>
                rows[0].isPending && rows[0].timeoutAfter.Some? && now < rows[0].timeoutAfter.value
      ensures next.Some? && next.value.0.isPending ==>
                next.value.0.timeoutAfter.None? || next.value.0.timeoutAfter.value <= now
      ensures next.Some? ==> next.value == (rows[0], |rows| > 1)
    {
      if rows == [] || AwaitsAck(rows[0], now) {
        return None;
      }
      next := Some((rows[0], |rows| > 1));
    }

    method DeleteDeviceQueueItem(id: nat) returns (error: Option<QueueError>)
      requires Valid()
      modifies this`rows
      ensures Valid()
      ensures error == if exists i :: 0 <= i < |old(rows)| && old(rows)[i].id == id then None else Some(DoesNotExist)
      ensures forall row :: row in rows <==> row in old(rows) && row.id != id
      ensures forall i :: 0 <= i < |old(rows)| && old(rows)[i].id == id ==> rows == old(rows)[..i] + old(rows)[i + 1..]
    {
      for i := 0 to |rows|
        invariant rows == old(rows)
        invariant forall j :: 0 <= j < i ==> rows[j].id != id
      {
        if rows[i].id == id {
          Removed(rows, nextId, i);
          rows := rows[..i] + rows[i + 1..];
          return None;
        }
      }
      error := Some(DoesNotExist);
    }

    method GetDeviceQueueItem(id: nat) returns (item: Result<Item, QueueError>)
      ensures item.Ok? ==> item.value in rows && item.value.id == id
      ensures item.Err? ==> forall i :: 0 <= i < |rows| ==> rows[i].id != id
    {
      for i := 0 to |rows|
        invariant forall j :: 0 <= j < i ==> rows[j].id != id
      {
        if rows[i].id == id {
          return Ok(rows[i]);
        }
      }
      item := Err(DoesNotExist);
    }

    /** UpdateDeviceQueueItem for a row of which only the pending state and timeout have changed. */
    method UpdatePending(item: Item) returns (error: Option<QueueError>)
      requires Valid()
      modifies this`rows
      ensures Valid() && |rows| == |old(rows)|
      ensures forall i :: 0 <= i < |rows| ==>
                            rows[i] == if old(rows)[i].id == item.id
                                       then Pended(old(rows)[i], item)
                                       else old(rows)[i]
      ensures error == if exists i :: 0 <= i < |old(rows)| && old(rows)[i].id == item.id then None
                       else Some(DoesNotExist)
    {
      for i := 0 to |rows|
        invariant rows == old(rows)
        invariant forall j :: 0 <= j < i ==> rows[j].id != item.id
      {
        if rows[i].id == item.id {
          rows := rows[i := rows[i].(isPending := item.isPending, timeoutAfter := item.timeoutAfter)];
          return None;
        }
      }
      error := Some(DoesNotExist);
    }

    /** Flush and queue the given items again, in their order, with new ids and times. */
    method Requeue(env: Env, items: seq<Item>) returns (error: Option<QueueError>)
      requires Valid() && ValidEnv(env) && Sorted(items)
      requires forall i :: 0 <= i < |items| ==> items[i].fPort != 0
      modifies this
      ensures Valid() && old(nextId) <= nextId
      ensures error == if items != [] && InClassB(env) && env.receiver.pingNb == 0 then Some(NoPingSlot) else None
      ensures error.Some? ==> rows == []
      ensures error.None? ==> |rows| == |items|
      ensures error.None? ==> forall i :: 0 <= i < |items| ==> SameFrame(rows[i], items[i]) && Fresh(env, rows[i])
      ensures error.None? ==> forall i :: 0 <= i < |items| ==> rows[i].retryAfter.None? && old(nextId) <= rows[i].id
    {
      rows := [];
      assert Valid();
      hide Queue.Valid, IsStored, Insert, Fresh, MaxEmitAt;
      for i := 0 to |items|
        invariant Valid() && old(nextId) <= nextId
        invariant |rows| == i
        invariant 0 < i ==> !(InClassB(env) && env.receiver.pingNb == 0)
        invariant forall j :: 0 <= j < i ==> SameFrame(rows[j], items[j]) && Fresh(env, rows[j])
        invariant forall j :: 0 <= j < i ==> rows[j].retryAfter.None? && old(nextId) <= rows[j].id
      {
        ghost var before := rows;
        var row;
        error, row := CreateDeviceQueueItem(env, Renewed(items[i]));
        if error.Some? {
          return;
        }
        StoredIsFresh(env, before, items[i], row);
        InsertLast(before, row);
      }
      error := None;
    }
  }

  /** A transmission that still waits for the device's acknowledgement. */
  predicate AwaitsAck(row: Item, now: int) {
    row.isPending && row.timeoutAfter.Some? && now < row.timeoutAfter.value
  }
}
