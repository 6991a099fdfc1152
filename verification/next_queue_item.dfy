/** Selection of the next application downlink: the unbounded loop of getNextDeviceQueueItem in
    internal/downlink/data/data.go.

    One call sees a fixed time. Calls to the application server are numbered; asUp says which of
    them succeed. Re-encryption is any function that meets ReEncrypts.
 */
module NextQueueItem {
  import opened Options
  import opened Common
  import opened DeviceQueue
  import opened Gps

  /** The downlink counters of a session. LoRaWAN 1.0 devices have only the first. */
  datatype Counters = Counters(lorawan11: bool, nFCntDown: int, aFCntDown: int)

  /** The counter that the next application downlink has to carry. */
  function ExpectedFCnt(c: Counters): int {
    if c.lorawan11 then c.aFCntDown else c.nFCntDown
  }

  /** What the application server is sent, and sends back, per queued item. */
  datatype Payload = Payload(bytes: seq<int>, fCnt: int, fPort: int, confirmed: bool)

  /** The counter of item i when numbering starts at start. */
  function NewFCnt(start: int, i: int): int {
    (start + i) % UINT32
  }

  /** The application server returns the same items in the same order with payloads of the same
      length, numbered from the requested counter on. */
  ghost predicate ReEncrypts(f: (int, seq<Payload>) -> seq<Payload>) {
    forall start: int, items: seq<Payload> ::
      && |f(start, items)| == |items|
      && forall i :: 0 <= i < |items| ==> ReEncrypted(NewFCnt(start, i), items[i], f(start, items)[i])
  }

  ghost predicate ReEncrypted(fCnt: int, item: Payload, reply: Payload) {
    && reply.fCnt == fCnt
    && |reply.bytes| == |item.bytes| && reply.fPort == item.fPort && reply.confirmed == item.confirmed
  }

  /** Messages to the application server about items that were removed from the queue: a negative
      acknowledgement, or a payload-size error. */
  datatype Notice = TimedOut(fCnt: int) | TooLarge(fCnt: int)

  datatype LoopError = NoDownlinkFrameItems | ApplicationServerError | EnqueueError(cause: QueueError)

  predicate Usable(env: Env, row: Item, fCnt: int, maxPayloadSize: int) {
    row.fCnt == fCnt && !HasTimedOut(row, env.now) && |row.payload| <= maxPayloadSize && EmitsLater(env, row)
  }

  predicate Droppable(env: Env, row: Item, maxPayloadSize: int) {
    HasTimedOut(row, env.now) || maxPayloadSize < |row.payload|
  }

  /** The row cannot be sent as it is queued, but another numbering or timing would do. */
  predicate NeedsRebuild(env: Env, row: Item, fCnt: int) {
    row.fCnt != fCnt || !EmitsLater(env, row)
  }

  /** How many items are to be dropped: those in front of the first one that is not droppable, or
      that still awaits its acknowledgement. */
  function DropCount(env: Env, rows: seq<Item>, maxPayloadSize: int): (n: nat)
    ensures n <= |rows|
    ensures forall i :: 0 <= i < n ==> Droppable(env, rows[i], maxPayloadSize) && !AwaitsAck(rows[i], env.now)
    ensures n < |rows| ==> AwaitsAck(rows[n], env.now) || !Droppable(env, rows[n], maxPayloadSize)
  {
    if rows == [] || AwaitsAck(rows[0], env.now) || !Droppable(env, rows[0], maxPayloadSize) then 0
    else 1 + DropCount(env, rows[1..], maxPayloadSize)
  }

  /** The notice for a dropped item names its counter and the reason, a timeout taking precedence. */
  function NoticeFor(env: Env, row: Item): Notice {
    if HasTimedOut(row, env.now) then TimedOut(row.fCnt) else TooLarge(row.fCnt)
  }

  function NoticesFor(env: Env, rows: seq<Item>): (sent: seq<Notice>)
    ensures |sent| == |rows| && forall i :: 0 <= i < |rows| ==> sent[i] == NoticeFor(env, rows[i])
  {
    seq(|rows|, i requires 0 <= i < |rows| => NoticeFor(env, rows[i]))
  }

  /** The row still stands for the item: same port, same confirmation, payload of the same length. */
  ghost predicate StandsFor(row: Item, item: Item) {
    |row.payload| == |item.payload| && row.fPort == item.fPort && row.confirmed == item.confirmed
  }

  /** What happened to the items that were not dropped. */
  datatype Change = Untouched | Renumbered | Rescheduled

  /** What one call of the loop works with: the counter that is expected, the size of the first window,
      whether it runs in the scheduler's transaction, and how the application server encrypts. */
  datatype Call = Call(env: Env, fCnt: int, maxPayloadSize: int, dbInTransaction: bool,
                       encrypt: (int, seq<Payload>) -> seq<Payload>)

  /** The items the application server is asked to encrypt again. */
  function Request(rows: seq<Item>): (request: seq<Payload>)
    ensures |request| == |rows|
    ensures forall i :: 0 <= i < |rows| ==>
                          request[i] == Payload(rows[i].payload, rows[i].fCnt, rows[i].fPort, rows[i].confirmed)
  {
    seq(|rows|, i requires 0 <= i < |rows| => Payload(rows[i].payload, rows[i].fCnt, rows[i].fPort, rows[i].confirmed))
  }

  /** rows is what is left of the initial queue behind its first `dropped` items, in the old order. After
      a renumbering it holds what the application server has encrypted for the new counters. */
  ghost predicate Remains(c: Call, rows: seq<Item>, initial: seq<Item>, dropped: nat, change: Change) {
    && dropped <= |initial|
    && var left := initial[dropped..];
       match change
       case Untouched => rows == left
       case Renumbered =>
         IsRenumbered(c.env, rows, left, c.fCnt) && HoldsReplies(rows, c.encrypt(c.fCnt, Request(left)))
       case Rescheduled => IsRescheduled(c.env, rows, left)
  }

  /** Every row stands for its item, with counters consecutive from fCnt and nothing in the past. */
  ghost predicate IsRenumbered(env: Env, rows: seq<Item>, before: seq<Item>, fCnt: int) {
    && |rows| == |before|
    && forall i :: 0 <= i < |rows| ==> StandsFor(rows[i], before[i]) && rows[i].fCnt == fCnt + i && Fresh(env, rows[i])
  }

  /** Every row holds the payload that the application server returned for it. */
  ghost predicate HoldsReplies(rows: seq<Item>, replies: seq<Payload>) {
    |rows| == |replies| && forall i :: 0 <= i < |rows| ==> rows[i].payload == replies[i].bytes
  }

  /** Every row carries its item's counter and contents, with nothing in the past. */
  ghost predicate IsRescheduled(env: Env, rows: seq<Item>, before: seq<Item>) {
    |rows| == |before| && forall i :: 0 <= i < |rows| ==> SameFrame(rows[i], before[i]) && Fresh(env, rows[i])
  }

  /** A Class-B device that has no ping slots, so nothing can be queued for it. */
  predicate NoSlots(env: Env) {
    InClassB(env) && env.receiver.pingNb == 0
  }

  /** The loop comes to rebuild the queue: once the droppable items are gone, the next one neither
      awaits an acknowledgement nor can be sent as it is. */
  predicate ReachesRebuild(env: Env, rows: seq<Item>, fCnt: int, maxPayloadSize: int) {
    var n := DropCount(env, rows, maxPayloadSize);
    n < |rows| && !AwaitsAck(rows[n], env.now) && NeedsRebuild(env, rows[n], fCnt)
  }

  /** Why counters must not roll over: the queue is read by smallest counter, and after a
      re-encryption that is the expected one exactly when the new numbers do not wrap. */
  lemma ExpectedStaysFirstIff(start: nat, count: nat)
    requires start < UINT32 && count <= UINT32
    ensures (forall i :: 0 <= i < count ==> start <= NewFCnt(start, i)) <==> start + count <= UINT32
  {
    if start + count > UINT32 {
      var i := UINT32 - start;
      assert NewFCnt(start, i) == 0 && 0 <= i < count;
    }
  }

  /** How the loop ends, in terms of the queue it found. An item is lost in one case only: a Class-B
      device without ping slots, in the scheduler's transaction. */
  ghost predicate LoopOutcome(c: Call, initial: seq<Item>, rows: seq<Item>, dropped: nat, change: Change,
                              next: Result<Option<(Item, bool)>, LoopError>) {
    var n := DropCount(c.env, initial, c.maxPayloadSize);
    var rebuild := ReachesRebuild(c.env, initial, c.fCnt, c.maxPayloadSize);
    // Exactly the droppable items in front are dropped, fewer only if the application server fails.
    && (if next == Err(ApplicationServerError) then dropped <= n else dropped == n)
    // Every other item is still queued, in its old order and, unless it had to be rebuilt, untouched.
    && (if next == Err(EnqueueError(NoPingSlot)) && c.dbInTransaction then rows == []
        else Remains(c, rows, initial, dropped, change))
    && (next.Ok? && rebuild <==> change != Untouched)
    && (rebuild && change != Untouched ==> !NoSlots(c.env) && (change == Renumbered <==> initial[n].fCnt != c.fCnt))
    // The item that is returned, and when there is none.
    && match next
       case Ok(None) => n == |initial| || AwaitsAck(initial[n], c.env.now)
       case Ok(Some(item)) =>
         n < |initial| && !AwaitsAck(initial[n], c.env.now) && rows != [] && item == (rows[0], |rows| > 1)
         && Usable(c.env, rows[0], c.fCnt, c.maxPayloadSize)
       case Err(e) => e == ApplicationServerError || (e == EnqueueError(NoPingSlot) && NoSlots(c.env) && rebuild)
  }

  /** What the loop keeps. After a rebuild the first row is usable, so the next round returns it. */
  ghost predicate Progress(c: Call, initial: seq<Item>, rows: seq<Item>, dropped: nat, change: Change) {
    var n := DropCount(c.env, initial, c.maxPayloadSize);
    && Remains(c, rows, initial, dropped, change)
    && dropped + DropCount(c.env, initial[dropped..], c.maxPayloadSize) == n
    && (change != Untouched ==>
          && ReachesRebuild(c.env, initial, c.fCnt, c.maxPayloadSize) && !NoSlots(c.env)
          && dropped == n && (change == Renumbered <==> initial[dropped].fCnt != c.fCnt)
          && rows != [] && Usable(c.env, rows[0], c.fCnt, c.maxPayloadSize) && !AwaitsAck(rows[0], c.env.now))
  }

  /** The first row is neither pending nor droppable, but not usable either. */
  ghost predicate CannotBeSent(env: Env, rows: seq<Item>, fCnt: int, maxPayloadSize: int) {
    && rows != [] && !AwaitsAck(rows[0], env.now) && !Usable(env, rows[0], fCnt, maxPayloadSize)
    && !HasTimedOut(rows[0], env.now) && |rows[0].payload| <= maxPayloadSize
  }

  lemma ProgressStart(c: Call, initial: seq<Item>)
    ensures Progress(c, initial, initial, 0, Untouched)
    ensures NoticesFor(c.env, initial[..0]) == []
  {
    assert initial[0..] == initial;
  }

  lemma ProgressDrop(c: Call, initial: seq<Item>, rows: seq<Item>, dropped: nat, change: Change)
    requires Progress(c, initial, rows, dropped, change)
    requires rows != [] && !AwaitsAck(rows[0], c.env.now)
    requires (HasTimedOut(rows[0], c.env.now) || |rows[0].payload| > c.maxPayloadSize)
    ensures change == Untouched && dropped < |initial|
    ensures Progress(c, initial, rows[1..], dropped + 1, change)
    ensures NoticesFor(c.env, initial[..dropped + 1]) ==
            NoticesFor(c.env, initial[..dropped]) + [NoticeFor(c.env, rows[0])]
  {
    assert initial[dropped..][1..] == initial[dropped + 1..];
    hide AwaitsAck, HasTimedOut, NoticeFor, EmitsLater;
  }

  /** What a rebuild that succeeds leaves. */
  ghost predicate IsRebuilt(c: Call, rows: seq<Item>, before: seq<Item>)
    requires before != []
  {
    if before[0].fCnt != c.fCnt
    then IsRenumbered(c.env, rows, before, c.fCnt) && HoldsReplies(rows, c.encrypt(c.fCnt, Request(before)))
    else IsRescheduled(c.env, rows, before)
  }

  /** A rebuild ends the loop: what was neither droppable nor pending is usable once it is numbered
      from the expected counter, or once it was only late and is scheduled anew. */
  lemma ProgressRebuild(c: Call, initial: seq<Item>, before: seq<Item>, dropped: nat, rows: seq<Item>)
    requires Progress(c, initial, before, dropped, Untouched)
    requires CannotBeSent(c.env, before, c.fCnt, c.maxPayloadSize) && !NoSlots(c.env)
    requires IsRebuilt(c, rows, before)
    ensures Progress(c, initial, rows, dropped, if before[0].fCnt != c.fCnt then Renumbered else Rescheduled)
    ensures |rows| == |before|
  {
    hide HoldsReplies;
    assert before[0] == initial[dropped];
  }

  lemma UnusableIsUntouched(c: Call, initial: seq<Item>, rows: seq<Item>, dropped: nat, change: Change)
    requires Progress(c, initial, rows, dropped, change)
    requires rows != [] && !Usable(c.env, rows[0], c.fCnt, c.maxPayloadSize)
    ensures change == Untouched && dropped <= |initial|
  {
  }

  lemma UsableMeans(env: Env, row: Item, fCnt: int, maxPayloadSize: int)
    ensures Usable(env, row, fCnt, maxPayloadSize) <==>
              && row.fCnt == fCnt && |row.payload| <= maxPayloadSize
              && (row.timeoutAfter.Some? ==> env.now <= row.timeoutAfter.value)
              && (row.emitAt.Some? ==> UtcToGps(env.leaps, env.now) < row.emitAt.value)
  {
  }

  /** The items that are dropped, and what the application server is told: an item whose timeout has
      passed, or that exceeds the window, unless the device may still acknowledge it. */
  lemma DroppedMeans(env: Env, rows: seq<Item>, maxPayloadSize: int, i: nat)
    requires i <= DropCount(env, rows, maxPayloadSize) && i < |rows|
    ensures var row := rows[i];
            var late := row.timeoutAfter.Some? && row.timeoutAfter.value < env.now;
            var waits := row.isPending && row.timeoutAfter.Some? && env.now < row.timeoutAfter.value;
            && (i < DropCount(env, rows, maxPayloadSize) <==> (late || |row.payload| > maxPayloadSize) && !waits)
            && NoticeFor(env, row) == if late then TimedOut(row.fCnt) else TooLarge(row.fCnt)
  {
  }

  lemma EndsWithNone(c: Call, initial: seq<Item>, rows: seq<Item>, dropped: nat, change: Change)
    requires Progress(c, initial, rows, dropped, change)
    requires rows == [] || AwaitsAck(rows[0], c.env.now)
    ensures LoopOutcome(c, initial, rows, dropped, change, Ok(None))
  {
    hide AwaitsAck, EmitsLater, HasTimedOut;
  }

  lemma EndsWithItem(c: Call, initial: seq<Item>, rows: seq<Item>, dropped: nat, change: Change)
    requires Progress(c, initial, rows, dropped, change)
    requires rows != [] && !AwaitsAck(rows[0], c.env.now) && Usable(c.env, rows[0], c.fCnt, c.maxPayloadSize)
    ensures LoopOutcome(c, initial, rows, dropped, change, Ok(Some((rows[0], |rows| > 1))))
  {
    hide AwaitsAck, EmitsLater, HasTimedOut;
    if change == Untouched {
      assert rows[0] == initial[dropped];
    }
  }

  lemma EndsUnreachable(c: Call, initial: seq<Item>, rows: seq<Item>, dropped: nat)
    requires Progress(c, initial, rows, dropped, Untouched)
    ensures LoopOutcome(c, initial, rows, dropped, Untouched, Err(ApplicationServerError))
  {
  }

  lemma EndsWithoutSlots(c: Call, initial: seq<Item>, before: seq<Item>, dropped: nat, rows: seq<Item>)
    requires Progress(c, initial, before, dropped, Untouched) && NoSlots(c.env)
    requires CannotBeSent(c.env, before, c.fCnt, c.maxPayloadSize)
    requires rows == if c.dbInTransaction then [] else before
    ensures LoopOutcome(c, initial, rows, dropped, Untouched, Err(EnqueueError(NoPingSlot)))
  {
    hide AwaitsAck, EmitsLater, HasTimedOut;
    assert before[0] == initial[dropped];
  }

  /** The item that is returned has the expected counter, fits, and can still be sent; and when the
      queue was renumbered it holds the reply of the application server for the same item. */
  lemma ReturnedMeans(c: Call, initial: seq<Item>, rows: seq<Item>, dropped: nat, change: Change,
                      item: Item, more: bool)
    requires LoopOutcome(c, initial, rows, dropped, change, Ok(Some((item, more))))
    ensures item.fCnt == c.fCnt && |item.payload| <= c.maxPayloadSize
    ensures item.timeoutAfter.Some? ==> c.env.now <= item.timeoutAfter.value
    ensures item.emitAt.Some? ==> UtcToGps(c.env.leaps, c.env.now) < item.emitAt.value
    ensures dropped < |initial| && item.fPort == initial[dropped].fPort && item.confirmed == initial[dropped].confirmed
    ensures more <==> |initial| - dropped > 1
    ensures if initial[dropped].fCnt == c.fCnt then item.payload == initial[dropped].payload
            else var replies := c.encrypt(c.fCnt, Request(initial[dropped..]));
                 replies != [] && item.payload == replies[0].bytes
  {
    UsableMeans(c.env, rows[0], c.fCnt, c.maxPayloadSize);
  }

  class Downlink {
    const queue: Queue
    const asUp: nat -> bool
    const reEncrypt: (int, seq<Payload>) -> seq<Payload>
    var asCalls: nat
    /** Every notice the server tried to deliver. */
    var notices: seq<Notice>

    constructor (queue: Queue, asUp: nat -> bool, reEncrypt: (int, seq<Payload>) -> seq<Payload>)
      ensures this.queue == queue && this.asUp == asUp && this.reEncrypt == reEncrypt && notices == []
    {
      this.queue, this.asUp, this.reEncrypt := queue, asUp, reEncrypt;
      asCalls, notices := 0, [];
    }

    method CallApplicationServer() returns (ok: bool)
      modifies this`asCalls
      ensures asCalls == old(asCalls) + 1 && ok == asUp(old(asCalls))
    {
      ok := asUp(asCalls);
      asCalls := asCalls + 1;
    }

    /** Removes the head of the queue, then tells the application server why. */
    method DropHeadAndNotify(notice: Notice) returns (ok: bool)
      requires queue.Valid() && queue.rows != []
      modifies this, queue
      ensures queue.Valid() && queue.rows == old(queue.rows[1..])
      ensures notices == old(notices) + [notice]
      ensures asCalls == old(asCalls) + 1 && ok == asUp(old(asCalls))
    {
      assert queue.rows[..0] + queue.rows[1..] == queue.rows[1..];
      var error := queue.DeleteDeviceQueueItem(queue.rows[0].id);
      assert error.None?;
      notices := notices + [notice];
      ok := CallApplicationServer();
    }

    function NewItem(reply: Payload): Item {
      Item(0, reply.bytes, reply.fCnt, reply.fPort, reply.confirmed, false, None, None, None)
    }

    function NewItems(replies: seq<Payload>): (items: seq<Item>)
      ensures |items| == |replies|
      ensures forall i :: 0 <= i < |items| ==>
                            items[i] == NewItem(replies[i])
    {
      seq(|replies|, i requires 0 <= i < |replies| =>
        NewItem(replies[i]))
    }

    /** Flushes the queue and stores the given items. A failure inside the caller's own transaction is
        undone; inside the scheduler's transaction the flush remains. */
    method Rebuild(env: Env, items: seq<Item>, dbInTransaction: bool) returns (error: Option<QueueError>)
      requires queue.Valid() && ValidEnv(env) && Sorted(items) && |items| == |queue.rows|
      requires forall i :: 0 <= i < |items| ==> items[i].fPort != 0
      modifies queue
      ensures queue.Valid()
      ensures error == if items != [] && NoSlots(env) then Some(NoPingSlot) else None
      ensures error.Some? ==> queue.rows == if dbInTransaction then [] else old(queue.rows)
      ensures error.None? ==> IsRescheduled(env, queue.rows, items)
    {
      var saved := queue.rows;
      error := queue.Requeue(env, items);
      if error.Some? && !dbInTransaction {
        queue.rows := saved;
      }
    }

    /** Has the application server encrypt the whole queue again, numbered from fCnt on. */
    method ReEncryptQueue(env: Env, fCnt: int, dbInTransaction: bool) returns (error: Option<LoopError>)
      requires queue.Valid() && ValidEnv(env) && ReEncrypts(reEncrypt) && queue.rows != []
      requires 0 <= fCnt && fCnt + |queue.rows| <= UINT32
      modifies this`asCalls, queue
      ensures queue.Valid() && asCalls == old(asCalls) + 1
      ensures error == if !asUp(old(asCalls)) then Some(ApplicationServerError)
                       else if NoSlots(env) then Some(EnqueueError(NoPingSlot)) else None
      ensures error.Some? ==> queue.rows == if dbInTransaction && error == Some(EnqueueError(NoPingSlot)) then []
                                            else old(queue.rows)
      ensures error.None? ==> IsRenumbered(env, queue.rows, old(queue.rows), fCnt)
      ensures error.None? ==> HoldsReplies(queue.rows, reEncrypt(fCnt, Request(old(queue.rows))))
    {
      var ok := CallApplicationServer();
      if !ok {
        return Some(ApplicationServerError);
      }
      var replies := reEncrypt(fCnt, Request(queue.rows));
      var items := NewItems(replies);
      forall i | 0 <= i < |items|
        ensures items[i].fCnt == fCnt + i && items[i].fPort != 0 && StandsFor(items[i], queue.rows[i])
      {
        assert ReEncrypted(NewFCnt(fCnt, i), Request(queue.rows)[i], replies[i]);
      }
      var failed := Rebuild(env, items, dbInTransaction);
      error := if failed.Some? then Some(EnqueueError(failed.value)) else None;
    }

    /** Queues every item again, so that Class-B creation picks later ping slots. */
    method Reschedule(env: Env, dbInTransaction: bool) returns (error: Option<LoopError>)
      requires queue.Valid() && ValidEnv(env) && queue.rows != []
      modifies queue
      ensures queue.Valid()
      ensures error == if NoSlots(env) then Some(EnqueueError(NoPingSlot)) else None
      ensures error.Some? ==> queue.rows == if dbInTransaction then [] else old(queue.rows)
      ensures error.None? ==> IsRescheduled(env, queue.rows, old(queue.rows))
    {
      var failed := Rebuild(env, queue.rows, dbInTransaction);
      error := if failed.Some? then Some(EnqueueError(failed.value)) else None;
    }

    /** The two ways of rebuilding: a wrong counter is looked at before an emission time in the past. */
    method RebuildQueue(c: Call) returns (error: Option<LoopError>)
      requires queue.Valid() && ValidEnv(c.env) && ReEncrypts(reEncrypt) && c.encrypt == reEncrypt && queue.rows != []
      requires 0 <= c.fCnt && c.fCnt + |queue.rows| <= UINT32
      modifies this`asCalls, queue
      ensures queue.Valid() && old(asCalls) <= asCalls
      ensures error == Some(ApplicationServerError) ==>
                queue.rows == old(queue.rows) && exists k :: old(asCalls) <= k < asCalls && !asUp(k)
      ensures error == Some(EnqueueError(NoPingSlot)) ==>
                NoSlots(c.env) && queue.rows == if c.dbInTransaction then [] else old(queue.rows)
      ensures error in {None, Some(ApplicationServerError), Some(EnqueueError(NoPingSlot))}
      ensures error.None? ==> !NoSlots(c.env) && IsRebuilt(c, queue.rows, old(queue.rows))
    {
      hide HoldsReplies, IsRenumbered, IsRescheduled, ValidEnv, ReEncrypts, Queue.Valid;
      if queue.rows[0].fCnt != c.fCnt {
        error := ReEncryptQueue(c.env, c.fCnt, c.dbInTransaction);
      } else {
        error := Reschedule(c.env, c.dbInTransaction);
      }
    }

    /** The loop. It ends in every case: each round drops an item, rebuilds the queue, or returns, and
        after a rebuild the next round returns. */
    method GetNextDeviceQueueItem(env: Env, counters: Counters, windows: seq<int>, dbInTransaction: bool)
      returns (next: Result<Option<(Item, bool)>, LoopError>, ghost dropped: nat, ghost change: Change)
      requires queue.Valid() && ValidEnv(env) && ReEncrypts(reEncrypt)
      requires 0 <= ExpectedFCnt(counters) && ExpectedFCnt(counters) + |queue.rows| <= UINT32
      modifies this, queue
      ensures queue.Valid()
      ensures next == Err(NoDownlinkFrameItems) <==> windows == []
      ensures windows == [] ==> queue.rows == old(queue.rows) && notices == old(notices)
      ensures windows != [] ==>
                LoopOutcome(Call(env, ExpectedFCnt(counters), windows[0], dbInTransaction, reEncrypt),
                            old(queue.rows), queue.rows, dropped, change, next)
      // One notice for each dropped item, in order, that names its counter and the reason.
      ensures windows != [] ==>
                dropped <= |old(queue.rows)| && notices == old(notices) + NoticesFor(env, old(queue.rows)[..dropped])
      ensures next == Err(ApplicationServerError) ==> exists k :: old(asCalls) <= k < asCalls && !asUp(k)
    {
      hide LoopOutcome, Progress, ReEncrypts, IsRebuilt, ValidEnv, Queue.Valid, AwaitsAck, HasTimedOut, EmitsLater;
      hide DropCount, NoticesFor, NoSlots, Usable, Remains, Droppable, NeedsRebuild, ReachesRebuild;
      dropped, change := 0, Untouched;
      if windows == [] {
        next := Err(NoDownlinkFrameItems);
        return;
      }
      ghost var initial := queue.rows;
      var maxPayloadSize := windows[0];
      var fCnt := ExpectedFCnt(counters);
      var c := Call(env, fCnt, maxPayloadSize, dbInTransaction, reEncrypt);
      ProgressStart(c, initial);
      while true
        invariant queue.Valid() && old(asCalls) <= asCalls
        invariant fCnt + |queue.rows| <= UINT32
        invariant Progress(c, initial, queue.rows, dropped, change)
        invariant dropped <= |initial| && notices == old(notices) + NoticesFor(env, initial[..dropped])
        decreases |queue.rows|, change == Untouched
      {
        ghost var rows := queue.rows;
        var head := queue.GetNextDeviceQueueItem(env.now);
        if head.None? {
          EndsWithNone(c, initial, rows, dropped, change);
          next := Ok(None);
          return;
        }
        var (qi, more) := head.value;
        if Usable(env, qi, fCnt, maxPayloadSize) {
          EndsWithItem(c, initial, rows, dropped, change);
          next := Ok(Some((qi, more)));
          return;
        }
        UnusableIsUntouched(c, initial, rows, dropped, change);
        var connected := CallApplicationServer();
        if !connected {
          EndsUnreachable(c, initial, rows, dropped);
          next := Err(ApplicationServerError);
          return;
        }

        if HasTimedOut(qi, env.now) || |qi.payload| > maxPayloadSize {
          ProgressDrop(c, initial, rows, dropped, change);
          var ok := DropHeadAndNotify(if HasTimedOut(qi, env.now) then TimedOut(qi.fCnt) else TooLarge(qi.fCnt));
          dropped := dropped + 1;
          if !ok {
            EndsUnreachable(c, initial, queue.rows, dropped);
            next := Err(ApplicationServerError);
            return;
          }
          continue;
        }

        var error := RebuildQueue(c);
        if error.Some? {
          if error.value == ApplicationServerError {
            EndsUnreachable(c, initial, queue.rows, dropped);
          } else {
            EndsWithoutSlots(c, initial, rows, dropped, queue.rows);
          }
          next := Err(error.value);
          return;
        }
        ProgressRebuild(c, initial, rows, dropped, queue.rows);
        change := if qi.fCnt != fCnt then Renumbered else Rescheduled;
      }
    }
  }
}
