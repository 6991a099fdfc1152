/** Notices to the application server when several processes work on one device queue: the uplink
    handler that sees the device's acknowledgement (internal/uplink/data/data.go), the loop that drops
    items and rebuilds the queue (internal/downlink/data/data.go), gateway acknowledgements
    (internal/downlink/ack/ack.go) and flushes (internal/storage/device_queue.go).

    Every statement on the queue table is one atomic step; steps of different processes interleave.
    A process first loads the session and acts on those counters, current or not. A rebuild finds the
    first row unsendable, reads the queue and later replaces it; no step locks the rows.
 */
module DownlinkNotifications {
  import opened Options
  import opened Common
  import opened DeviceQueue
  import opened NextQueueItem
  import opened DownlinkAck

  /** A row of the queue table and the message it holds. Rebuilding gives a message a new row. */
  datatype Row = Row(item: Item, message: int)

  datatype Reason = ByDevice | ByTimeout | BySize

  datatype Notice = Notice(row: Row, reason: Reason)

  /** What stays the same when a message gets a new row. */
  datatype Shape = Shape(confirmed: bool, size: nat)

  /** What a process is about to do. Due has found the queue to need new counters, from start on, or new
      times. The messages in `deleted` were deleted since the queue was read. */
  datatype Phase =
    | Loaded(counters: Counters)
    | Transmitting(row: Row)
    | Holds(notice: Notice)
    | Deleted(notice: Notice)
    | Due(start: Option<int>)
    | Rebuilding(start: Option<int>, read: seq<Row>, deleted: set<int>)
    | Finished

  /** rows is the table in the order of counters. The messages in `resurrected` were put back by a
      rebuild although they had been deleted since it read the queue. */
  datatype State = State(env: Env, counters: Counters, rows: seq<Row>, nextId: nat, messages: map<int, Shape>,
                         procs: map<int, Phase>, notices: seq<Notice>, resurrected: set<int>)

  datatype Event =
    | Tick(d: nat)
    | Enqueue(message: int, item: Item, at: nat)
    | MacOnlySent
    | Begin(p: int)
    | Transmit(p: int, maxPayloadSize: int)
    | GatewayAck(p: int, timeout: nat)
    | SelectAck(p: int)
    | SelectTimeout(p: int)
    | SelectTooLarge(p: int, maxPayloadSize: int)
    | Delete(p: int)
    | Notify(p: int)
    | Inspect(p: int, maxPayloadSize: int)
    | ReadQueue(p: int)
    | ReplaceQueue(p: int, items: seq<Item>)
    | Flush

  function Initial(env: Env, counters: Counters): State {
    State(env, counters, [], 0, map[], map[], [], {})
  }

  function ShapeOf(item: Item): Shape {
    Shape(item.confirmed, |item.payload|)
  }

  /** The items of a Class-B device have both times when they are queued, others none. */
  predicate TimedAsQueued(env: Env, item: Item) {
    && Fresh(env, item)
    && (if InClassB(env) then item.emitAt.Some? && item.timeoutAfter.Some?
        else item.emitAt.None? && item.timeoutAfter.None?)
  }

  function Items(rows: seq<Row>): (items: seq<Item>)
    ensures |items| == |rows| && forall i :: 0 <= i < |rows| ==> items[i] == rows[i].item
  {
    seq(|rows|, i requires 0 <= i < |rows| => rows[i].item)
  }

  function Messages(rows: seq<Row>): set<int> {
    set i | 0 <= i < |rows| :: rows[i].message
  }

  function NewRows(items: seq<Item>, read: seq<Row>, nextId: nat): (rows: seq<Row>)
    requires |items| == |read|
    ensures |rows| == |items|
    ensures forall i :: 0 <= i < |rows| ==> rows[i] == Row(items[i].(id := nextId + i), read[i].message)
  {
    seq(|items|, i requires 0 <= i < |items| => Row(items[i].(id := nextId + i), read[i].message))
  }

  /** The position of the row with an id. */
  function Find(rows: seq<Row>, id: nat): (i: Option<nat>)
    ensures i.Some? ==> i.value < |rows| && rows[i.value].item.id == id
    ensures i.None? ==> forall k :: 0 <= k < |rows| ==> rows[k].item.id != id
  {
    if rows == [] then None
    else if rows[0].item.id == id then Some(0)
    else var rest := Find(rows[1..], id); if rest.None? then None else Some(1 + rest.value)
  }

  function Without(rows: seq<Row>, i: nat): seq<Row>
    requires i < |rows|
  {
    rows[..i] + rows[i + 1..]
  }

  function Noted(ph: Phase, message: int): Phase {
    if ph.Rebuilding? then ph.(deleted := ph.deleted + {message}) else ph
  }

  /** The items that a rebuild stores for the rows it has read. */
  ghost predicate Replaces(env: Env, items: seq<Item>, read: seq<Row>, start: Option<int>) {
    && (if start.Some? then IsRenumbered(env, items, Items(read), start.value)
        else IsRescheduled(env, items, Items(read)))
    && forall i :: 0 <= i < |items| ==> TimedAsQueued(env, items[i])
  }

  predicate IsLoaded(s: State, p: int) {
    p in s.procs && s.procs[p].Loaded?
  }

  function SetPhase(s: State, p: int, ph: Phase): State {
    s.(procs := s.procs[p := ph])
  }

  /** A process with a loaded session may act on the first row. */
  predicate SeesHead(s: State, p: int) {
    IsLoaded(s, p) && s.rows != [] && !AwaitsAck(s.rows[0].item, s.env.now)
  }

  ghost function Step(s: State, e: Event): Option<State> {
    match e
    case Tick(d) => Some(s.(env := s.env.(now := s.env.now + d)))
    case Enqueue(m, item, at) =>
      if m in s.messages || at > |s.rows| || !TimedAsQueued(s.env, item)
         || (exists i :: 0 <= i < at && item.fCnt < s.rows[i].item.fCnt)
         || (exists i :: at <= i < |s.rows| && s.rows[i].item.fCnt <= item.fCnt) then None
      else Some(s.(rows := s.rows[..at] + [Row(item.(id := s.nextId), m)] + s.rows[at..],
                   nextId := s.nextId + 1, messages := s.messages[m := ShapeOf(item)]))
    case MacOnlySent => Some(s.(counters := Advance(s.counters, false)))
    case Begin(p) =>
      if p in s.procs && !s.procs[p].Finished? then None else Some(SetPhase(s, p, Loaded(s.counters)))
    case Transmit(p, max) =>
      if 0 <= max && SeesHead(s, p) && Usable(s.env, s.rows[0].item, ExpectedFCnt(s.procs[p].counters), max)
      then Some(SetPhase(s, p, Transmitting(s.rows[0]))) else None
    case GatewayAck(p, timeout) =>
      if p in s.procs && s.procs[p].Transmitting? then Some(AfterGatewayAck(s, p, timeout)) else None
    case SelectAck(p) =>
      if IsLoaded(s, p) && s.rows != [] && CompletesHead(true, [s.rows[0].item], s.procs[p].counters)
      then Some(SetPhase(s, p, Holds(Notice(s.rows[0], ByDevice)))) else None
    case SelectTimeout(p) =>
      if SeesHead(s, p) && HasTimedOut(s.rows[0].item, s.env.now)
      then Some(SetPhase(s, p, Holds(Notice(s.rows[0], ByTimeout)))) else None
    case SelectTooLarge(p, max) =>
      if SeesHead(s, p) && !HasTimedOut(s.rows[0].item, s.env.now) && 0 <= max < |s.rows[0].item.payload|
      then Some(SetPhase(s, p, Holds(Notice(s.rows[0], BySize)))) else None
    case Delete(p) => if p in s.procs && s.procs[p].Holds? then Some(AfterDelete(s, p)) else None
    case Notify(p) =>
      if p in s.procs && s.procs[p].Deleted?
      then Some(SetPhase(s, p, Finished).(notices := s.notices + [s.procs[p].notice])) else None
    case Inspect(p, max) =>
      if 0 <= max && IsLoaded(s, p) && s.rows != []
         && CannotBeSent(s.env, [s.rows[0].item], ExpectedFCnt(s.procs[p].counters), max)
      then Some(SetPhase(s, p, Due(if s.rows[0].item.fCnt != ExpectedFCnt(s.procs[p].counters)
                                   then Some(ExpectedFCnt(s.procs[p].counters)) else None))) else None
    case ReadQueue(p) =>
      if p in s.procs && s.procs[p].Due? then Some(SetPhase(s, p, Rebuilding(s.procs[p].start, s.rows, {}))) else None
    case ReplaceQueue(p, items) =>
      if p in s.procs && s.procs[p].Rebuilding? && Replaces(s.env, items, s.procs[p].read, s.procs[p].start)
      then Some(AfterReplace(s, p, items)) else None
    case Flush => Some(s.(rows := []))
  }

  /** A confirmed item waits for the device, an unconfirmed one is done; if it is gone nothing moves. */
  function AfterGatewayAck(s: State, p: int, timeout: nat): State
    requires p in s.procs && s.procs[p].Transmitting?
  {
    var at := Find(s.rows, s.procs[p].row.item.id);
    var t := SetPhase(s, p, Finished);
    if at.None? then t
    else if s.rows[at.value].item.confirmed then
      var item := s.rows[at.value].item;
      var until := if item.timeoutAfter.Some? then item.timeoutAfter else Some(s.env.now + timeout);
      var waiting := item.(isPending := true, timeoutAfter := until);
      t.(rows := s.rows[at.value := s.rows[at.value].(item := waiting)], counters := Advance(s.counters, true))
    else t.(rows := Without(s.rows, at.value), counters := Advance(s.counters, true))
  }

  /** Deletion by id. It decides who notifies: without a row to delete the process stops. */
  function AfterDelete(s: State, p: int): State
    requires p in s.procs && s.procs[p].Holds?
  {
    var at := Find(s.rows, s.procs[p].notice.row.item.id);
    if at.None? then SetPhase(s, p, Finished)
    else
      var row := s.rows[at.value];
      s.(rows := Without(s.rows, at.value),
         procs := map q | q in s.procs ::
                    if q == p then Deleted(Notice(row, s.procs[p].notice.reason)) else Noted(s.procs[q], row.message))
  }

  function AfterReplace(s: State, p: int, items: seq<Item>): State
    requires p in s.procs && s.procs[p].Rebuilding? && |items| == |s.procs[p].read|
  {
    var ph := s.procs[p];
    SetPhase(s, p, Finished).(rows := NewRows(items, ph.read, s.nextId), nextId := s.nextId + |items|,
                              resurrected := s.resurrected + (ph.deleted * Messages(ph.read)))
  }

  ghost function Run(s: State, es: seq<Event>): Option<State>
    decreases |es|
  {
    if es == [] then Some(s)
    else if Step(s, es[0]).None? then None else Run(Step(s, es[0]).value, es[1..])
  }

  // At most one notice

  /** The rows share an id, or, for messages, a message that was not resurrected. */
  predicate Clash(a: Row, b: Row, byMessage: bool, resurrected: set<int>) {
    if byMessage then a.message == b.message && a.message !in resurrected else a.item.id == b.item.id
  }

  predicate IsDeleted(s: State, p: int) {
    p in s.procs && s.procs[p].Deleted?
  }

  /** No two of the queue, the deletions not yet notified, and the notices clash. */
  ghost predicate Once(s: State, byMessage: bool) {
    && (forall i, j :: 0 <= i < j < |s.rows| ==> !Clash(s.rows[i], s.rows[j], byMessage, s.resurrected))
    && (forall i, j :: 0 <= i < j < |s.notices| ==>
             !Clash(s.notices[i].row, s.notices[j].row, byMessage, s.resurrected))
    && (forall p, q :: IsDeleted(s, p) && IsDeleted(s, q) && p != q ==>
                         !Clash(s.procs[p].notice.row, s.procs[q].notice.row, byMessage, s.resurrected))
    && (forall i, j :: 0 <= i < |s.rows| && 0 <= j < |s.notices| ==>
             !Clash(s.rows[i], s.notices[j].row, byMessage, s.resurrected))
    && (forall p, i :: IsDeleted(s, p) && 0 <= i < |s.rows| ==>
             !Clash(s.procs[p].notice.row, s.rows[i], byMessage, s.resurrected))
    && (forall p, i :: IsDeleted(s, p) && 0 <= i < |s.notices| ==>
             !Clash(s.procs[p].notice.row, s.notices[i].row, byMessage, s.resurrected))
  }

  predicate IsRebuilding(s: State, p: int) {
    p in s.procs && s.procs[p].Rebuilding?
  }

  /** What a rebuild has read, apart from resurrected messages: no message twice, and none that was
      deleted for a notice, unless it was deleted since. */
  ghost predicate ReadsOnce(s: State) {
    && (forall p, i, j :: IsRebuilding(s, p) && 0 <= i < j < |s.procs[p].read| ==>
                            !Clash(s.procs[p].read[i], s.procs[p].read[j], true, s.resurrected))
    && (forall p, i, k :: IsRebuilding(s, p) && 0 <= i < |s.procs[p].read| && 0 <= k < |s.notices| ==>
                            || !Clash(s.procs[p].read[i], s.notices[k].row, true, s.resurrected)
                            || s.procs[p].read[i].message in s.procs[p].deleted)
    && (forall p, i, q :: IsRebuilding(s, p) && 0 <= i < |s.procs[p].read| && IsDeleted(s, q) ==>
                            || !Clash(s.procs[p].read[i], s.procs[q].notice.row, true, s.resurrected)
                            || s.procs[p].read[i].message in s.procs[p].deleted)
  }

  ghost predicate IsKnown(s: State, row: Row) {
    row.item.id < s.nextId && row.message in s.messages
  }

  /** Ids are handed out in order, and only messages that were enqueued are around. */
  ghost predicate Known(s: State) {
    && (forall i :: 0 <= i < |s.rows| ==> IsKnown(s, s.rows[i]))
    && (forall i :: 0 <= i < |s.notices| ==> IsKnown(s, s.notices[i].row))
    && (forall p :: IsDeleted(s, p) ==> IsKnown(s, s.procs[p].notice.row))
    && (forall p, i :: IsRebuilding(s, p) && 0 <= i < |s.procs[p].read| ==> s.procs[p].read[i].message in s.messages)
  }

  /** rows' are the rows with the one at position gap, if there is one, left out; items may have changed,
      but not their ids. */
  ghost predicate Thinned(rows': seq<Row>, rows: seq<Row>, gap: nat) {
    && |rows'| == (if gap < |rows| then |rows| - 1 else |rows|)
    && forall k :: 0 <= k < |rows'| ==> var row := rows[if k < gap then k else k + 1];
                                        rows'[k].item.id == row.item.id && rows'[k].message == row.message
  }

  lemma ThinnedOnce(s: State, t: State, gap: nat, byMessage: bool)
    requires Once(s, byMessage) && Thinned(t.rows, s.rows, gap) && t.notices == s.notices
    requires t.resurrected == s.resurrected
    requires forall p :: IsDeleted(t, p) ==> IsDeleted(s, p) && t.procs[p] == s.procs[p]
    ensures Once(t, byMessage)
  {
  }

  lemma ThinnedKnown(s: State, t: State, gap: nat)
    requires Known(s) && Thinned(t.rows, s.rows, gap) && t.notices == s.notices && t.nextId == s.nextId
    requires t.messages == s.messages
    requires forall p :: IsDeleted(t, p) ==> IsDeleted(s, p) && t.procs[p] == s.procs[p]
    requires forall p :: IsRebuilding(t, p) ==> IsRebuilding(s, p) && t.procs[p].read == s.procs[p].read
    ensures Known(t)
  {
  }

  /** Steps that neither add a row nor delete or notify one; the gateway's acknowledgement may take one out. */
  predicate IsQuiet(e: Event) {
    || e.Tick? || e.MacOnlySent? || e.Begin? || e.Transmit? || e.GatewayAck?
    || e.SelectAck? || e.SelectTimeout? || e.SelectTooLarge? || e.Inspect?
  }

  ghost predicate Quiet(s: State, t: State, gap: nat) {
    && Thinned(t.rows, s.rows, gap) && t.notices == s.notices && t.resurrected == s.resurrected
    && t.nextId == s.nextId && t.messages == s.messages
    && (forall p :: IsDeleted(t, p) ==> IsDeleted(s, p) && t.procs[p] == s.procs[p])
    && (forall p :: IsRebuilding(t, p) ==> IsRebuilding(s, p) && t.procs[p] == s.procs[p])
  }

  lemma QuietStep(s: State, e: Event) returns (gap: nat)
    requires IsQuiet(e) && Step(s, e).Some?
    ensures Quiet(s, Step(s, e).value, gap)
  {
    hide Find, Usable, CannotBeSent, HasTimedOut, AwaitsAck, CompletesHead, Advance, ExpectedFCnt;
    gap := |s.rows|;
    if e.GatewayAck? {
      var at := Find(s.rows, s.procs[e.p].row.item.id);
      if at.Some? && !s.rows[at.value].item.confirmed {
        gap := at.value;
      }
    }
  }

  /** Known facts and notices so far, of rows and messages. */
  ghost predicate Sound(s: State) {
    Known(s) && ReadsOnce(s) && Once(s, false) && Once(s, true)
  }

  /** What a successful deletion does. */
  ghost predicate Deletes(s: State, t: State, p: int, at: nat)
    requires at < |s.rows|
  {
    && Thinned(t.rows, s.rows, at) && t.notices == s.notices && t.resurrected == s.resurrected
    && t.nextId == s.nextId && t.messages == s.messages
    && IsDeleted(t, p) && t.procs[p].notice.row == s.rows[at]
    && (forall q :: IsDeleted(t, q) && q != p ==> IsDeleted(s, q) && t.procs[q] == s.procs[q])
    && (forall q :: IsRebuilding(t, q) ==> IsRebuilding(s, q) && t.procs[q] == Noted(s.procs[q], s.rows[at].message))
  }

  lemma DeleteIs(s: State, p: int)
    requires Step(s, Delete(p)).Some? && Find(s.rows, s.procs[p].notice.row.item.id).Some?
    ensures Deletes(s, Step(s, Delete(p)).value, p, Find(s.rows, s.procs[p].notice.row.item.id).value)
  {
    hide Find;
  }

  lemma DeleteStep(s: State, p: int)
    requires Step(s, Delete(p)).Some? && Sound(s)
    ensures Sound(Step(s, Delete(p)).value)
  {
    var t := Step(s, Delete(p)).value;
    var at := Find(s.rows, s.procs[p].notice.row.item.id);
    if at.Some? {
      DeleteIs(s, p);
      hide Step;
      DeleteKnown(s, t, p, at.value);
      DeleteOnce(s, t, p, at.value, false);
      DeleteOnce(s, t, p, at.value, true);
      DeleteReads(s, t, p, at.value);
    } else {
      assert Quiet(s, t, |s.rows|);
      hide Step;
      QuietSound(s, t, |s.rows|);
    }
  }

  lemma DeleteKnown(s: State, t: State, p: int, at: nat)
    requires Known(s) && at < |s.rows| && Deletes(s, t, p, at)
    ensures Known(t)
  {
  }

  lemma DeleteOnce(s: State, t: State, p: int, at: nat, byMessage: bool)
    requires Once(s, byMessage) && at < |s.rows| && p in s.procs && s.procs[p].Holds? && Deletes(s, t, p, at)
    ensures Once(t, byMessage)
  {
  }

  lemma DeleteReads(s: State, t: State, p: int, at: nat)
    requires ReadsOnce(s) && at < |s.rows| && Deletes(s, t, p, at)
    ensures ReadsOnce(t)
  {
  }

  lemma KnownUnchanged(s: State, t: State)
    requires s.nextId == t.nextId && s.messages == t.messages
    ensures forall row :: IsKnown(t, row) <==> IsKnown(s, row)
  {
  }

  lemma NotifyStep(s: State, p: int)
    requires Step(s, Notify(p)).Some? && Sound(s)
    ensures Sound(Step(s, Notify(p)).value)
  {
    var t := Step(s, Notify(p)).value;
    assert IsDeleted(s, p) && t == SetPhase(s, p, Finished).(notices := s.notices + [s.procs[p].notice]);
    hide Step;
    NotifyOnce(s, t, p, false);
    NotifyOnce(s, t, p, true);
    NotifyReads(s, t, p);
    NotifyKnown(s, t, p);
  }

  lemma NotifyReads(s: State, t: State, p: int)
    requires ReadsOnce(s) && IsDeleted(s, p)
    requires t == SetPhase(s, p, Finished).(notices := s.notices + [s.procs[p].notice])
    ensures ReadsOnce(t)
  {
    hide Clash;
  }

  lemma NotifyKnown(s: State, t: State, p: int)
    requires Known(s) && IsDeleted(s, p) && t == SetPhase(s, p, Finished).(notices := s.notices + [s.procs[p].notice])
    ensures Known(t)
  {
    KnownUnchanged(s, t);
    hide IsKnown;
  }

  lemma NotifyOnce(s: State, t: State, p: int, byMessage: bool)
    requires Once(s, byMessage) && IsDeleted(s, p)
    requires t == SetPhase(s, p, Finished).(notices := s.notices + [s.procs[p].notice])
    ensures Once(t, byMessage)
  {
    assert forall a, b :: Clash(a, b, byMessage, s.resurrected) <==> Clash(b, a, byMessage, s.resurrected);
    hide Clash;
  }

  lemma QuietSound(s: State, t: State, gap: nat)
    requires Quiet(s, t, gap) && Sound(s)
    ensures Sound(t)
  {
    ThinnedOnce(s, t, gap, false);
    ThinnedOnce(s, t, gap, true);
    ThinnedKnown(s, t, gap);
    hide Clash, IsKnown, Thinned;
  }

  lemma FlushSound(s: State, t: State)
    requires Sound(s) && t == s.(rows := [])
    ensures Sound(t)
  {
    hide Clash;
    FlushOnce(s, t, false);
    FlushOnce(s, t, true);
    hide Once;
    KnownUnchanged(s, t);
    hide IsKnown;
  }

  lemma FlushOnce(s: State, t: State, byMessage: bool)
    requires Once(s, byMessage) && t == s.(rows := [])
    ensures Once(t, byMessage)
  {
    hide Clash;
  }

  /** A row with a new id and a new message clashes with nothing. */
  lemma EnqueueSound(s: State, m: int, item: Item, at: nat)
    requires Step(s, Enqueue(m, item, at)).Some? && Sound(s)
    ensures Sound(Step(s, Enqueue(m, item, at)).value)
  {
    var t := Step(s, Enqueue(m, item, at)).value;
    var row := Row(item.(id := s.nextId), m);
    assert Inserted(t.rows, s.rows, at, row);
    assert t.notices == s.notices && t.resurrected == s.resurrected && t.procs == s.procs;
    assert t.nextId == s.nextId + 1 && t.messages.Keys == s.messages.Keys + {m} && m !in s.messages;
    hide Step;
    InsertedOnce(s, t, at, row, false);
    InsertedOnce(s, t, at, row, true);
    InsertedKnown(s, t, at, row);
    hide Clash;
  }

  ghost predicate Inserted(rows': seq<Row>, rows: seq<Row>, at: nat, row: Row) {
    && at <= |rows| && |rows'| == |rows| + 1 && rows'[at] == row
    && (forall k :: 0 <= k < at ==> rows'[k] == rows[k])
    && (forall k :: at < k < |rows'| ==> rows'[k] == rows[k - 1])
  }

  lemma InsertedOnce(s: State, t: State, at: nat, row: Row, byMessage: bool)
    requires Once(s, byMessage) && Known(s) && Inserted(t.rows, s.rows, at, row)
    requires row.item.id == s.nextId && row.message !in s.messages
    requires t.notices == s.notices && t.resurrected == s.resurrected && t.procs == s.procs
    ensures Once(t, byMessage)
  {
    assert forall other :: IsKnown(s, other) ==> !Clash(row, other, byMessage, s.resurrected);
    assert forall other :: IsKnown(s, other) ==> !Clash(other, row, byMessage, s.resurrected);
    hide Clash, IsKnown;
    forall i, j | 0 <= i < j < |t.rows| ensures !Clash(t.rows[i], t.rows[j], byMessage, s.resurrected) {
      assert i < at ==> IsKnown(s, s.rows[i]);
      assert j > at ==> IsKnown(s, s.rows[j - 1]);
    }
    assert forall k :: 0 <= k < |t.rows| ==>
                         || t.rows[k] == row
                         || (k < at && t.rows[k] == s.rows[k]) || (k > at && t.rows[k] == s.rows[k - 1]);
  }

  lemma InsertedKnown(s: State, t: State, at: nat, row: Row)
    requires Known(s) && Inserted(t.rows, s.rows, at, row) && row.item.id == s.nextId
    requires t.notices == s.notices && t.procs == s.procs && t.nextId == s.nextId + 1
    requires t.messages.Keys == s.messages.Keys + {row.message}
    ensures Known(t)
  {
    assert forall other :: IsKnown(s, other) ==> IsKnown(t, other);
    assert IsKnown(t, row);
    forall k | 0 <= k < |t.rows| ensures IsKnown(t, t.rows[k]) {
      assert k < at ==> IsKnown(s, s.rows[k]);
      assert k > at ==> IsKnown(s, s.rows[k - 1]);
    }
    hide IsKnown;
  }

  lemma ReadQueueSound(s: State, p: int)
    requires Step(s, ReadQueue(p)).Some? && Sound(s)
    ensures Sound(Step(s, ReadQueue(p)).value)
  {
    var t := Step(s, ReadQueue(p)).value;
    assert t == SetPhase(s, p, Rebuilding(s.procs[p].start, s.rows, {})) && !IsDeleted(s, p);
    hide Step;
    ReadQueueOnce(s, t, p, false);
    ReadQueueOnce(s, t, p, true);
    ReadQueueReads(s, t, p);
    ReadQueueKnown(s, t, p);
  }

  lemma ReadQueueOnce(s: State, t: State, p: int, byMessage: bool)
    requires Once(s, byMessage) && !IsDeleted(s, p)
    requires exists start :: t == SetPhase(s, p, Rebuilding(start, s.rows, {}))
    ensures Once(t, byMessage)
  {
    hide Clash;
  }

  lemma ReadQueueReads(s: State, t: State, p: int)
    requires ReadsOnce(s) && Once(s, true) && !IsDeleted(s, p)
    requires exists start :: t == SetPhase(s, p, Rebuilding(start, s.rows, {}))
    ensures ReadsOnce(t)
  {
    assert forall a, b :: Clash(a, b, true, s.resurrected) <==> Clash(b, a, true, s.resurrected);
    hide Clash;
  }

  lemma ReadQueueKnown(s: State, t: State, p: int)
    requires Known(s) && exists start :: t == SetPhase(s, p, Rebuilding(start, s.rows, {}))
    ensures Known(t)
  {
    assert forall i :: 0 <= i < |s.rows| ==> IsKnown(s, s.rows[i]) && s.rows[i].message in s.messages;
    KnownUnchanged(s, t);
    hide IsKnown;
  }

  lemma ReplaceSound(s: State, p: int, items: seq<Item>)
    requires Step(s, ReplaceQueue(p, items)).Some? && Sound(s)
    ensures Sound(Step(s, ReplaceQueue(p, items)).value)
  {
    var t := Step(s, ReplaceQueue(p, items)).value;
    ReplacedIs(s, p, items);
    hide Step;
    ReplacedKnown(s, t, p);
    ReplacedOnceById(s, t, p);
    ReplacedOnceByMessage(s, t, p);
    ReplacedReads(s, t, p);
  }

  /** What a rebuild does. */
  ghost predicate Replaced(s: State, t: State, p: int)
    requires IsRebuilding(s, p)
  {
    var ph := s.procs[p];
    && |t.rows| == |ph.read| && t.notices == s.notices && t.messages == s.messages && t.nextId == s.nextId + |ph.read|
    && (forall k :: 0 <= k < |t.rows| ==> t.rows[k].item.id == s.nextId + k && t.rows[k].message == ph.read[k].message)
    && s.resurrected <= t.resurrected
    && (forall k :: 0 <= k < |ph.read| && ph.read[k].message in ph.deleted ==> ph.read[k].message in t.resurrected)
    && (forall q :: IsDeleted(t, q) ==> IsDeleted(s, q) && t.procs[q] == s.procs[q])
    && (forall q :: IsRebuilding(t, q) ==> IsRebuilding(s, q) && t.procs[q] == s.procs[q])
  }

  lemma ReplacedIs(s: State, p: int, items: seq<Item>)
    requires Step(s, ReplaceQueue(p, items)).Some?
    ensures IsRebuilding(s, p) && Replaced(s, Step(s, ReplaceQueue(p, items)).value, p)
  {
    hide IsRenumbered, IsRescheduled, TimedAsQueued;
    var read := s.procs[p].read;
    assert |items| == |read| by { ReplacesSize(s.env, items, read, s.procs[p].start); }
    assert forall k :: 0 <= k < |read| ==> read[k].message in Messages(read);
  }

  lemma ReplacesSize(env: Env, items: seq<Item>, read: seq<Row>, start: Option<int>)
    requires Replaces(env, items, read, start)
    ensures |items| == |read|
  {
  }

  lemma ReplacedKnown(s: State, t: State, p: int)
    requires Known(s) && IsRebuilding(s, p) && Replaced(s, t, p)
    ensures Known(t)
  {
  }

  lemma ReplacedOnceById(s: State, t: State, p: int)
    requires Known(s) && Once(s, false) && IsRebuilding(s, p) && Replaced(s, t, p)
    ensures Once(t, false)
  {
  }

  lemma ReplacedOnceByMessage(s: State, t: State, p: int)
    requires ReadsOnce(s) && Once(s, true) && IsRebuilding(s, p) && Replaced(s, t, p)
    ensures Once(t, true)
  {
  }

  lemma ReplacedReads(s: State, t: State, p: int)
    requires ReadsOnce(s) && IsRebuilding(s, p) && Replaced(s, t, p)
    ensures ReadsOnce(t)
  {
  }

  lemma SoundStep(s: State, e: Event)
    requires Sound(s) && Step(s, e).Some?
    ensures Sound(Step(s, e).value)
  {
    match e {
      case Enqueue(m, item, at) => EnqueueSound(s, m, item, at);
      case Delete(p) => DeleteStep(s, p);
      case Notify(p) => NotifyStep(s, p);
      case ReadQueue(p) => ReadQueueSound(s, p);
      case ReplaceQueue(p, items) => ReplaceSound(s, p, items);
      case Flush => FlushSound(s, s.(rows := []));
      case _ =>
        var gap := QuietStep(s, e);
        hide Step, Sound;
        QuietSound(s, Step(s, e).value, gap);
    }
  }

  lemma {:induction false} SoundRun(s: State, es: seq<Event>)
    requires Sound(s) && Run(s, es).Some?
    ensures Sound(Run(s, es).value)
    decreases |es|
  {
    hide Sound, Step;
    if es != [] {
      SoundStep(s, es[0]);
      SoundRun(Step(s, es[0]).value, es[1..]);
    }
  }

  /** Under every interleaving a queue row causes at most one notice, so never both an
      acknowledgement and a timeout. */
  lemma RowNotifiedOnce(env: Env, counters: Counters, es: seq<Event>, i: nat, j: nat)
    requires Run(Initial(env, counters), es).Some? && i < j < |Run(Initial(env, counters), es).value.notices|
    ensures var notices := Run(Initial(env, counters), es).value.notices;
            notices[i].row.item.id != notices[j].row.item.id
  {
    SoundRun(Initial(env, counters), es);
  }

  /** A message is notified twice only if a rebuild put it back that had read it before it was deleted. */
  lemma NotifiedTwiceOnlyIf(env: Env, counters: Counters, es: seq<Event>, i: nat, j: nat)
    requires Run(Initial(env, counters), es).Some? && i < j < |Run(Initial(env, counters), es).value.notices|
    ensures var s := Run(Initial(env, counters), es).value;
            s.notices[i].row.message == s.notices[j].row.message ==> s.notices[i].row.message in s.resurrected
  {
    SoundRun(Initial(env, counters), es);
    var s := Run(Initial(env, counters), es).value;
    assert !Clash(s.notices[i].row, s.notices[j].row, true, s.resurrected);
  }

  // What it means, in terms of the run, that a message was resurrected

  lemma {:induction false} RunSnoc(s: State, es: seq<Event>, e: Event)
    requires Run(s, es).Some?
    ensures Run(s, es + [e]) == Step(Run(s, es).value, e)
    decreases |es|
  {
    hide Step;
    if es == [] {
      assert es + [e] == [e];
    } else {
      assert (es + [e])[1..] == es[1..] + [e];
      RunSnoc(Step(s, es[0]).value, es[1..], e);
    }
  }

  lemma {:induction false} RunPrefix(s: State, es: seq<Event>, n: nat)
    requires Run(s, es).Some? && n <= |es|
    ensures Run(s, es[..n]).Some?
    decreases |es|
  {
    hide Step;
    if 0 < n {
      assert es[..n][1..] == es[1..][..n - 1];
      RunPrefix(Step(s, es[0]).value, es[1..], n - 1);
    }
  }

  /** Step a is the ReadQueue of process p, finding these rows. */
  ghost predicate ReadsAt(start: State, es: seq<Event>, a: nat, p: int, read: seq<Row>) {
    a < |es| && es[a] == ReadQueue(p) && Run(start, es[..a]).Some? && Run(start, es[..a]).value.rows == read
  }

  ghost predicate Removes(s: State, e: Event, message: int) {
    && e.Delete? && e.p in s.procs && s.procs[e.p].Holds?
    && var at := Find(s.rows, s.procs[e.p].notice.row.item.id); at.Some? && s.rows[at.value].message == message
  }

  /** Step d deletes the row of the message. */
  ghost predicate DeletesAt(start: State, es: seq<Event>, d: nat, message: int) {
    d < |es| && Run(start, es[..d]).Some? && Removes(Run(start, es[..d]).value, es[d], message)
  }

  predicate IsReplaceBy(e: Event, p: int) {
    e.ReplaceQueue? && e.p == p
  }

  /** Process p has read the rows at step a and not replaced the queue since; the messages were deleted since. */
  ghost predicate ReadSince(start: State, es: seq<Event>, a: nat, p: int, read: seq<Row>, deleted: set<int>) {
    && ReadsAt(start, es, a, p, read)
    && (forall k :: a < k < |es| ==> !IsReplaceBy(es[k], p))
    && (forall m :: m in deleted ==> exists d: nat :: a < d && DeletesAt(start, es, d, m))
  }

  ghost predicate DeletedBetween(start: State, es: seq<Event>, a: nat, d: nat, r: nat, p: int, m: int) {
    && a < d < r < |es| && IsReplaceBy(es[r], p) && (forall k :: a < k < r ==> !IsReplaceBy(es[k], p))
    && DeletesAt(start, es, d, m) && exists read :: ReadsAt(start, es, a, p, read) && m in Messages(read)
  }

  lemma PrefixKeeps(start: State, es: seq<Event>, e: Event)
    ensures forall a: nat, p, read :: ReadsAt(start, es, a, p, read) ==> ReadsAt(start, es + [e], a, p, read)
    ensures forall d: nat, m :: DeletesAt(start, es, d, m) ==> DeletesAt(start, es + [e], d, m)
  {
    assert forall n :: 0 <= n <= |es| ==> (es + [e])[..n] == es[..n];
    hide Run, Removes;
  }

  lemma ReadSinceKeeps(start: State, es: seq<Event>, e: Event, a: nat, p: int, read: seq<Row>, deleted: set<int>)
    requires ReadSince(start, es, a, p, read, deleted) && !IsReplaceBy(e, p)
    ensures ReadSince(start, es + [e], a, p, read, deleted)
  {
    PrefixKeeps(start, es, e);
    hide ReadsAt, DeletesAt;
    forall m | m in deleted ensures exists d: nat :: a < d && DeletesAt(start, es + [e], d, m) {
      var d: nat :| a < d && DeletesAt(start, es, d, m);
      assert DeletesAt(start, es + [e], d, m);
    }
  }

  /** How a step changes what a rebuild has noted. */
  lemma RebuildingBefore(s: State, e: Event, p: int)
    requires Step(s, e).Some? && IsRebuilding(Step(s, e).value, p)
    ensures var ph := Step(s, e).value.procs[p];
            || (e == ReadQueue(p) && ph.read == s.rows && ph.deleted == {})
            || (IsRebuilding(s, p) && ph.read == s.procs[p].read && !IsReplaceBy(e, p)
                && forall m :: m in ph.deleted ==> m in s.procs[p].deleted || Removes(s, e, m))
  {
    hide Find, Usable, CannotBeSent, HasTimedOut, AwaitsAck, CompletesHead, Advance, ExpectedFCnt, Replaces;
    hide TimedAsQueued;
  }

  lemma ReadSinceStep(start: State, es: seq<Event>, e: Event, p: int)
    requires Run(start, es).Some? && Step(Run(start, es).value, e).Some?
    requires IsRebuilding(Step(Run(start, es).value, e).value, p)
    requires var s := Run(start, es).value;
             IsRebuilding(s, p) ==> exists a: nat :: ReadSince(start, es, a, p, s.procs[p].read, s.procs[p].deleted)
    ensures var ph := Step(Run(start, es).value, e).value.procs[p];
            exists a: nat :: ReadSince(start, es + [e], a, p, ph.read, ph.deleted)
  {
    var s := Run(start, es).value;
    var ph := Step(s, e).value.procs[p];
    RebuildingBefore(s, e, p);
    hide Step, Removes;
    assert (es + [e])[..|es|] == es;
    if e == ReadQueue(p) && ph.read == s.rows && ph.deleted == {} {
      hide Run;
      assert ReadSince(start, es + [e], |es|, p, ph.read, {});
    } else {
      var a: nat :| ReadSince(start, es, a, p, s.procs[p].read, s.procs[p].deleted);
      ReadSinceKeeps(start, es, e, a, p, s.procs[p].read, s.procs[p].deleted);
      forall m | m in ph.deleted ensures exists d: nat :: a < d && DeletesAt(start, es + [e], d, m) {
        if m !in s.procs[p].deleted {
          assert DeletesAt(start, es + [e], |es|, m);
        }
      }
      hide DeletesAt, ReadsAt, Run;
      assert ReadSince(start, es + [e], a, p, ph.read, ph.deleted);
    }
  }

  lemma {:induction false} RebuildingMeans(start: State, es: seq<Event>, p: int)
    requires start.procs == map[] && Run(start, es).Some? && IsRebuilding(Run(start, es).value, p)
    ensures var ph := Run(start, es).value.procs[p]; exists a: nat :: ReadSince(start, es, a, p, ph.read, ph.deleted)
    decreases |es|
  {
    hide ReadSince, Step;
    if es != [] {
      var n := |es| - 1;
      assert es == es[..n] + [es[n]];
      RunPrefix(start, es, n);
      RunSnoc(start, es[..n], es[n]);
      hide Run;
      if IsRebuilding(Run(start, es[..n]).value, p) {
        RebuildingMeans(start, es[..n], p);
      }
      ReadSinceStep(start, es[..n], es[n], p);
    }
  }

  lemma ResurrectedStep(s: State, e: Event, m: int)
    requires Step(s, e).Some? && m in Step(s, e).value.resurrected
    ensures || m in s.resurrected
            || (e.ReplaceQueue? && IsRebuilding(s, e.p)
                && m in s.procs[e.p].deleted && m in Messages(s.procs[e.p].read))
  {
    hide Find, Usable, CannotBeSent, HasTimedOut, AwaitsAck, CompletesHead, Advance, ExpectedFCnt, Replaces;
    hide TimedAsQueued;
  }

  lemma DeletedBetweenKeeps(start: State, es: seq<Event>, e: Event, a: nat, d: nat, r: nat, p: int, m: int)
    requires DeletedBetween(start, es, a, d, r, p, m)
    ensures DeletedBetween(start, es + [e], a, d, r, p, m)
  {
    PrefixKeeps(start, es, e);
    hide ReadsAt, DeletesAt;
  }

  /** A resurrected message was deleted by some process between a ReadQueue that found it in the queue
      and the next ReplaceQueue of the same process. */
  lemma {:induction false} ResurrectedMeans(start: State, es: seq<Event>, m: int)
    requires start.procs == map[] && start.resurrected == {} && Run(start, es).Some?
    requires m in Run(start, es).value.resurrected
    ensures exists a: nat, d: nat, r: nat, p :: DeletedBetween(start, es, a, d, r, p, m)
    decreases |es|
  {
    hide DeletedBetween, Step;
    if es != [] {
      var n := |es| - 1;
      var before, e := es[..n], es[n];
      assert es == before + [e];
      RunPrefix(start, es, n);
      RunSnoc(start, before, e);
      hide Run;
      ResurrectedStep(Run(start, before).value, e, m);
      if m in Run(start, before).value.resurrected {
        ResurrectedMeans(start, before, m);
        var a: nat, d: nat, r: nat, p :| DeletedBetween(start, before, a, d, r, p, m);
        DeletedBetweenKeeps(start, before, e, a, d, r, p, m);
      } else {
        RebuildingMeans(start, before, e.p);
        var ph := Run(start, before).value.procs[e.p];
        var a: nat :| ReadSince(start, before, a, e.p, ph.read, ph.deleted);
        ReplacedNow(start, before, e, a, e.p, ph.read, ph.deleted, m);
      }
    }
  }

  lemma ReplacedNow(start: State, es: seq<Event>, e: Event, a: nat, p: int, read: seq<Row>, deleted: set<int>, m: int)
    requires ReadSince(start, es, a, p, read, deleted) && IsReplaceBy(e, p) && m in deleted && m in Messages(read)
    ensures exists d: nat :: DeletedBetween(start, es + [e], a, d, |es|, p, m)
  {
    PrefixKeeps(start, es, e);
    var d: nat :| a < d && DeletesAt(start, es, d, m);
    assert d < |es|;
    hide ReadsAt, DeletesAt;
    assert DeletedBetween(start, es + [e], a, d, |es|, p, m);
  }

  /** So a message is notified twice only if it was deleted between a rebuild's reading and its replacing. */
  lemma MessageNotifiedTwiceOnlyIf(env: Env, counters: Counters, es: seq<Event>, i: nat, j: nat)
    requires Run(Initial(env, counters), es).Some? && i < j < |Run(Initial(env, counters), es).value.notices|
    requires var notices := Run(Initial(env, counters), es).value.notices;
             notices[i].row.message == notices[j].row.message
    ensures exists a: nat, d: nat, r: nat, p ::
              DeletedBetween(Initial(env, counters), es, a, d, r, p,
                             Run(Initial(env, counters), es).value.notices[i].row.message)
  {
    hide DeletedBetween, Run;
    NotifiedTwiceOnlyIf(env, counters, es, i, j);
    ResurrectedMeans(Initial(env, counters), es, Run(Initial(env, counters), es).value.notices[i].row.message);
  }

  // The exception is real

  /** A run from a state, as it is built step by step. */
  ghost predicate Reaches(s: State, es: seq<Event>, t: State) {
    Run(s, es) == Some(t)
  }

  lemma Extend(s: State, es: seq<Event>, t: State, e: Event) returns (es': seq<Event>, t': State)
    requires Reaches(s, es, t) && Step(t, e).Some?
    ensures Reaches(s, es', t') && t' == Step(t, e).value && es' == es + [e]
  {
    RunSnoc(s, es, e);
    es', t' := es + [e], Step(t, e).value;
  }

  predicate Idle(s: State, w: int) {
    w !in s.procs || s.procs[w].Finished?
  }

  /** Rows with times as they are queued, though these may have passed. */
  ghost predicate JustQueued(s: State) {
    forall i :: 0 <= i < |s.rows| ==>
                  && !s.rows[i].item.isPending
                  && (if InClassB(s.env) then s.rows[i].item.timeoutAfter.Some?
                      else s.rows[i].item.emitAt.None? && s.rows[i].item.timeoutAfter.None?)
  }

  /** The same messages with the same shapes. */
  ghost predicate SameMessages(rows': seq<Row>, rows: seq<Row>) {
    && |rows'| == |rows|
    && forall i :: 0 <= i < |rows| ==>
                     rows'[i].message == rows[i].message && ShapeOf(rows'[i].item) == ShapeOf(rows[i].item)
  }

  /** A wrong counter at the head is put right by a rebuild that nothing disturbs. */
  lemma RenumberIfNeeded(s: State, es: seq<Event>, t: State, w: int) returns (es': seq<Event>, t': State)
    requires Reaches(s, es, t) && JustQueued(t) && !InClassB(t.env) && Idle(t, w) && t.rows != []
    ensures Reaches(s, es', t') && JustQueued(t') && t'.env == t.env && Idle(t', w) && t'.notices == t.notices
    ensures SameMessages(t'.rows, t.rows) && t'.rows[0].item.fCnt == ExpectedFCnt(t'.counters)
  {
    es', t' := es, t;
    var start := ExpectedFCnt(t.counters);
    if t.rows[0].item.fCnt != start {
      es', t' := ReadForRebuild(s, es, t, w);
      var items := Renumbering(t.rows, start);
      RenumberingReplaces(t, items, start);
      hide Replaces, CannotBeSent, Usable, Find, Advance, ExpectedFCnt;
      es', t' := Extend(s, es', t', ReplaceQueue(w, items));
    }
  }

  /** A process that finds a wrong counter at the head reads the queue. */
  lemma ReadForRebuild(s: State, es: seq<Event>, t: State, w: int) returns (es': seq<Event>, t': State)
    requires Reaches(s, es, t) && JustQueued(t) && !InClassB(t.env) && Idle(t, w)
    requires t.rows != [] && t.rows[0].item.fCnt != ExpectedFCnt(t.counters)
    ensures Reaches(s, es', t') && t' == SetPhase(t, w, Rebuilding(Some(ExpectedFCnt(t.counters)), t.rows, {}))
  {
    var size := |t.rows[0].item.payload|;
    assert CannotBeSent(t.env, [t.rows[0].item], ExpectedFCnt(t.counters), size);
    hide CannotBeSent, Usable, Replaces, Find, ExpectedFCnt, Advance, JustQueued, Reaches;
    es', t' := Extend(s, es, t, Begin(w));
    es', t' := Extend(s, es', t', Inspect(w, size));
    es', t' := Extend(s, es', t', ReadQueue(w));
    assert t'.procs == t.procs[w := Rebuilding(Some(ExpectedFCnt(t.counters)), t.rows, {})];
  }

  function Renumbering(rows: seq<Row>, start: int): (items: seq<Item>)
    ensures |items| == |rows| && forall i :: 0 <= i < |rows| ==> items[i] == rows[i].item.(fCnt := start + i)
  {
    seq(|rows|, i requires 0 <= i < |rows| => rows[i].item.(fCnt := start + i))
  }

  lemma RenumberingReplaces(t: State, items: seq<Item>, start: int)
    requires JustQueued(t) && !InClassB(t.env) && items == Renumbering(t.rows, start)
    ensures Replaces(t.env, items, t.rows, Some(start))
  {
    assert forall i :: 0 <= i < |items| ==> Fresh(t.env, items[i]);
    hide GpsNow;
  }

  /** A process that notices about the message of a row. */
  predicate CanBeNoticed(env: Env, shape: Shape) {
    InClassB(env) || shape.confirmed || shape.size > 0
  }

  function LikelyReason(env: Env, shape: Shape): Reason {
    if InClassB(env) || shape.confirmed then ByTimeout else BySize
  }

  /** Notices were added, among them one for the row if any is ever given for such a row. */
  ghost predicate Noticed(env: Env, before: seq<Notice>, after: seq<Notice>, message: int, shape: Shape) {
    && before <= after
    && (CanBeNoticed(env, shape) ==>
          exists n :: n in after[|before|..] && n.row.message == message && n.reason == LikelyReason(env, shape))
  }

  lemma OneNotice(env: Env, before: seq<Notice>, row: Row, shape: Shape)
    ensures Noticed(env, before, before + [Notice(row, LikelyReason(env, shape))], row.message, shape)
  {
    var n := Notice(row, LikelyReason(env, shape));
    assert (before + [n])[|before|..] == [n];
  }

  /** The head leaves the queue: a Class-B one by its timeout, an unconfirmed one because it is too large
      for a window, any other one by being sent. */
  lemma RemoveHead(s: State, es: seq<Event>, t: State, w: int) returns (es': seq<Event>, t': State)
    requires Reaches(s, es, t) && JustQueued(t) && Idle(t, w) && t.rows != []
    ensures Reaches(s, es', t') && JustQueued(t') && Idle(t', w) && SameMessages(t'.rows, t.rows[1..])
    ensures InClassB(t'.env) == InClassB(t.env)
    ensures Noticed(t.env, t.notices, t'.notices, t.rows[0].message, ShapeOf(t.rows[0].item))
  {
    OneNotice(t.env, t.notices, t.rows[0], ShapeOf(t.rows[0].item));
    if InClassB(t.env) {
      es', t' := TimeOutHead(s, es, t, w);
    } else if !t.rows[0].item.confirmed && t.rows[0].item.payload != [] {
      es', t' := DropTooLarge(s, es, t, w);
    } else {
      es', t' := RenumberIfNeeded(s, es, t, w);
      es', t' := SendHead(s, es', t', w);
      if t.rows[0].item.confirmed {
        var row: Row :| row.message == t.rows[0].message && t'.notices == t.notices + [Notice(row, ByTimeout)];
        OneNotice(t.env, t.notices, row, ShapeOf(t.rows[0].item));
      }
    }
  }

  /** A window that is one byte too small. */
  lemma DropTooLarge(s: State, es: seq<Event>, t: State, w: int) returns (es': seq<Event>, t': State)
    requires Reaches(s, es, t) && JustQueued(t) && !InClassB(t.env) && Idle(t, w) && t.rows != []
    requires t.rows[0].item.payload != []
    ensures Reaches(s, es', t') && Idle(t', w) && t'.rows == t.rows[1..] && t'.env == t.env
    ensures t'.notices == t.notices + [Notice(t.rows[0], BySize)]
  {
    assert !HasTimedOut(t.rows[0].item, t.env.now) && !AwaitsAck(t.rows[0].item, t.env.now);
    hide Find, Usable, CannotBeSent, CompletesHead, Advance, ExpectedFCnt, Replaces, TimedAsQueued;
    hide AfterDelete, AfterGatewayAck, AfterReplace, AwaitsAck, HasTimedOut;
    es', t' := Extend(s, es, t, Begin(w));
    es', t' := Extend(s, es', t', SelectTooLarge(w, |t.rows[0].item.payload| - 1));
    es', t' := DeleteAndNotify(s, es', t', w);
  }

  /** Sends the head. An unconfirmed item is done with that, a confirmed one is left to time out. */
  lemma SendHead(s: State, es: seq<Event>, t: State, w: int) returns (es': seq<Event>, t': State)
    requires Reaches(s, es, t) && JustQueued(t) && !InClassB(t.env) && Idle(t, w)
    requires t.rows != [] && t.rows[0].item.fCnt == ExpectedFCnt(t.counters)
    ensures Reaches(s, es', t') && JustQueued(t') && Idle(t', w) && t'.rows == t.rows[1..] && !InClassB(t'.env)
    ensures if t.rows[0].item.confirmed
            then exists row: Row ::
                   row.message == t.rows[0].message && t'.notices == t.notices + [Notice(row, ByTimeout)]
            else t'.notices == t.notices
  {
    var row := t.rows[0];
    es', t' := TransmitHead(s, es, t, w);
    assert Find(t.rows, row.item.id) == Some(0);
    hide Find, Advance, ExpectedFCnt, Usable, CannotBeSent, HasTimedOut, AwaitsAck, CompletesHead, Replaces;
    hide TimedAsQueued;
    hide AfterDelete, AfterReplace;
    es', t' := Extend(s, es', t', GatewayAck(w, 0));
    if row.item.confirmed {
      es', t' := TimeOutHead(s, es', t', w);
    }
  }

  lemma TransmitHead(s: State, es: seq<Event>, t: State, w: int) returns (es': seq<Event>, t': State)
    requires Reaches(s, es, t) && JustQueued(t) && !InClassB(t.env) && Idle(t, w)
    requires t.rows != [] && t.rows[0].item.fCnt == ExpectedFCnt(t.counters)
    ensures Reaches(s, es', t') && t' == SetPhase(t, w, Transmitting(t.rows[0]))
  {
    var size := |t.rows[0].item.payload|;
    assert Usable(t.env, t.rows[0].item, ExpectedFCnt(t.counters), size);
    hide Find, Advance, ExpectedFCnt, Usable, CannotBeSent, CompletesHead, Replaces, TimedAsQueued, AfterGatewayAck;
    hide AfterDelete, AfterReplace;
    es', t' := Extend(s, es, t, Begin(w));
    es', t' := Extend(s, es', t', Transmit(w, size));
    assert t'.procs == t.procs[w := Transmitting(t.rows[0])];
  }

  /** Once its timeout has passed, a head is removed and reported, whether it was sent or not. */
  lemma TimeOutHead(s: State, es: seq<Event>, t: State, w: int) returns (es': seq<Event>, t': State)
    requires Reaches(s, es, t) && Idle(t, w) && t.rows != [] && t.rows[0].item.timeoutAfter.Some?
    ensures Reaches(s, es', t') && Idle(t', w) && t'.rows == t.rows[1..]
    ensures t'.env == t.env.(now := t'.env.now) && t'.counters == t.counters
    ensures t'.notices == t.notices + [Notice(t.rows[0], ByTimeout)]
  {
    hide Find, Usable, CannotBeSent, CompletesHead, Advance, ExpectedFCnt, Replaces, TimedAsQueued;
    hide AfterDelete, AfterGatewayAck, AfterReplace;
    var at := t.rows[0].item.timeoutAfter.value;
    es', t' := Extend(s, es, t, Tick(if at < t.env.now then 0 else at - t.env.now + 1));
    es', t' := Extend(s, es', t', Begin(w));
    es', t' := Extend(s, es', t', SelectTimeout(w));
    es', t' := DeleteAndNotify(s, es', t', w);
  }

  lemma DeleteAndNotify(s: State, es: seq<Event>, t: State, w: int) returns (es': seq<Event>, t': State)
    requires Reaches(s, es, t) && t.rows != [] && w in t.procs && t.procs[w].Holds?
    requires t.procs[w].notice.row == t.rows[0]
    ensures Reaches(s, es', t') && Idle(t', w) && t'.rows == t.rows[1..] && t'.env == t.env && t'.counters == t.counters
    ensures t'.notices == t.notices + [t.procs[w].notice] && t'.resurrected == t.resurrected
    ensures forall p, start, read, deleted :: p in t.procs && t.procs[p] == Rebuilding(start, read, deleted) ==>
              p in t'.procs && t'.procs[p] == Rebuilding(start, read, deleted + {t.rows[0].message})
  {
    assert Find(t.rows, t.rows[0].item.id) == Some(0);
    hide Find, Usable, CannotBeSent, CompletesHead, Advance, ExpectedFCnt, Replaces, TimedAsQueued, AfterGatewayAck;
    hide AfterReplace;
    es', t' := Extend(s, es, t, Delete(w));
    es', t' := Extend(s, es', t', Notify(w));
  }

  /** Removes one row after the other, with the one at position k as the last. */
  lemma {:induction false} ClearUntil(s: State, es: seq<Event>, t: State, w: int, k: nat)
    returns (es': seq<Event>, t': State)
    requires Reaches(s, es, t) && JustQueued(t) && Idle(t, w) && k < |t.rows|
    ensures Reaches(s, es', t') && Noticed(t.env, t.notices, t'.notices, t.rows[k].message, ShapeOf(t.rows[k].item))
    decreases k
  {
    hide JustQueued, Idle, Noticed, InClassB;
    es', t' := RemoveHead(s, es, t, w);
    if k > 0 {
      var u := t';
      assert t.rows[1..][k - 1] == t.rows[k];
      es', t' := ClearUntil(s, es', u, w, k - 1);
      NoticedLater(t.env, u.env, t.notices, u.notices, t'.notices, t.rows[k].message, ShapeOf(t.rows[k].item),
                   t.rows[0].message, ShapeOf(t.rows[0].item));
    }
  }

  lemma NoticedLater(env: Env, env': Env, a: seq<Notice>, b: seq<Notice>, c: seq<Notice>, m: int, shape: Shape,
                     first: int, firstShape: Shape)
    requires InClassB(env') == InClassB(env) && Noticed(env, a, b, first, firstShape) && Noticed(env', b, c, m, shape)
    ensures Noticed(env, a, c, m, shape)
  {
    if n :| n in c[|b|..] && n.row.message == m && n.reason == LikelyReason(env, shape) {
      NoticesGrow(a, b, c, n);
    }
  }

  lemma NoticesGrow(a: seq<Notice>, b: seq<Notice>, c: seq<Notice>, n: Notice)
    requires a <= b <= c && n in c[|b|..]
    ensures n in c[|a|..]
  {
    var i :| 0 <= i < |c[|b|..]| && c[|b|..][i] == n;
    assert c[|a|..][|b| - |a| + i] == n;
  }

  lemma {:induction false} NewProcess(used: set<int>) returns (w: int)
    ensures forall p :: p in used ==> p < w
  {
    w := 0;
    if used != {} {
      Inhabited(used);
      var p :| p in used;
      var v := NewProcess(used - {p});
      w := if v <= p then p + 1 else v;
      assert forall q :: q in used ==> q == p || q in used - {p};
    }
  }

  ghost predicate Spent(s: State, message: int) {
    || (exists i :: 0 <= i < |s.notices| && s.notices[i].row.message == message)
    || (exists p :: IsDeleted(s, p) && s.procs[p].notice.row.message == message)
  }

  ghost predicate DeletedSpent(s: State) {
    forall p, m :: IsRebuilding(s, p) && m in s.procs[p].deleted ==> Spent(s, m)
  }

  lemma SpentStays(s: State, e: Event, m: int)
    requires Step(s, e).Some? && Spent(s, m)
    ensures Spent(Step(s, e).value, m)
  {
    var t := Step(s, e).value;
    hide Find, Usable, CannotBeSent, HasTimedOut, AwaitsAck, CompletesHead, Advance, ExpectedFCnt, Replaces;
    hide TimedAsQueued;
    if i :| 0 <= i < |s.notices| && s.notices[i].row.message == m {
      assert i < |t.notices| && t.notices[i] == s.notices[i];
    } else {
      var p :| IsDeleted(s, p) && s.procs[p].notice.row.message == m;
      if e == Notify(p) {
        assert t.notices[|s.notices|] == s.procs[p].notice;
      } else {
        assert IsDeleted(t, p) && t.procs[p] == s.procs[p];
      }
    }
  }

  /** A message joins the deletions noted by a rebuild only with a deletion that is still to be notified. */
  lemma NotedIsDeleted(s: State, e: Event, p: int, m: int)
    requires Step(s, e).Some? && IsRebuilding(Step(s, e).value, p) && m in Step(s, e).value.procs[p].deleted
    ensures || (IsRebuilding(s, p) && m in s.procs[p].deleted)
            || (e.Delete? && IsDeleted(Step(s, e).value, e.p) && Step(s, e).value.procs[e.p].notice.row.message == m)
  {
    hide Find, Usable, CannotBeSent, HasTimedOut, AwaitsAck, CompletesHead, Advance, ExpectedFCnt, Replaces;
    hide TimedAsQueued;
  }

  lemma DeletedSpentStep(s: State, e: Event)
    requires DeletedSpent(s) && Step(s, e).Some?
    ensures DeletedSpent(Step(s, e).value)
  {
    var t := Step(s, e).value;
    forall p, m | IsRebuilding(t, p) && m in t.procs[p].deleted ensures Spent(t, m) {
      NotedIsDeleted(s, e, p, m);
      if IsRebuilding(s, p) && m in s.procs[p].deleted {
        hide Step, Spent;
        SpentStays(s, e, m);
      }
    }
  }

  lemma {:induction false} DeletedSpentRun(s: State, es: seq<Event>)
    requires DeletedSpent(s) && Run(s, es).Some?
    ensures DeletedSpent(Run(s, es).value)
    decreases |es|
  {
    hide Step, DeletedSpent;
    if es != [] {
      DeletedSpentStep(s, es[0]);
      DeletedSpentRun(Step(s, es[0]).value, es[1..]);
    }
  }

  lemma {:induction false} RunAppend(s: State, es: seq<Event>, more: seq<Event>)
    requires Run(s, es).Some?
    ensures Run(s, es + more) == Run(Run(s, es).value, more)
    decreases |es|
  {
    hide Step;
    if es == [] {
      assert es + more == more;
    } else {
      assert (es + more)[1..] == es[1..] + more;
      RunAppend(Step(s, es[0]).value, es[1..], more);
    }
  }

  lemma SpentIsNotified(t: State, m: int) returns (more: seq<Event>, u: State)
    requires Spent(t, m)
    ensures Reaches(t, more, u) && u.rows == t.rows && u.env == t.env && u.counters == t.counters
    ensures t.notices <= u.notices
    ensures exists i :: 0 <= i < |u.notices| && u.notices[i].row.message == m
  {
    more, u := [], t;
    if !(exists i :: 0 <= i < |t.notices| && t.notices[i].row.message == m) {
      var q :| IsDeleted(t, q) && t.procs[q].notice.row.message == m;
      more, u := Extend(t, more, u, Notify(q));
      assert u.notices[|t.notices|].row.message == m;
    }
  }

  // Messages that are deleted for a notice can get another one

  ghost predicate HasShape(s: State, row: Row) {
    row.message in s.messages && s.messages[row.message] == ShapeOf(row.item)
  }

  /** A row that times out, or waits for the device, is one that can be noticed. */
  ghost predicate RowAllowed(s: State, row: Row) {
    && HasShape(s, row)
    && (InClassB(s.env) || row.item.confirmed || (!row.item.isPending && row.item.timeoutAfter.None?))
  }

  predicate IsHolding(s: State, p: int) {
    p in s.procs && s.procs[p].Holds?
  }

  /** The row that a process is about to delete, and any row of the same id. */
  ghost predicate HeldAllowed(s: State, row: Row) {
    && HasShape(s, row) && CanBeNoticed(s.env, ShapeOf(row.item)) && row.item.id < s.nextId
    && forall i :: 0 <= i < |s.rows| && s.rows[i].item.id == row.item.id ==> s.rows[i].message == row.message
  }

  ghost predicate Shaped(s: State) {
    && (forall i :: 0 <= i < |s.rows| ==> RowAllowed(s, s.rows[i]))
    && (forall p :: IsHolding(s, p) ==> HeldAllowed(s, s.procs[p].notice.row))
    && (forall p, i :: IsRebuilding(s, p) && 0 <= i < |s.procs[p].read| ==> HasShape(s, s.procs[p].read[i]))
    && (forall p, m :: IsRebuilding(s, p) && m in s.procs[p].deleted ==>
             m in s.messages && CanBeNoticed(s.env, s.messages[m]))
  }

  /** Messages keep their shapes, and the device its class. */
  lemma ShapesStay(s: State, e: Event)
    requires Step(s, e).Some?
    ensures var t := Step(s, e).value;
            && InClassB(t.env) == InClassB(s.env) && s.nextId <= t.nextId
            && forall m :: m in s.messages ==> m in t.messages && t.messages[m] == s.messages[m]
  {
    hide Find, Usable, CannotBeSent, HasTimedOut, AwaitsAck, CompletesHead, Advance, ExpectedFCnt, Replaces;
    hide TimedAsQueued;
  }

  predicate SameMessage(a: Row, b: Row) {
    a.message == b.message && a.item.id == b.item.id && ShapeOf(a.item) == ShapeOf(b.item)
  }

  /** The row as a gateway's acknowledgement leaves it: pending, and with a timeout if it had none. */
  predicate Awaits(row: Row, before: Row) {
    && SameMessage(row, before) && row.item.confirmed && row.item.isPending
    && (before.item.timeoutAfter.Some? ==> row.item.timeoutAfter == before.item.timeoutAfter)
  }

  /** Where a row comes from: it was there, a gateway's acknowledgement made it wait for the device, or
      it is new. */
  lemma RowBefore(s: State, e: Event, i: nat)
    requires Step(s, e).Some? && i < |Step(s, e).value.rows|
    ensures var t := Step(s, e).value; var row := t.rows[i];
            || row in s.rows
            || (exists k :: 0 <= k < |s.rows| && Awaits(row, s.rows[k]))
            || (s.nextId <= row.item.id && TimedAsQueued(t.env, row.item)
                && (HasShape(t, row) || exists p, k :: IsRebuilding(s, p) && 0 <= k < |s.procs[p].read|
                                                       && row.message == s.procs[p].read[k].message
                                                       && ShapeOf(row.item) == ShapeOf(s.procs[p].read[k].item)))
  {
    hide Find, Usable, CannotBeSent, HasTimedOut, AwaitsAck, CompletesHead, Advance, ExpectedFCnt;
    match e {
      case ReplaceQueue(p, items) => ReplacedRow(s, p, items, i);
      case Enqueue(_, item, at) =>
        hide Replaces, Fresh;
        EnqueuedRow(s.env, item, s.nextId);
        var row := Step(s, e).value.rows[i];
        assert i != at ==> row == s.rows[if i < at then i else i - 1];
      case GatewayAck(p, timeout) => AckedRow(s, p, timeout, i);
      case _ =>
        hide Replaces, Fresh;
    }
  }

  lemma AckedRow(s: State, p: int, timeout: nat, i: nat)
    requires Step(s, GatewayAck(p, timeout)).Some? && i < |Step(s, GatewayAck(p, timeout)).value.rows|
    ensures var row := Step(s, GatewayAck(p, timeout)).value.rows[i];
            row in s.rows || exists k :: 0 <= k < |s.rows| && Awaits(row, s.rows[k])
  {
    hide Find, Advance;
    var rows := Step(s, GatewayAck(p, timeout)).value.rows;
    var at := Find(s.rows, s.procs[p].row.item.id);
    if at.Some? && !s.rows[at.value].item.confirmed {
      assert rows[i] == s.rows[if i < at.value then i else i + 1];
    } else if at.Some? && i == at.value {
      assert Awaits(rows[i], s.rows[i]);
    }
  }

  lemma EnqueuedRow(env: Env, item: Item, id: nat)
    requires TimedAsQueued(env, item)
    ensures TimedAsQueued(env, item.(id := id))
  {
    hide GpsNow;
  }

  lemma ReplacedRow(s: State, p: int, items: seq<Item>, i: nat)
    requires Step(s, ReplaceQueue(p, items)).Some? && i < |Step(s, ReplaceQueue(p, items)).value.rows|
    ensures var row := Step(s, ReplaceQueue(p, items)).value.rows[i];
            && s.nextId <= row.item.id && TimedAsQueued(s.env, row.item) && i < |s.procs[p].read|
            && row.message == s.procs[p].read[i].message && ShapeOf(row.item) == ShapeOf(s.procs[p].read[i].item)
  {
    hide GpsNow;
  }

  lemma RowsShaped(s: State, e: Event, i: nat)
    requires Shaped(s) && Step(s, e).Some? && i < |Step(s, e).value.rows|
    ensures RowAllowed(Step(s, e).value, Step(s, e).value.rows[i])
  {
    RowBefore(s, e, i);
    ShapesStay(s, e);
    hide Step;
  }

  /** What a process holds it held before, or it has just selected it at the head. */
  lemma HeldBefore(s: State, e: Event, p: int)
    requires Step(s, e).Some? && IsHolding(Step(s, e).value, p)
    ensures || (IsHolding(s, p) && Step(s, e).value.procs[p] == s.procs[p])
            || (Step(s, e).value.rows == s.rows && s.rows != [] && Step(s, e).value.procs[p].notice.row == s.rows[0]
                && (s.rows[0].item.isPending || s.rows[0].item.timeoutAfter.Some? || s.rows[0].item.payload != []))
  {
    hide Find, Usable, CannotBeSent, AwaitsAck, Advance, ExpectedFCnt, Replaces, TimedAsQueued;
  }

  lemma HeldShaped(s: State, e: Event, p: int)
    requires Shaped(s) && Step(s, e).Some? && IsHolding(Step(s, e).value, p) && SoundIds(s)
    ensures HeldAllowed(Step(s, e).value, Step(s, e).value.procs[p].notice.row)
  {
    var t := Step(s, e).value;
    var row := t.procs[p].notice.row;
    HeldBefore(s, e, p);
    ShapesStay(s, e);
    forall i | 0 <= i < |t.rows| && t.rows[i].item.id == row.item.id ensures t.rows[i].message == row.message {
      RowBefore(s, e, i);
    }
    hide Step;
    if !(IsHolding(s, p) && t.procs[p] == s.procs[p]) {
      assert RowAllowed(s, s.rows[0]);
    }
  }

  /** What a notice claims holds of the row it is about. */
  predicate Truthful(env: Env, row: Row, reason: Reason) {
    match reason
    case ByDevice => row.item.isPending && row.item.confirmed
    case ByTimeout => row.item.timeoutAfter.Some? && row.item.timeoutAfter.value < env.now
    case BySize => row.item.payload != []
  }

  ghost predicate AllTruthful(s: State) {
    && (forall i :: 0 <= i < |s.rows| && s.rows[i].item.isPending ==> s.rows[i].item.confirmed)
    && (forall p :: IsHolding(s, p) ==> s.procs[p].notice.row.item.id < s.nextId)
    && (forall p, i :: IsHolding(s, p) && 0 <= i < |s.rows| && s.rows[i].item.id == s.procs[p].notice.row.item.id ==>
                         Truthful(s.env, s.rows[i], s.procs[p].notice.reason))
    && (forall p :: IsDeleted(s, p) ==> Truthful(s.env, s.procs[p].notice.row, s.procs[p].notice.reason))
    && (forall i :: 0 <= i < |s.notices| ==> Truthful(s.env, s.notices[i].row, s.notices[i].reason))
  }

  /** Time only passes, and a row that waits for the device still has what was said of it. */
  lemma TruthStays(s: State, e: Event, row: Row, before: Row, reason: Reason)
    requires Step(s, e).Some? && Truthful(s.env, before, reason) && (row == before || Awaits(row, before))
    ensures Truthful(Step(s, e).value.env, row, reason)
  {
    hide Find, Usable, CannotBeSent, HasTimedOut, AwaitsAck, CompletesHead, Advance, ExpectedFCnt, Replaces;
    hide TimedAsQueued;
  }

  /** What a process holds it held before, or selected at the head for a reason that is true of it. */
  lemma HeldForReason(s: State, e: Event, p: int)
    requires Step(s, e).Some? && IsHolding(Step(s, e).value, p)
    ensures || (IsHolding(s, p) && Step(s, e).value.procs[p] == s.procs[p])
            || (var t := Step(s, e).value;
                && t.rows == s.rows && t.env == s.env && s.rows != [] && t.procs[p].notice.row == s.rows[0]
                && match t.procs[p].notice.reason
                   case ByDevice => s.rows[0].item.isPending
                   case ByTimeout => HasTimedOut(s.rows[0].item, s.env.now)
                   case BySize => s.rows[0].item.payload != [])
  {
    hide Find, Usable, CannotBeSent, AwaitsAck, Advance, ExpectedFCnt, Replaces, TimedAsQueued, HasTimedOut;
  }

  lemma RowsTruthful(s: State, e: Event, i: nat)
    requires AllTruthful(s) && Step(s, e).Some? && i < |Step(s, e).value.rows|
    ensures Step(s, e).value.rows[i].item.isPending ==> Step(s, e).value.rows[i].item.confirmed
  {
    RowBefore(s, e, i);
    hide Step;
  }

  lemma HeldTruthful(s: State, e: Event, p: int, i: nat)
    requires AllTruthful(s) && SoundIds(s) && Step(s, e).Some? && IsHolding(Step(s, e).value, p)
    requires var t := Step(s, e).value; i < |t.rows| && t.rows[i].item.id == t.procs[p].notice.row.item.id
    ensures Truthful(Step(s, e).value.env, Step(s, e).value.rows[i], Step(s, e).value.procs[p].notice.reason)
  {
    var t := Step(s, e).value;
    HeldForReason(s, e, p);
    hide Step;
    if IsHolding(s, p) && t.procs[p] == s.procs[p] {
      RowBefore(s, e, i);
      if t.rows[i] in s.rows {
        TruthStays(s, e, t.rows[i], t.rows[i], t.procs[p].notice.reason);
      } else if k :| 0 <= k < |s.rows| && Awaits(t.rows[i], s.rows[k]) {
        TruthStays(s, e, t.rows[i], s.rows[k], t.procs[p].notice.reason);
      }
    } else {
      assert s.rows[i] == s.rows[0];
    }
  }

  /** A notice that is about to be sent was true when its row was deleted; so was one that has been sent. */
  lemma DeletedBefore(s: State, e: Event, p: int)
    requires Step(s, e).Some? && IsDeleted(Step(s, e).value, p)
    ensures var t := Step(s, e).value;
            || (IsDeleted(s, p) && t.procs[p] == s.procs[p])
            || (IsHolding(s, p) && t.env == s.env && t.procs[p].notice.reason == s.procs[p].notice.reason
                && t.procs[p].notice.row in s.rows && t.procs[p].notice.row.item.id == s.procs[p].notice.row.item.id)
  {
    hide Usable, CannotBeSent, HasTimedOut, AwaitsAck, CompletesHead, Advance, ExpectedFCnt, Replaces, TimedAsQueued;
    hide Find;
  }

  lemma NoticesBefore(s: State, e: Event)
    requires Step(s, e).Some?
    ensures var t := Step(s, e).value;
            || t.notices == s.notices
            || exists p :: IsDeleted(s, p) && t.notices == s.notices + [s.procs[p].notice]
  {
    hide Find, Usable, CannotBeSent, HasTimedOut, AwaitsAck, CompletesHead, Advance, ExpectedFCnt, Replaces;
    hide TimedAsQueued;
    if e.Notify? {
      assert IsDeleted(s, e.p);
    }
  }

  lemma TruthfulStep(s: State, e: Event)
    requires AllTruthful(s) && Sound(s) && Step(s, e).Some?
    ensures AllTruthful(Step(s, e).value)
  {
    var t := Step(s, e).value;
    SoundHasIds(s);
    ShapesStay(s, e);
    hide Step, Sound, Truthful;
    forall i | 0 <= i < |t.rows| && t.rows[i].item.isPending ensures t.rows[i].item.confirmed {
      RowsTruthful(s, e, i);
    }
    forall p | IsHolding(t, p) ensures t.procs[p].notice.row.item.id < t.nextId {
      HeldForReason(s, e, p);
    }
    forall p, i | IsHolding(t, p) && 0 <= i < |t.rows| && t.rows[i].item.id == t.procs[p].notice.row.item.id
      ensures Truthful(t.env, t.rows[i], t.procs[p].notice.reason)
    {
      HeldTruthful(s, e, p, i);
    }
    forall p | IsDeleted(t, p) ensures Truthful(t.env, t.procs[p].notice.row, t.procs[p].notice.reason) {
      DeletedBefore(s, e, p);
      TruthStays(s, e, t.procs[p].notice.row, t.procs[p].notice.row, t.procs[p].notice.reason);
    }
    NoticesBefore(s, e);
    forall i | 0 <= i < |t.notices| ensures Truthful(t.env, t.notices[i].row, t.notices[i].reason) {
      assert i < |s.notices| ==> t.notices[i] == s.notices[i];
      TruthStays(s, e, t.notices[i].row, t.notices[i].row, t.notices[i].reason);
    }
  }

  lemma {:induction false} TruthfulRun(s: State, es: seq<Event>)
    requires AllTruthful(s) && Sound(s) && Run(s, es).Some?
    ensures AllTruthful(Run(s, es).value)
    decreases |es|
  {
    hide Step, AllTruthful, Sound;
    if es != [] {
      TruthfulStep(s, es[0]);
      SoundStep(s, es[0]);
      TruthfulRun(Step(s, es[0]).value, es[1..]);
    }
  }

  /** Under every interleaving a notice tells the truth: an acknowledgement is about a confirmed downlink
      that was waiting for the device, a timeout about a row whose timeout has passed. */
  lemma NoticesAreTrue(env: Env, counters: Counters, es: seq<Event>, i: nat)
    requires Run(Initial(env, counters), es).Some? && i < |Run(Initial(env, counters), es).value.notices|
    ensures var s := Run(Initial(env, counters), es).value; var n := s.notices[i]; var item := n.row.item;
            && (n.reason == ByDevice ==> item.isPending && item.confirmed)
            && (n.reason == ByTimeout ==> item.timeoutAfter.Some? && item.timeoutAfter.value < s.env.now)
            && (n.reason == BySize ==> item.payload != [])
  {
    StartHolds(Initial(env, counters));
    TruthfulRun(Initial(env, counters), es);
    assert Truthful(Run(Initial(env, counters), es).value.env, Run(Initial(env, counters), es).value.notices[i].row,
                    Run(Initial(env, counters), es).value.notices[i].reason);
  }

  /** Rows have distinct ids, all of them handed out. */
  ghost predicate SoundIds(s: State) {
    && (forall i :: 0 <= i < |s.rows| ==> s.rows[i].item.id < s.nextId)
    && (forall i, j :: 0 <= i < j < |s.rows| ==> s.rows[i].item.id != s.rows[j].item.id)
  }

  lemma SoundHasIds(s: State)
    requires Sound(s)
    ensures SoundIds(s)
  {
    assert forall i :: 0 <= i < |s.rows| ==> IsKnown(s, s.rows[i]);
    assert forall i, j :: 0 <= i < j < |s.rows| ==> !Clash(s.rows[i], s.rows[j], false, s.resurrected);
  }

  lemma ReadsShaped(s: State, e: Event, p: int)
    requires Shaped(s) && Step(s, e).Some? && IsRebuilding(Step(s, e).value, p)
    ensures var t := Step(s, e).value;
            && (forall i :: 0 <= i < |t.procs[p].read| ==> HasShape(t, t.procs[p].read[i]))
            && forall m :: m in t.procs[p].deleted ==> m in t.messages && CanBeNoticed(t.env, t.messages[m])
  {
    var t := Step(s, e).value;
    RebuildingBefore(s, e, p);
    ShapesStay(s, e);
    hide Step;
    if e == ReadQueue(p) && t.procs[p].read == s.rows && t.procs[p].deleted == {} {
      assert forall i :: 0 <= i < |s.rows| ==> RowAllowed(s, s.rows[i]);
    } else {
      forall m | m in t.procs[p].deleted ensures m in t.messages && CanBeNoticed(t.env, t.messages[m]) {
        if m !in s.procs[p].deleted {
          assert HeldAllowed(s, s.procs[e.p].notice.row);
        }
      }
    }
  }

  lemma ShapedStep(s: State, e: Event)
    requires Shaped(s) && Sound(s) && Step(s, e).Some?
    ensures Shaped(Step(s, e).value)
  {
    var t := Step(s, e).value;
    SoundHasIds(s);
    hide Step, RowAllowed, HeldAllowed, HasShape, Sound;
    forall i | 0 <= i < |t.rows| ensures RowAllowed(t, t.rows[i]) {
      RowsShaped(s, e, i);
    }
    forall p | IsHolding(t, p) ensures HeldAllowed(t, t.procs[p].notice.row) {
      HeldShaped(s, e, p);
    }
    forall p | IsRebuilding(t, p)
      ensures forall i :: 0 <= i < |t.procs[p].read| ==> HasShape(t, t.procs[p].read[i])
      ensures forall m :: m in t.procs[p].deleted ==> m in t.messages && CanBeNoticed(t.env, t.messages[m])
    {
      ReadsShaped(s, e, p);
    }
  }

  lemma {:induction false} ShapedRun(s: State, es: seq<Event>)
    requires Shaped(s) && Sound(s) && Run(s, es).Some?
    ensures Shaped(Run(s, es).value)
    decreases |es|
  {
    hide Step, Shaped, Sound;
    if es != [] {
      ShapedStep(s, es[0]);
      SoundStep(s, es[0]);
      ShapedRun(Step(s, es[0]).value, es[1..]);
    }
  }

  /** What a rebuild puts back is as it is queued, and a message deleted since can be noticed again. */
  lemma PutBack(s: State, p: int, items: seq<Item>, k: nat)
    requires Shaped(s) && Step(s, ReplaceQueue(p, items)).Some? && k < |s.procs[p].read|
    requires s.procs[p].read[k].message in s.procs[p].deleted
    ensures var t := Step(s, ReplaceQueue(p, items)).value;
            && JustQueued(t) && k < |t.rows| && t.rows[k].message == s.procs[p].read[k].message
            && t.notices == s.notices && CanBeNoticed(t.env, ShapeOf(t.rows[k].item))
  {
    var t := Step(s, ReplaceQueue(p, items)).value;
    assert |t.rows| == |s.procs[p].read| && t.env == s.env && t.notices == s.notices by { hide Shaped, TimedAsQueued; }
    assert HasShape(s, s.procs[p].read[k]) && CanBeNoticed(s.env, s.messages[s.procs[p].read[k].message]);
    hide Shaped;
    forall i | 0 <= i < |t.rows|
      ensures && TimedAsQueued(s.env, t.rows[i].item) && t.rows[i].message == s.procs[p].read[i].message
              && ShapeOf(t.rows[i].item) == ShapeOf(s.procs[p].read[i].item)
    {
      ReplacedRow(s, p, items, i);
    }
    hide Step, EmitsLater, HasTimedOut;
  }

  /** The converse, for every device and message: whenever a rebuild puts back a message that was deleted
      since it read the queue, the run can go on to a second notice of it. */
  lemma ResurrectedIsNotifiedAgain(env: Env, counters: Counters, es: seq<Event>, p: int, items: seq<Item>, k: nat)
    returns (more: seq<Event>)
    requires Run(Initial(env, counters), es).Some?
    requires var s := Run(Initial(env, counters), es).value;
             && Step(s, ReplaceQueue(p, items)).Some? && k < |s.procs[p].read|
             && s.procs[p].read[k].message in s.procs[p].deleted
    ensures var s := Run(Initial(env, counters), es).value; var row := s.procs[p].read[k];
            var final := Run(Initial(env, counters), es + [ReplaceQueue(p, items)] + more);
            && final.Some? && s.notices <= final.value.notices
            && TwiceNotified(final.value.notices, |s.notices|, row.message, LikelyReason(s.env, ShapeOf(row.item)))
  {
    var start := Initial(env, counters);
    var s := Run(start, es).value;
    StartHolds(start);
    hide Step, Run, Spent, InClassB, JustQueued, Shaped, Sound;
    DeletedSpentRun(start, es);
    ShapedRun(start, es);
    assert IsRebuilding(s, p) by { ReplacedIs(s, p, items); }
    SpentStays(s, ReplaceQueue(p, items), s.procs[p].read[k].message);
    RunSnoc(start, es, ReplaceQueue(p, items));
    var t := Step(s, ReplaceQueue(p, items)).value;
    PutBack(s, p, items, k);
    ReplacedRow(s, p, items, k);
    ShapesStay(s, ReplaceQueue(p, items));
    var v;
    more, v := NoticedAgain(t, k);
    assert LikelyReason(t.env, ShapeOf(t.rows[k].item)) == LikelyReason(s.env, ShapeOf(s.procs[p].read[k].item));
    assert Run(t, more) == Some(v);
    RunAppend(start, es + [ReplaceQueue(p, items)], more);
  }

  lemma StartHolds(s: State)
    requires exists env, counters :: s == Initial(env, counters)
    ensures DeletedSpent(s) && Shaped(s) && Sound(s)
  {
  }

  /** A message that was deleted for a notice, and is queued, can get two. */
  lemma NoticedAgain(t: State, k: nat) returns (more: seq<Event>, v: State)
    requires JustQueued(t) && k < |t.rows| && Spent(t, t.rows[k].message)
    requires CanBeNoticed(t.env, ShapeOf(t.rows[k].item))
    ensures Run(t, more) == Some(v) && t.notices <= v.notices
    ensures TwiceNotified(v.notices, |t.notices|, t.rows[k].message, LikelyReason(t.env, ShapeOf(t.rows[k].item)))
  {
    var m := t.rows[k].message;
    var u;
    more, u := SpentIsNotified(t, m);
    var first :| 0 <= first < |u.notices| && u.notices[first].row.message == m;
    var w := NewProcess(u.procs.Keys);
    assert Idle(u, w) && JustQueued(u);
    hide Step, Run, Spent, JustQueued, InClassB;
    more, v := ClearUntil(t, more, u, w, k);
    NoticedTwice(u.env, t.notices, u.notices, v.notices, first, m, ShapeOf(u.rows[k].item));
  }

  /** Two notices of one message, the second at or behind a position and for a reason. */
  ghost predicate TwiceNotified(notices: seq<Notice>, from: nat, message: int, reason: Reason) {
    exists i, j :: 0 <= i < j < |notices| && from <= j && notices[i].row.message == message
                   && notices[j].row.message == message && notices[j].reason == reason
  }

  lemma NoticedTwice(env: Env, before: seq<Notice>, first: seq<Notice>, all: seq<Notice>, i: nat, m: int, shape: Shape)
    requires before <= first && i < |first| && first[i].row.message == m
    requires Noticed(env, first, all, m, shape) && CanBeNoticed(env, shape)
    ensures before <= all && TwiceNotified(all, |before|, m, LikelyReason(env, shape))
  {
    var n :| n in all[|first|..] && n.row.message == m && n.reason == LikelyReason(env, shape);
    var k :| 0 <= k < |all[|first|..]| && all[|first|..][k] == n;
    assert all[|first| + k] == n && all[i] == first[i];
  }

  /** And there are such runs, for every confirmed message: a process with counters from before another
      downlink finds the head's counter wrong and reads the queue; meanwhile the message is sent,
      acknowledged by the device, deleted and reported as delivered; then the rebuild puts it back, and
      it is reported as timed out. */
  lemma MessageNotifiedTwice(env: Env, n: int, a: int, m: int, item: Item) returns (es: seq<Event>)
    requires !InClassB(env) && TimedAsQueued(env, item) && item.confirmed && 0 <= n < UINT32 - 4 && item.fCnt == n + 1
    ensures Run(Initial(env, Counters(false, n, a)), es).Some?
    ensures var notices := Run(Initial(env, Counters(false, n, a)), es).value.notices;
            && notices != [] && notices[0].row.message == m && notices[0].reason == ByDevice
            && TwiceNotified(notices, 1, m, ByTimeout)
  {
    var start := Initial(env, Counters(false, n, a));
    var s;
    es, s := AcknowledgedDuringRebuild(env, n, a, m, item);
    var read := s.procs[2].read;
    var items := Renumbering(read, n);
    OneReplaces(env, items, read, n);
    hide Run, Replaces;
    var more := ResurrectedIsNotifiedAgain(env, Counters(false, n, a), es, 2, items, 0);
    es := es + [ReplaceQueue(2, items)] + more;
  }

  lemma OneReplaces(env: Env, items: seq<Item>, read: seq<Row>, n: int)
    requires |read| == 1 && TimedAsQueued(env, read[0].item) && items == Renumbering(read, n)
    ensures Replaces(env, items, read, Some(n))
  {
    hide GpsNow;
  }

  lemma RebuildDue(env: Env, n: int, a: int, m: int, item: Item) returns (es: seq<Event>, s: State)
    requires !InClassB(env) && TimedAsQueued(env, item) && item.confirmed && 0 <= n < UINT32 - 4 && item.fCnt == n + 1
    ensures Reaches(Initial(env, Counters(false, n, a)), es, s)
    ensures s.env == env && s.counters == Counters(false, n + 1, a) && s.rows == [Row(item.(id := 0), m)]
    ensures s.notices == []
    ensures s.procs == map[2 := Due(Some(n))]
  {
    var start := Initial(env, Counters(false, n, a));
    var size := |item.payload|;
    assert CannotBeSent(env, [item.(id := 0)], n, size);
    hide CannotBeSent, Usable, Replaces, Find, TimedAsQueued, Reaches;
    assert Reaches(start, [], start) by { StartReaches(start); }
    es, s := Extend(start, [], start, Enqueue(m, item, 0));
    assert s.rows == [Row(item.(id := 0), m)];
    es, s := Extend(start, es, s, Begin(2));
    es, s := Extend(start, es, s, MacOnlySent);
    es, s := Extend(start, es, s, Inspect(2, size));
  }

  lemma StartReaches(s: State)
    ensures Reaches(s, [], s)
  {
  }

  lemma SentDuringRebuild(env: Env, n: int, a: int, m: int, item: Item) returns (es: seq<Event>, s: State)
    requires !InClassB(env) && TimedAsQueued(env, item) && item.confirmed && 0 <= n < UINT32 - 4 && item.fCnt == n + 1
    ensures Reaches(Initial(env, Counters(false, n, a)), es, s)
    ensures s.env == env && s.counters == Counters(false, n + 1, a) && s.rows == [Row(item.(id := 0), m)]
    ensures s.notices == []
    ensures s.procs == map[1 := Transmitting(s.rows[0]), 2 := Rebuilding(Some(n), s.rows, {})]
  {
    var start := Initial(env, Counters(false, n, a));
    var size := |item.payload|;
    es, s := RebuildDue(env, n, a, m, item);
    assert Usable(env, s.rows[0].item, n + 1, size);
    hide CannotBeSent, Usable, Replaces, Find, TimedAsQueued, Reaches;
    es, s := Extend(start, es, s, Begin(1));
    es, s := Extend(start, es, s, Transmit(1, size));
    es, s := Extend(start, es, s, ReadQueue(2));
  }

  lemma AcknowledgedDuringRebuild(env: Env, n: int, a: int, m: int, item: Item) returns (es: seq<Event>, s: State)
    requires !InClassB(env) && TimedAsQueued(env, item) && item.confirmed && 0 <= n < UINT32 - 4 && item.fCnt == n + 1
    ensures Reaches(Initial(env, Counters(false, n, a)), es, s)
    ensures s.env == env && s.counters == Counters(false, n + 2, a) && s.rows == []
    ensures |s.notices| == 1 && s.notices[0].reason == ByDevice && s.notices[0].row.message == m
    ensures 2 in s.procs && s.procs[2] == Rebuilding(Some(n), [Row(item.(id := 0), m)], {m})
  {
    var start := Initial(env, Counters(false, n, a));
    es, s := SentDuringRebuild(env, n, a, m, item);
    assert Find(s.rows, 0) == Some(0);
    hide Find;
    es, s := AckedByDevice(start, es, s);
    var none: set<int> := {};
    assert none + {m} == {m} && s.procs[2] == Rebuilding(Some(n), [Row(item.(id := 0), m)], none);
    es, s := DeleteAndNotify(start, es, s, 3);
  }

  /** The gateway reports the head as sent, and the device acknowledges it. */
  lemma AckedByDevice(start: State, es: seq<Event>, s: State) returns (es': seq<Event>, s': State)
    requires Reaches(start, es, s) && |s.rows| == 1 && s.rows[0].item.confirmed
    requires Find(s.rows, s.rows[0].item.id) == Some(0)
    requires 1 in s.procs && s.procs[1] == Transmitting(s.rows[0]) && Idle(s, 3)
    requires !s.counters.lorawan11 && 0 <= s.counters.nFCntDown < UINT32 - 1
    requires s.rows[0].item.fCnt == s.counters.nFCntDown
    ensures Reaches(start, es', s') && s'.env == s.env && s'.notices == s.notices
    ensures s'.counters == s.counters.(nFCntDown := s.counters.nFCntDown + 1)
    ensures |s'.rows| == 1 && s'.rows[0].message == s.rows[0].message
    ensures 3 in s'.procs && s'.procs[3] == Holds(Notice(s'.rows[0], ByDevice))
    ensures forall p :: p in s.procs && p != 1 && p != 3 ==> p in s'.procs && s'.procs[p] == s.procs[p]
  {
    hide CannotBeSent, Usable, Replaces, Find, TimedAsQueued, Reaches, AfterDelete, AfterReplace, AwaitsAck;
    hide HasTimedOut;
    es', s' := Extend(start, es, s, GatewayAck(1, 0));
    es', s' := Extend(start, es', s', Begin(3));
    es', s' := Extend(start, es', s', SelectAck(3));
  }
}
