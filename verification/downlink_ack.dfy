/** Gateway acknowledgements of downlinks (internal/downlink/ack/ack.go): which of the transmitted
    frames an acknowledgement is about, and how it moves the counters and the queue of a device; and
    the device's own acknowledgement in a later uplink (handleUplinkACK in internal/uplink/data/data.go).

    The object is the state of one device: its row, its session, its queue and the downlinks stored
    by token. Multicast, roaming and reporting to the network controller are not part of the model.
 */
module DownlinkAck {
  import opened Options
  import opened Common
  import opened DeviceQueue
  import opened NextQueueItem
  import opened DownlinkFrame

  datatype Status = OK | Failed(code: nat)

  /** Gateways before the introduction of per-item statuses send one error name, or none. */
  datatype LegacyError = NoError | KnownError(status: Status) | UnknownError

  datatype TxAck = TxAck(token: int, items: seq<Status>, legacy: LegacyError)

  /** A stored downlink: for this device or not, the queue item it was built with, and the frames of
      its windows, None standing for one that does not decode to a data frame. */
  datatype StoredFrame = StoredFrame(forDevice: bool, queueItemId: nat, windows: seq<Option<Frame>>)

  datatype Session = Session(counters: Counters, confFCnt: int)

  datatype Profile = Profile(supportsClassC: bool, classCTimeout: int)

  datatype AckError = InvalidError | NoItems | TooManyItems | NoDevice | NoSession | NoQueueItem | Unreachable

  /** The first positive status, the last one when there is none. */
  function DecidingItem(items: seq<Status>): (i: nat)
    requires items != []
    ensures i < |items|
    ensures items[i] == OK ==> forall j :: 0 <= j < i ==> items[j] != OK
    ensures items[i] != OK ==> i == |items| - 1 && OK !in items
  {
    if items[0] == OK || |items| == 1 then 0 else 1 + DecidingItem(items[1..])
  }

  /** The status of the whole acknowledgement, None for an unknown error name. */
  function StatusOf(ack: TxAck): Option<Status> {
    if ack.items != [] then Some(ack.items[DecidingItem(ack.items)])
    else match ack.legacy
         case NoError => Some(OK)
         case KnownError(status) => Some(status)
         case UnknownError => None
  }

  /** The window the acknowledgement is about. */
  function SelectedWindow(ack: TxAck): nat {
    if ack.items == [] then 0 else DecidingItem(ack.items)
  }

  predicate IsApplication(f: Frame) {
    f.fPort.Some? && f.fPort.value != 0
  }

  /** The counters after a frame with an application payload, or with MAC commands only, was sent. */
  function Advance(counters: Counters, application: bool): Counters {
    if application && counters.lorawan11 then counters.(aFCntDown := (counters.aFCntDown + 1) % UINT32)
    else counters.(nFCntDown := (counters.nFCntDown + 1) % UINT32)
  }

  /** The counters after a positive acknowledgement of the frame. */
  function Advanced(counters: Counters, f: Frame): Counters {
    Advance(counters, IsApplication(f))
  }

  class Device {
    const queue: Queue
    var deviceKnown: bool
    var session: Option<Session>
    var frames: map<int, StoredFrame>
    /** Windows handed to the gateway after a negative legacy acknowledgement. */
    var resent: seq<Option<Frame>>

    constructor (queue: Queue, session: Option<Session>)
      ensures this.queue == queue && this.session == session
    {
      this.queue, this.session, deviceKnown, frames, resent := queue, session, true, map[], [];
    }

    /** The status loop of HandleDownlinkTXAck. */
    method AckStatus(ack: TxAck) returns (status: Option<Status>)
      ensures status == StatusOf(ack)
      ensures ack.items == [] && ack.legacy == NoError ==> status == Some(OK)
      ensures ack.items == [] && ack.legacy.KnownError? ==> status == Some(ack.legacy.status)
      ensures ack.items == [] && ack.legacy == UnknownError ==> status == None
      ensures ack.items != [] ==> status == if OK in ack.items then Some(OK) else Some(ack.items[|ack.items| - 1])
    {
      if |ack.items| == 0 {
        match ack.legacy {
          case NoError => status := Some(OK);
          case KnownError(s) => status := Some(s);
          case UnknownError => status := None;
        }
      } else {
        status := Some(ack.items[0]);
        for i := 0 to |ack.items|
          invariant i > 0 ==> status == Some(ack.items[i - 1])
          invariant forall j :: 0 <= j < i ==> ack.items[j] != OK
        {
          status := Some(ack.items[i]);
          if status == Some(OK) {
            break;
          }
        }
      }
    }

    /** The selection of getDownlinkFrame. */
    method SelectFrame(ack: TxAck, stored: StoredFrame) returns (r: Result<Option<Frame>, AckError>)
      ensures r == if stored.windows == [] then Err(NoItems)
                   else if |ack.items| > |stored.windows| then Err(TooManyItems)
                   else Ok(stored.windows[SelectedWindow(ack)])
    {
      if |stored.windows| == 0 {
        return Err(NoItems);
      }
      if |ack.items| != 0 && |ack.items| > |stored.windows| {
        return Err(TooManyItems);
      }
      if |ack.items| == 0 {
        return Ok(stored.windows[0]);
      }
      for i := 0 to |ack.items|
        invariant forall j :: 0 <= j < i ==> ack.items[j] != OK
      {
        if ack.items[i] == OK {
          return Ok(stored.windows[i]);
        }
      }
      r := Ok(stored.windows[|ack.items| - 1]);
    }

    /** The tasks for a positively acknowledged application payload. A failure rolls the queue back;
        the session lives in Redis and stays saved. */
    method AckApplication(stored: StoredFrame, f: Frame, profile: Profile, now: int, asReachable: bool)
      returns (error: Option<AckError>)
      requires queue.Valid() && IsApplication(f)
      modifies this`session, queue
      ensures queue.Valid()
      ensures error == ApplicationError(deviceKnown, old(session), old(queue.rows), stored.queueItemId, asReachable)
      ensures error in {Some(NoDevice), Some(NoSession), Some(NoQueueItem)} ==> session == old(session)
      ensures error in {None, Some(Unreachable)} ==>
                session.Some? && session.value.counters == Advanced(old(session).value.counters, f)
      ensures error.Some? ==> queue.rows == old(queue.rows)
      ensures error.None? ==> ItemHandled(queue.rows, old(queue.rows), stored.queueItemId, f, profile, now)
      ensures error.None? && f.confirmed ==>
                exists row :: row in queue.rows && row.id == stored.queueItemId && session.value.confFCnt == row.fCnt
    {
      hide Queue.Valid;
      if !deviceKnown {
        return Some(NoDevice);
      }
      if session.None? {
        return Some(NoSession);
      }
      var ds := session.value;
      var saved := queue.rows;
      var item := queue.GetDeviceQueueItem(stored.queueItemId);
      if item.Err? {
        return Some(NoQueueItem);
      }
      var qi := item.value;
      if !f.confirmed {
        var _ := queue.DeleteDeviceQueueItem(stored.queueItemId);
      } else {
        queue.OnlyRow(qi);
        var timeout := if profile.supportsClassC then now + profile.classCTimeout * SECOND else now;
        qi := qi.(isPending := true, timeoutAfter := if qi.timeoutAfter.None? then Some(timeout) else qi.timeoutAfter);
        var _ := queue.UpdatePending(qi);
        ds := ds.(confFCnt := qi.fCnt);
      }
      session := Some(ds.(counters := Advanced(ds.counters, f)));
      if !asReachable {
        queue.rows := saved;
        return Some(Unreachable);
      }
      error := None;
    }

    /** The tasks for a positively acknowledged frame of MAC commands only. */
    method AckMacOnly(f: Frame) returns (error: Option<AckError>)
      requires !IsApplication(f)
      modifies this`session
      ensures error == if old(session).None? then Some(NoSession) else None
      ensures session == if old(session).None? then None
                         else Some(old(session).value.(counters := Advanced(old(session).value.counters, f)))
    {
      if session.None? {
        return Some(NoSession);
      }
      var ds := session.value;
      session := Some(ds.(counters := ds.counters.(nFCntDown := (ds.counters.nFCntDown + 1) % UINT32)));
      error := None;
    }

    /** saveDownlinkFrames and sendDownlinkFrame, in this order: for gateways that acknowledge one
        window at a time the stored downlink loses its first window and the next one is meant to be
        sent. The second task counts what the first has left. */
    method RetryLegacy(ack: TxAck, stored: StoredFrame)
      modifies this`frames, this`resent
      ensures if ack.items == [] && |stored.windows| >= 2
              then frames == old(frames)[ack.token := stored.(windows := stored.windows[1..])]
              else frames == old(frames)
      ensures resent == old(resent) + if ack.items == [] && |stored.windows| >= 3 then [stored.windows[2]] else []
    {
      var windows := stored.windows;
      if |ack.items| == 0 && |windows| >= 2 {
        windows := windows[1..];
        frames := frames[ack.token := stored.(windows := windows)];
      }
      if |ack.items| == 0 && |windows| >= 2 {
        resent := resent + [windows[1]];
      }
    }

    /** The whole task table. An unknown token ends it without an error. */
    method HandleDownlinkTXAck(ack: TxAck, profile: Profile, now: int, asReachable: bool)
      returns (error: Option<AckError>)
      requires queue.Valid()
      modifies this`session, this`frames, this`resent, queue
      ensures queue.Valid()
      ensures AckOutcome(ack, profile, now, asReachable, deviceKnown, old(frames), old(session), old(queue.rows),
                         session, queue.rows, error)
    {
      var status := AckStatus(ack);
      if status.None? {
        return Some(InvalidError);
      }
      if ack.token !in frames {
        return None;
      }
      var stored := frames[ack.token];
      var selected := SelectFrame(ack, stored);
      if selected.Err? {
        return Some(selected.error);
      }
      error := None;
      if status.value != OK {
        RetryLegacy(ack, stored);
      } else if stored.forDevice && selected.value.Some? {
        var f := selected.value.value;
        if IsApplication(f) {
          error := AckApplication(stored, f, profile, now, asReachable);
        } else {
          error := AckMacOnly(f);
        }
      }
    }

    /** handleUplinkACK: the device acknowledges the downlink at the head of its queue. The notice to
        the application server follows the deletion, so an error of the server does not undo it. */
    method HandleUplinkAck(ackBit: bool, counters: Counters, asReachable: bool)
      returns (error: Option<AckError>, acknowledged: Option<int>)
      requires queue.Valid()
      modifies queue
      ensures queue.Valid()
      ensures CompletesHead(ackBit, old(queue.rows), counters) ==>
                && queue.rows == old(queue.rows)[1..] && acknowledged == Some(old(queue.rows)[0].fCnt)
                && error == if asReachable then None else Some(Unreachable)
      ensures !CompletesHead(ackBit, old(queue.rows), counters) ==>
                queue.rows == old(queue.rows) && acknowledged == None && error == None
      ensures !ackBit || old(queue.rows) == [] || !old(queue.rows)[0].isPending ==> acknowledged == None
      ensures acknowledged.Some? ==> (acknowledged.value + 1) % UINT32 == counters.nFCntDown % UINT32
      ensures acknowledged.Some? ==> acknowledged.value == old(queue.rows)[0].fCnt && queue.rows == old(queue.rows)[1..]
    {
      error, acknowledged := None, None;
      if !ackBit || queue.rows == [] || !queue.rows[0].isPending {
        return;
      }
      var qi := queue.rows[0];
      if qi.fCnt != (counters.nFCntDown - 1) % UINT32 {
        return;
      }
      assert queue.rows[..0] + queue.rows[1..] == queue.rows[1..];
      var deleted := queue.DeleteDeviceQueueItem(qi.id);
      assert deleted.None?;
      acknowledged := Some(qi.fCnt);
      error := if asReachable then None else Some(Unreachable);
    }
  }

  /** A device's acknowledgement is taken to be about a pending head of the queue whose counter is one
      below the network counter. */
  predicate CompletesHead(ackBit: bool, rows: seq<Item>, counters: Counters) {
    ackBit && rows != [] && rows[0].isPending && rows[0].fCnt == (counters.nFCntDown - 1) % UINT32
  }

  /** What handling an acknowledgement does to the session and the queue. */
  ghost predicate AckOutcome(ack: TxAck, profile: Profile, now: int, asReachable: bool, deviceKnown: bool,
                             frames: map<int, StoredFrame>,
                             session: Option<Session>, rows: seq<Item>, session': Option<Session>, rows': seq<Item>,
                             error: Option<AckError>) {
    // Unless a frame of this device was sent, no counter and no item moves.
    && (!ReportsSent(ack, frames) ==> session' == session && rows' == rows)
    && (ReportsSent(ack, frames) ==>
          var f := SelectedFrame(ack, frames).value;
          // A sent frame moves exactly its own counter, unless an error keeps the session from being saved.
          && (if error in {None, Some(Unreachable)}
              then session.Some? && session'.Some? && session'.value.counters == Advanced(session.value.counters, f)
              else session' == session && rows' == rows)
          // An application frame also completes its queue item; if the item is gone nothing moves at all.
          && (IsApplication(f) ==>
                && error == ApplicationError(deviceKnown, session, rows, frames[ack.token].queueItemId, asReachable)
                && (error.None? ==> ItemHandled(rows', rows, frames[ack.token].queueItemId, f, profile, now))
                && (error.Some? ==> rows' == rows))
          && (!IsApplication(f) ==> error == (if session.None? then Some(NoSession) else None) && rows' == rows))
  }

  /** Why a sent application frame may not be completed. */
  ghost function ApplicationError(deviceKnown: bool, session: Option<Session>, rows: seq<Item>, id: nat,
                                  asReachable: bool): Option<AckError> {
    if !deviceKnown then Some(NoDevice)
    else if session.None? then Some(NoSession)
    else if forall row :: row in rows ==> row.id != id then Some(NoQueueItem)
    else if !asReachable then Some(Unreachable)
    else None
  }

  /** The acknowledgement tells that a data frame of this device was sent. */
  ghost predicate ReportsSent(ack: TxAck, frames: map<int, StoredFrame>) {
    StatusOf(ack) == Some(OK) && SelectedFrame(ack, frames).Some? && frames[ack.token].forDevice
  }

  /** The queue after a sent application frame: an unconfirmed item is gone, a confirmed one waits
      for the device; all others are as before. */
  ghost predicate ItemHandled(rows: seq<Item>, before: seq<Item>, id: nat, f: Frame, profile: Profile, now: int) {
    if f.confirmed then
      && |rows| == |before|
      && forall i :: 0 <= i < |rows| ==>
                       if before[i].id == id then IsAwaiting(rows[i], before[i], profile, now) else rows[i] == before[i]
    else
      forall row :: row in rows <==> row in before && row.id != id
  }

  /** The frame of the window that the acknowledgement selects, if the acknowledgement is acceptable. */
  ghost function SelectedFrame(ack: TxAck, frames: map<int, StoredFrame>): Option<Frame> {
    if ack.token in frames && frames[ack.token].windows != [] && |ack.items| <= |frames[ack.token].windows|
    then frames[ack.token].windows[SelectedWindow(ack)] else None
  }

  /** A confirmed downlink that now waits for the device: pending, with the Class-C timeout unless it
      already had one. */
  ghost predicate IsAwaiting(row: Item, before: Item, profile: Profile, now: int) {
    && row.isPending
    && row == before.(isPending := true,
                      timeoutAfter :=
                        if before.timeoutAfter.Some? then before.timeoutAfter
                        else Some(now + if profile.supportsClassC then profile.classCTimeout * SECOND else 0))
  }

  /** Status and selection always agree: the whole counts as sent exactly when the selected window
      was, and then it is the first that was. */
  lemma {:induction false} StatusMatchesSelection(ack: TxAck)
    requires ack.items != []
    ensures StatusOf(ack) == Some(ack.items[SelectedWindow(ack)])
    ensures StatusOf(ack) == Some(OK) <==> OK in ack.items
    ensures StatusOf(ack) == Some(OK) ==> forall j :: 0 <= j < SelectedWindow(ack) ==> ack.items[j] != OK
    ensures StatusOf(ack) != Some(OK) ==> SelectedWindow(ack) == |ack.items| - 1
  {
    if OK in ack.items {
      var i := DecidingItem(ack.items);
      assert ack.items[i] == OK;
    }
  }

  /** What it means that a confirmed downlink waits for the device. Without a timeout from Class-B it is
      held back for the Class-C timeout, and in Class-A it has timed out a moment later. */
  lemma AwaitingMeans(row: Item, before: Item, profile: Profile, now: int, t: int)
    requires IsAwaiting(row, before, profile, now)
    ensures row.isPending && row.fCnt == before.fCnt && row.payload == before.payload && row.id == before.id
    ensures before.timeoutAfter.Some? ==> row.timeoutAfter == before.timeoutAfter
    ensures before.timeoutAfter.None? && profile.supportsClassC ==>
              && (AwaitsAck(row, t) <==> t < now + profile.classCTimeout * 1_000_000_000)
              && (HasTimedOut(row, t) <==> t > now + profile.classCTimeout * 1_000_000_000)
    ensures before.timeoutAfter.None? && !profile.supportsClassC ==>
              (AwaitsAck(row, t) <==> t < now) && (HasTimedOut(row, t) <==> t > now)
  {
  }

  /** A frame with a port other than 0 carries application data; its sending advances the application
      counter of LoRaWAN 1.1 devices, and the network counter in every other case. */
  lemma AdvancedMeans(counters: Counters, f: Frame)
    requires 0 <= counters.nFCntDown < UINT32 - 1 && 0 <= counters.aFCntDown < UINT32 - 1
    ensures var application := f.fPort.Some? && f.fPort.value != 0; var after := Advanced(counters, f);
            && after.lorawan11 == counters.lorawan11
            && after.aFCntDown == counters.aFCntDown + (if application && counters.lorawan11 then 1 else 0)
            && after.nFCntDown == counters.nFCntDown + (if application && counters.lorawan11 then 0 else 1)
  {
  }

  /** The selected window: the first one that was sent, else the last one reported, and the first of the
      downlink for a gateway that reports none. */
  lemma {:induction false} SelectedWindowMeans(ack: TxAck)
    ensures ack.items == [] ==> SelectedWindow(ack) == 0
    ensures ack.items != [] && OK !in ack.items ==> SelectedWindow(ack) == |ack.items| - 1
    ensures OK in ack.items ==> SelectedWindow(ack) < |ack.items| && ack.items[SelectedWindow(ack)] == OK
    ensures OK in ack.items ==> forall j :: 0 <= j < SelectedWindow(ack) ==> ack.items[j] != OK
  {
  }

  /** A data frame counts as sent when the token is known, belongs to the device, has at least as many
      windows as statuses were reported, and the window that decides was sent and decodes. */
  lemma ReportsSentMeans(ack: TxAck, frames: map<int, StoredFrame>)
    ensures ReportsSent(ack, frames) <==>
            && ack.token in frames && frames[ack.token].forDevice
            && frames[ack.token].windows != [] && |ack.items| <= |frames[ack.token].windows|
            && (if ack.items != [] then OK in ack.items else ack.legacy in {NoError, KnownError(OK)})
            && frames[ack.token].windows[SelectedWindow(ack)].Some?
  {
    SelectedWindowMeans(ack);
  }

  /** A sent application frame is completed exactly when device, session and item are there and the
      application server can be told; the first thing missing is the error. */
  lemma ApplicationErrorMeans(known: bool, session: Option<Session>, rows: seq<Item>, id: nat, asReachable: bool)
    ensures var error := ApplicationError(known, session, rows, id, asReachable);
            var queued := exists row :: row in rows && row.id == id;
            && (error == None <==> known && session.Some? && queued && asReachable)
            && (error == Some(NoDevice) <==> !known)
            && (error == Some(NoSession) <==> known && session.None?)
            && (error == Some(NoQueueItem) <==> known && session.Some? && !queued)
            && (error == Some(Unreachable) <==> known && session.Some? && queued && !asReachable)
  {
  }

  // The device's acknowledgement

  /** The counters after a number of further downlinks that carry MAC commands only. */
  function AdvancedBy(counters: Counters, macOnly: seq<Frame>): Counters {
    if macOnly == [] then counters else Advanced(AdvancedBy(counters, macOnly[..|macOnly| - 1]), macOnly[|macOnly| - 1])
  }

  lemma {:induction false} AdvancedByIs(counters: Counters, macOnly: seq<Frame>)
    requires 0 <= counters.nFCntDown < UINT32 && forall i :: 0 <= i < |macOnly| ==> !IsApplication(macOnly[i])
    ensures AdvancedBy(counters, macOnly) == counters.(nFCntDown := (counters.nFCntDown + |macOnly|) % UINT32)
  {
    if macOnly != [] {
      AdvancedByIs(counters, macOnly[..|macOnly| - 1]);
      WrapForward(counters.nFCntDown + |macOnly| - 1, 1);
    }
  }

  /** A confirmed downlink that a gateway has sent is completed by the device's acknowledgement exactly
      when nothing else was sent in between, for a LoRaWAN 1.0 device. For a LoRaWAN 1.1 device, whose
      application frames do not move the network counter, it takes a coincidence of the two counters. */
  lemma UplinkAckCompletesIff(counters: Counters, f: Frame, macOnly: seq<Frame>, before: seq<Item>, rows: seq<Item>,
                              profile: Profile, now: int)
    requires 0 <= counters.nFCntDown < UINT32 && 0 <= counters.aFCntDown < UINT32
    requires IsApplication(f) && f.confirmed && f.fCnt == ExpectedFCnt(counters)
    requires before != [] && before[0].fCnt == f.fCnt && ItemHandled(rows, before, before[0].id, f, profile, now)
    requires |macOnly| < UINT32 && forall i :: 0 <= i < |macOnly| ==> !IsApplication(macOnly[i])
    ensures CompletesHead(true, rows, AdvancedBy(Advanced(counters, f), macOnly)) <==>
            if counters.lorawan11 then counters.aFCntDown == (counters.nFCntDown + |macOnly| - 1) % UINT32
            else macOnly == []
  {
    assert IsAwaiting(rows[0], before[0], profile, now);
    assert rows[0].isPending && rows[0].fCnt == f.fCnt;
    NetworkCounterAfter(counters, f, macOnly);
    hide ItemHandled, IsAwaiting;
    var sent := |macOnly| + if counters.lorawan11 then 0 else 1;
    WrapBack(counters.nFCntDown + sent);
    SameAfter(counters.nFCntDown, |macOnly|);
  }

  lemma NetworkCounterAfter(counters: Counters, f: Frame, macOnly: seq<Frame>)
    requires 0 <= counters.nFCntDown < UINT32 && IsApplication(f)
    requires forall i :: 0 <= i < |macOnly| ==> !IsApplication(macOnly[i])
    ensures AdvancedBy(Advanced(counters, f), macOnly).nFCntDown ==
            (counters.nFCntDown + (|macOnly| + if counters.lorawan11 then 0 else 1)) % UINT32
  {
    AdvancedByIs(Advanced(counters, f), macOnly);
    WrapForward(counters.nFCntDown + 1, |macOnly|);
  }

  lemma WrapForward(x: int, n: int)
    ensures (x % UINT32 + n) % UINT32 == (x + n) % UINT32
  {
  }

  lemma WrapBack(x: int)
    ensures (x % UINT32 - 1) % UINT32 == (x - 1) % UINT32
  {
  }

  lemma SameAfter(x: int, n: int)
    requires 0 <= x < UINT32 && 0 <= n < UINT32
    ensures x == (x + n) % UINT32 <==> n == 0
  {
  }

  // Counters over a run of downlinks

  /** A frame that a gateway has reported as sent. itemGone tells that its queue item was found deleted,
      so that its counter was not advanced. */
  datatype Sent = Sent(kind: CounterKind, value: int, itemGone: bool)

  /** One device: its counters, the downlink that awaits its gateway acknowledgement, and all frames
      sent so far. */
  datatype Line = Line(counters: Counters, outstanding: Option<Frame>, acked: seq<Sent>)

  /** Send names the frame of the window that will be selected. AckedWithoutItem is a positive
      acknowledgement that finds the frame's queue item, or its device, deleted. */
  datatype Event = Send(frame: Frame) | Acked | AckedWithoutItem | NotSent

  predicate PortFitsBody(f: Frame) {
    IsApplication(f) <==> f.body.Application?
  }

  function Step(s: Line, e: Event): Option<Line> {
    match e
    case Send(f) =>
      if s.outstanding.None? && PortFitsBody(f) && f.fCnt == Value(s.counters, KindOf(f, s.counters))
      then Some(s.(outstanding := Some(f)))
      else None
    case Acked =>
      if s.outstanding.None? then None
      else var f := s.outstanding.value;
           Some(Line(Advanced(s.counters, f), None, s.acked + [Sent(KindOf(f, s.counters), f.fCnt, false)]))
    case AckedWithoutItem =>
      if s.outstanding.None? || !IsApplication(s.outstanding.value) then None
      else var f := s.outstanding.value;
           Some(Line(s.counters, None, s.acked + [Sent(KindOf(f, s.counters), f.fCnt, true)]))
    case NotSent =>
      if s.outstanding.None? then None else Some(s.(outstanding := None))
  }

  function Run(s: Line, es: seq<Event>): Option<Line>
    decreases |es|
  {
    if es == [] then Some(s)
    else if Step(s, es[0]).None? then None else Run(Step(s, es[0]).value, es[1..])
  }

  /** The event that an acknowledgement of the outstanding downlink amounts to. */
  ghost function EventOf(ack: TxAck, frames: map<int, StoredFrame>, error: Option<AckError>): Event {
    if !ReportsSent(ack, frames) then NotSent
    else if error in {None, Some(Unreachable)} then Acked
    else AckedWithoutItem
  }

  /** These steps are what the code does: a downlink that is packed around the item the selection loop
      found usable, and whose acknowledgement is handled before the session changes otherwise, is a
      Send followed by the event its acknowledgement amounts to, with the session's counters. */
  lemma DownlinkIsStep(env: Env, c: Content, limit: int, n: nat, w: Window, ack: TxAck, frames: map<int, StoredFrame>,
                       profile: Profile, now: int, asReachable: bool, deviceKnown: bool,
                       session: Session, rows: seq<Item>, session': Option<Session>, rows': seq<Item>,
                       error: Option<AckError>, acked: seq<Sent>)
    requires c.item.Some? ==>
              c.item.value.fPort != 0 && exists max :: Usable(env, c.item.value, ExpectedFCnt(c.counters), max)
    requires LongestFit(c.blocks, n, limit) && IsPacked(c, limit, n, w)
    requires c.counters == session.counters
    requires SelectedFrame(ack, frames).Some? ==> SelectedFrame(ack, frames) == w.frame
    requires AckOutcome(ack, profile, now, asReachable, deviceKnown, frames, Some(session), rows, session', rows',
                        error)
    ensures var f := w.frame.value; var sent := Step(Line(session.counters, None, acked), Send(f));
            var event := EventOf(ack, frames, error);
            var report := Sent(KindOf(f, c.counters), f.fCnt, event.AckedWithoutItem?);
            && sent.Some? && session'.Some?
            && Step(sent.value, event) ==
               Some(Line(session'.value.counters, None,
                         acked + if ReportsSent(ack, frames) then [report] else []))
  {
    var f := w.frame.value;
    if c.item.Some? {
      var max :| Usable(env, c.item.value, ExpectedFCnt(c.counters), max);
    }
    CarriesCurrentCounter(c, limit, n, w);
    assert PortFitsBody(f);
    hide IsPacked, LongestFit, ItemHandled;
    assert acked + [] == acked;
  }

  ghost predicate NoCounterTwice(acked: seq<Sent>) {
    forall i, j :: 0 <= i < j < |acked| ==> !(acked[i].kind == acked[j].kind && acked[i].value == acked[j].value)
  }

  function Following(sent: Sent): int {
    if sent.itemGone then sent.value else sent.value + 1
  }

  /** The counter of a kind after the given frames. */
  function CountAfter(start: Counters, acked: seq<Sent>, kind: CounterKind): int {
    if acked == [] then Value(start, kind)
    else if acked[|acked| - 1].kind == kind then Following(acked[|acked| - 1])
    else CountAfter(start, acked[..|acked| - 1], kind)
  }

  /** Every frame was sent under the counter that its predecessors left. */
  ghost predicate Consistent(start: Counters, acked: seq<Sent>) {
    forall i :: 0 <= i < |acked| ==> acked[i].value == CountAfter(start, acked[..i], acked[i].kind)
  }

  /** The frames sent so far lead from the counters at the start to the current ones; room is left. */
  ghost predicate LeadsTo(start: Counters, s: Line, room: int) {
    && 0 <= s.counters.nFCntDown && s.counters.nFCntDown + room < UINT32
    && 0 <= s.counters.aFCntDown && s.counters.aFCntDown + room < UINT32
    && Consistent(start, s.acked)
    && (forall kind :: Value(s.counters, kind) == CountAfter(start, s.acked, kind))
    && (s.outstanding.Some? ==>
          var f := s.outstanding.value;
          PortFitsBody(f) && f.fCnt == Value(s.counters, KindOf(f, s.counters)))
  }

  /** An acknowledged frame advances exactly the counter whose value it carried. */
  lemma AdvancedIs(counters: Counters, f: Frame)
    requires PortFitsBody(f) && 0 <= counters.nFCntDown < UINT32 - 1 && 0 <= counters.aFCntDown < UINT32 - 1
    ensures forall kind :: Value(Advanced(counters, f), kind) ==
                           Value(counters, kind) + if kind == KindOf(f, counters) then 1 else 0
    ensures Advanced(counters, f).lorawan11 == counters.lorawan11
  {
  }

  lemma ConsistentSnoc(start: Counters, acked: seq<Sent>, sent: Sent)
    requires Consistent(start, acked) && sent.value == CountAfter(start, acked, sent.kind)
    ensures Consistent(start, acked + [sent])
    ensures forall kind :: CountAfter(start, acked + [sent], kind) == if kind == sent.kind then Following(sent)
                                                                      else CountAfter(start, acked, kind)
  {
    var longer := acked + [sent];
    assert longer[..|acked|] == acked;
    forall i | 0 <= i < |longer| ensures longer[i].value == CountAfter(start, longer[..i], longer[i].kind) {
      assert longer[..i] == acked[..i];
    }
  }

  lemma LeadsToStep(start: Counters, s: Line, e: Event, room: nat)
    requires LeadsTo(start, s, room + 1) && Step(s, e).Some?
    ensures LeadsTo(start, Step(s, e).value, room)
  {
    hide Consistent, CountAfter;
    if e.Acked? || e.AckedWithoutItem? {
      var f := s.outstanding.value;
      AdvancedIs(s.counters, f);
      ConsistentSnoc(start, s.acked, Sent(KindOf(f, s.counters), f.fCnt, e.AckedWithoutItem?));
    }
  }

  lemma {:induction false} LeadsToRun(start: Counters, s: Line, es: seq<Event>)
    requires LeadsTo(start, s, |es|) && Run(s, es).Some?
    ensures LeadsTo(start, Run(s, es).value, 0)
    decreases |es|
  {
    if es != [] {
      LeadsToStep(start, s, es[0], |es| - 1);
      LeadsToRun(start, Step(s, es[0]).value, es[1..]);
    }
  }

  /** Counters of a kind never fall, and stand still only behind frames whose item was gone. */
  lemma {:induction false} CountGrows(start: Counters, acked: seq<Sent>, i: nat, j: nat)
    requires Consistent(start, acked) && i < j <= |acked|
    ensures Following(acked[i]) <= CountAfter(start, acked[..j], acked[i].kind)
    ensures (forall k :: i < k < j ==> acked[k].kind != acked[i].kind) ==>
              CountAfter(start, acked[..j], acked[i].kind) == Following(acked[i])
    decreases j
  {
    assert acked[..j][..j - 1] == acked[..j - 1];
    if i < j - 1 {
      CountGrows(start, acked, i, j - 1);
    }
  }

  /** The first later frame of the same kind. */
  lemma {:induction false} NextOfKind(acked: seq<Sent>, i: nat, j: nat) returns (n: nat)
    requires i < j < |acked| && acked[j].kind == acked[i].kind
    ensures i < n <= j && acked[n].kind == acked[i].kind && forall k :: i < k < n ==> acked[k].kind != acked[i].kind
    decreases j
  {
    n := j;
    if k :| i < k < j && acked[k].kind == acked[i].kind {
      n := NextOfKind(acked, i, k);
    }
  }

  lemma RepeatedIff(start: Counters, acked: seq<Sent>)
    requires Consistent(start, acked)
    ensures NoCounterTwice(acked) <==>
              forall i, j :: 0 <= i < j < |acked| && acked[i].itemGone ==> acked[i].kind != acked[j].kind
  {
    hide Consistent, CountAfter;
    forall i, j | 0 <= i < j < |acked| && acked[i].kind == acked[j].kind ensures Following(acked[i]) <= acked[j].value {
      CountGrows(start, acked, i, j);
      ValueIs(start, acked, j);
    }
    if i, j :| 0 <= i < j < |acked| && acked[i].itemGone && acked[i].kind == acked[j].kind {
      var n := NextOfKind(acked, i, j);
      CountGrows(start, acked, i, n);
      ValueIs(start, acked, n);
    }
  }

  lemma ValueIs(start: Counters, acked: seq<Sent>, i: nat)
    requires Consistent(start, acked) && i < |acked|
    ensures acked[i].value == CountAfter(start, acked[..i], acked[i].kind)
  {
  }

  /** With one downlink under way at a time, a counter of a kind is used twice exactly when a frame whose
      item was gone is followed by another sent frame of its kind. */
  lemma CountersReusedIff(counters: Counters, es: seq<Event>)
    requires 0 <= counters.nFCntDown && counters.nFCntDown + |es| < UINT32 && 0 <= counters.aFCntDown
    requires counters.aFCntDown + |es| < UINT32
    requires Run(Line(counters, None, []), es).Some?
    ensures var acked := Run(Line(counters, None, []), es).value.acked;
            NoCounterTwice(acked) <==>
            forall i, j :: 0 <= i < j < |acked| && acked[i].itemGone ==> acked[i].kind != acked[j].kind
  {
    LeadsToRun(counters, Line(counters, None, []), es);
    RepeatedIff(counters, Run(Line(counters, None, []), es).value.acked);
  }

  /** So none is, as long as no acknowledgement finds its queue item gone. */
  lemma CountersNeverReused(counters: Counters, es: seq<Event>)
    requires 0 <= counters.nFCntDown && counters.nFCntDown + |es| < UINT32 && 0 <= counters.aFCntDown
    requires counters.aFCntDown + |es| < UINT32
    requires Run(Line(counters, None, []), es).Some? && AckedWithoutItem !in es
    ensures NoCounterTwice(Run(Line(counters, None, []), es).value.acked)
  {
    NoneGone(Line(counters, None, []), es);
    CountersReusedIff(counters, es);
  }

  lemma {:induction false} NoneGone(s: Line, es: seq<Event>)
    requires Run(s, es).Some? && AckedWithoutItem !in es && forall i :: 0 <= i < |s.acked| ==> !s.acked[i].itemGone
    ensures forall i :: 0 <= i < |Run(s, es).value.acked| ==> !Run(s, es).value.acked[i].itemGone
    decreases |es|
  {
    if es != [] {
      assert es[0] in es;
      NoneGone(Step(s, es[0]).value, es[1..]);
    }
  }

  /** The exception is real, for every session and application frame: an item deleted between
      transmission and acknowledgement, and the next application frame is sent under the same value. */
  lemma CounterReused(counters: Counters, f: Frame)
    requires PortFitsBody(f) && IsApplication(f) && f.fCnt == Value(counters, KindOf(f, counters))
    ensures var es := [Send(f), AckedWithoutItem, Send(f), Acked];
            var s := Line(counters, None, []);
            Run(s, es).Some? && !NoCounterTwice(Run(s, es).value.acked)
  {
    var es := [Send(f), AckedWithoutItem, Send(f), Acked];
    var gone, sent := Sent(KindOf(f, counters), f.fCnt, true), Sent(KindOf(f, counters), f.fCnt, false);
    var s0 := Line(counters, None, []);
    var s1 := Line(counters, Some(f), []);
    var s2 := Line(counters, None, [gone]);
    var s3 := Line(counters, Some(f), [gone]);
    assert [] + [gone] == [gone];
    assert Step(s0, es[0]) == Some(s1) && Step(s1, es[1]) == Some(s2) && Step(s2, es[2]) == Some(s3);
    assert es[1..][1..] == es[2..] && es[2..][1..] == es[3..] && es[3..][1..] == [];
    var s4 := Step(s3, es[3]).value;
    assert s4.acked == [gone, sent];
    assert Run(s3, es[3..]) == Run(s4, []);
    assert Run(s2, es[2..]) == Run(s3, es[3..]);
    assert Run(s1, es[1..]) == Run(s2, es[2..]);
    assert s4.acked[0] == gone && s4.acked[1] == sent;
  }
}
