/** Acceptance of data uplinks: 16-to-32-bit frame counters, the choice of the session by MIC and
    counter, and the uplink history (internal/storage/device_session.go, internal/uplink/data/data.go;
    section 4.3.1.5 of the LoRaWAN 1.1 specification).

    The MIC check is an arbitrary predicate on sessions and full counters; the results about runs
    assume that a frame verifies only under the counter it was signed with.
 */
module UplinkSession {

  import opened Common
  const HISTORY_SIZE: nat := 20

  // Full frame counters

  /** All operations wrap as on uint32 and uint16. */
  function GetFullFCntUp(nextExpected: int, truncated: int): int {
    if truncated == (nextExpected % UINT16 - 1) % UINT16 then (nextExpected - 1) % UINT32
    else (nextExpected + (truncated % UINT16 - nextExpected % UINT16) % UINT16) % UINT32
  }

  /** x lies among the 65536 counters that start one before the next expected one. */
  predicate InWindow(nextExpected: int, x: int) {
    (x - (nextExpected - 1)) % UINT32 < UINT16
  }

  lemma Wrap32(x: int)
    requires -UINT32 <= x < 2 * UINT32
    ensures x % UINT32 == if x < 0 then x + UINT32 else if x < UINT32 then x else x - UINT32
  {
  }

  /** The result spelled out: high part of the next expected counter, one more when the received
      low bits have rolled over, one less when the previous frame is received again across it. */
  lemma FullFCntCases(high: int, low: int, truncated: int)
    requires 0 <= high < UINT16 && 0 <= low < UINT16 && 0 <= truncated < UINT16
    ensures GetFullFCntUp(high * UINT16 + low, truncated) ==
            (high + HighStep(low, truncated)) % UINT16 * UINT16 + truncated
  {
    var next := high * UINT16 + low;
    Wrap16(high, low);
    Wrap32(next - 1);
    Wrap16(0, truncated);
    Wrap32(next + truncated - low);
    Wrap32(next + truncated - low + UINT16);
    Step16(low - 1);
    Step16(truncated - low);
    Step16(high + HighStep(low, truncated));
  }

  function HighStep(low: int, truncated: int): int {
    if low == 0 && truncated == UINT16 - 1 then -1 else if truncated < low - 1 then 1 else 0
  }

  lemma Wrap16(high: int, low: int)
    requires 0 <= low < UINT16
    ensures (high * UINT16 + low) % UINT16 == low
  {
  }

  lemma Step16(x: int)
    requires -UINT16 <= x < 2 * UINT16
    ensures x % UINT16 == if x < 0 then x + UINT16 else if x < UINT16 then x else x - UINT16
  {
  }

  lemma FullFCntInWindow(nextExpected: int, truncated: int)
    requires 0 <= nextExpected < UINT32 && 0 <= truncated < UINT16
    ensures var r := GetFullFCntUp(nextExpected, truncated);
            0 <= r < UINT32 && r % UINT16 == truncated && InWindow(nextExpected, r)
  {
    var high, low := nextExpected / UINT16, nextExpected % UINT16;
    FullFCntCases(high, low, truncated);
    hide GetFullFCntUp;
    var r := GetFullFCntUp(nextExpected, truncated);
    Step16(high + HighStep(low, truncated));
    Wrap16((high + HighStep(low, truncated)) % UINT16, truncated);
    Wrap32(r - (nextExpected - 1));
  }

  lemma WindowUnique(nextExpected: int, x: int, y: int)
    requires 0 <= nextExpected < UINT32 && 0 <= x < UINT32 && 0 <= y < UINT32
    requires InWindow(nextExpected, x) && InWindow(nextExpected, y) && x % UINT16 == y % UINT16
    ensures x == y
  {
    Wrap32(x - (nextExpected - 1));
    Wrap32(y - (nextExpected - 1));
  }

  /** The result is the one counter of the window that has the received low bits. */
  lemma FullFCntUnique(nextExpected: int, truncated: int, x: int)
    requires 0 <= nextExpected < UINT32 && 0 <= truncated < UINT16 && 0 <= x < UINT32
    ensures x == GetFullFCntUp(nextExpected, truncated) <==> x % UINT16 == truncated && InWindow(nextExpected, x)
  {
    hide GetFullFCntUp, InWindow;
    FullFCntInWindow(nextExpected, truncated);
    if x % UINT16 == truncated && InWindow(nextExpected, x) {
      WindowUnique(nextExpected, x, GetFullFCntUp(nextExpected, truncated));
    }
  }

  // Choosing the session of a received frame

  datatype Uplink = Uplink(fCnt: int, maxSNR: real, txPowerIndex: int, gatewayCount: nat)

  datatype Session = Session(devEUI: int, fCntUp: int, skipFCntValidation: bool, dr: int, txPowerIndex: int,
                             history: seq<Uplink>)

  datatype Lookup =
    | Found(session: Session)
    | DoesNotExist
    | Retransmission(session: Session)
    | CounterReset(session: Session)
    | InvalidMIC(session: Session)

  /** The counters tried for a session: the reconstructed one, then the received one as it is. */
  function Tried(ds: Session, received: int): seq<int> {
    [GetFullFCntUp(ds.fCntUp, received), received]
  }

  predicate Verifies(mic: (Session, int) -> bool, ds: Session, received: int) {
    mic(ds, Tried(ds, received)[0]) || mic(ds, Tried(ds, received)[1])
  }

  /** The counter under which the session verifies, the reconstructed one being preferred. */
  function VerifiedFCnt(mic: (Session, int) -> bool, ds: Session, received: int): int {
    if mic(ds, Tried(ds, received)[0]) then Tried(ds, received)[0] else received
  }

  /** What a verified counter means for the session. */
  function Classify(ds: Session, fCnt: int): Lookup {
    if ds.fCntUp <= fCnt then Found(ds)
    else if ds.skipFCntValidation then Found(ds.(fCntUp := 0, history := []))
    else if fCnt == ds.fCntUp - 1 then Retransmission(ds)
    else CounterReset(ds)
  }

  /** A session below whose expected counter the frame lies is found only when checks are skipped, and is
      then reset; otherwise the frame is a retransmission of the last one, or older. */
  ghost predicate ClassifiedAs(r: Lookup, ds: Session, fCnt: int) {
    match r
    case Found(s) =>
      if ds.fCntUp <= fCnt then s == ds
      else ds.skipFCntValidation && s == ds.(fCntUp := 0, history := [])
    case Retransmission(s) => s == ds && !ds.skipFCntValidation && fCnt + 1 == ds.fCntUp
    case CounterReset(s) => s == ds && !ds.skipFCntValidation && fCnt + 1 < ds.fCntUp
    case _ => false
  }

  lemma ClassifyMeans(ds: Session, fCnt: int)
    ensures ClassifiedAs(Classify(ds, fCnt), ds, fCnt)
    ensures Classify(ds, fCnt).Found? <==> ds.fCntUp <= fCnt || ds.skipFCntValidation
  {
  }

  /** The loop over the sessions of a device address: the first session that verifies decides, and
      the frame's counter is left rewritten to the one it verified under. */
  method GetDeviceSessionForPHYPayload(sessions: seq<Session>, received: int, mic: (Session, int) -> bool)
    returns (result: Lookup, fCnt: int)
    ensures sessions == [] ==> result == DoesNotExist
    ensures sessions != [] && (forall i :: 0 <= i < |sessions| ==> !Verifies(mic, sessions[i], received)) ==>
              result == InvalidMIC(sessions[0])
    ensures forall i :: 0 <= i < |sessions| && Verifies(mic, sessions[i], received)
                        && (forall j :: 0 <= j < i ==> !Verifies(mic, sessions[j], received)) ==>
                          fCnt == VerifiedFCnt(mic, sessions[i], received) && result == Classify(sessions[i], fCnt)
  {
    hide Verifies, VerifiedFCnt;
    fCnt := received;
    if sessions == [] {
      return DoesNotExist, fCnt;
    }
    for i := 0 to |sessions|
      invariant forall j :: 0 <= j < i ==> !Verifies(mic, sessions[j], received)
    {
      var ds := sessions[i];
      var micOK;
      micOK, fCnt := TryCounters(ds, received, mic);
      if micOK {
        if fCnt >= ds.fCntUp {
          return Found(ds), fCnt;
        } else if ds.skipFCntValidation {
          return Found(ds.(fCntUp := 0, history := [])), fCnt;
        } else if fCnt == ds.fCntUp - 1 {
          return Retransmission(ds), fCnt;
        } else {
          return CounterReset(ds), fCnt;
        }
      }
    }
    result := InvalidMIC(sessions[0]);
  }

  /** The inner loop: the MIC is checked under the reconstructed and then the received counter. */
  method TryCounters(ds: Session, received: int, mic: (Session, int) -> bool) returns (micOK: bool, fCnt: int)
    ensures micOK <==> Verifies(mic, ds, received)
    ensures micOK ==> fCnt == VerifiedFCnt(mic, ds, received)
    ensures micOK <==> mic(ds, GetFullFCntUp(ds.fCntUp, received)) || mic(ds, received)
    ensures micOK ==> mic(ds, fCnt)
    ensures mic(ds, GetFullFCntUp(ds.fCntUp, received)) ==> fCnt == GetFullFCntUp(ds.fCntUp, received)
  {
    hide GetFullFCntUp;
    var tried := Tried(ds, received);
    fCnt := received;
    for k := 0 to |tried|
      invariant forall j :: 0 <= j < k ==> !mic(ds, tried[j])
    {
      fCnt := tried[k];
      if mic(ds, fCnt) {
        return true, fCnt;
      }
    }
    micOK := false;
  }

  // Storing an accepted frame

  /** The history with a frame appended, cut to the most recent entries; a repetition is ignored. */
  function Append(history: seq<Uplink>, up: Uplink): seq<Uplink> {
    if history != [] && history[|history| - 1].fCnt == up.fCnt then history
    else LastN(history + [up], HISTORY_SIZE)
  }

  ghost predicate IsRepetition(history: seq<Uplink>, up: Uplink) {
    history != [] && history[|history| - 1].fCnt == up.fCnt
  }

  /** A frame that repeats no counter becomes the last entry behind the latest of the old ones, 20 in all
      if there are so many. */
  ghost predicate IsAppended(after: seq<Uplink>, before: seq<Uplink>, up: Uplink) {
    if IsRepetition(before, up) then after == before
    else
      && after != [] && after[|after| - 1] == up
      && |after| == (if |before| < 20 then |before| + 1 else 20)
      && forall i :: 0 <= i < |after| - 1 ==> after[i] == before[|before| - |after| + 1 + i]
  }

  lemma AppendMeans(history: seq<Uplink>, up: Uplink)
    ensures IsAppended(Append(history, up), history, up)
  {
  }

  function LastN<T>(s: seq<T>, n: nat): seq<T> {
    if |s| <= n then s else s[|s| - n..]
  }

  function MaxSNR(snrs: seq<real>): (max: real)
    ensures snrs == [] ==> max == 0.0
    ensures snrs != [] ==> max in snrs && forall i :: 0 <= i < |snrs| ==> snrs[i] <= max
  {
    if snrs == [] then 0.0
    else if |snrs| == 1 then snrs[0]
    else
      var rest := MaxSNR(snrs[..|snrs| - 1]);
      if snrs[|snrs| - 1] > rest then snrs[|snrs| - 1] else rest
  }

  /** A changed data-rate resets the transmit power and the history. */
  function WithDataRate(ds: Session, dr: int): Session {
    (if ds.dr != dr then ds.(txPowerIndex := 0, history := []) else ds).(dr := dr)
  }

  /** The session that is saved after a frame was accepted under counter fCnt. */
  function Stored(ds: Session, fCnt: int, dr: int, snrs: seq<real>): Session {
    var s := WithDataRate(ds, dr);
    s.(history := Append(s.history, Uplink(fCnt, MaxSNR(snrs), s.txPowerIndex, |snrs|)), fCntUp := (fCnt + 1) % UINT32)
  }

  /** The counters that a session recognises once it is synchronised to one. */
  ghost predicate Recognises(ds: Session, fCnt: int) {
    && (fCnt < UINT32 - 1 && !ds.skipFCntValidation ==>
          GetFullFCntUp(ds.fCntUp, fCnt % UINT16) == fCnt && Classify(ds, fCnt) == Retransmission(ds))
    && forall x :: fCnt < x <= fCnt + UINT16 - 1 && x < UINT32 ==>
                     GetFullFCntUp(ds.fCntUp, x % UINT16) == x && Classify(ds, x) == Found(ds)
  }

  lemma SyncedRecognises(ds: Session, fCnt: int)
    requires 0 <= fCnt < UINT32 && ds.fCntUp == (fCnt + 1) % UINT32
    ensures Recognises(ds, fCnt)
  {
    hide GetFullFCntUp;
    if fCnt < UINT32 - 1 {
      FullFCntUnique(fCnt + 1, fCnt % UINT16, fCnt);
    }
    forall x | fCnt < x <= fCnt + UINT16 - 1 && x < UINT32 ensures GetFullFCntUp(ds.fCntUp, x % UINT16) == x {
      FullFCntUnique(fCnt + 1, x % UINT16, x);
    }
  }

  /** The part of the uplink flow that updates the session (the context's DeviceSession). */
  class DataContext {
    var session: Session

    constructor (session: Session)
      ensures this.session == session
    {
      this.session := session;
    }

    method SetUplinkDataRate(dr: int)
      modifies this
      ensures session == WithDataRate(old(session), dr)
      ensures session == if dr == old(session.dr) then old(session)
                         else old(session).(dr := dr, txPowerIndex := 0, history := [])
    {
      if session.dr != dr {
        session := session.(txPowerIndex := 0, history := []);
      }
      session := session.(dr := dr);
    }

    /** The session keeps the latest frames: the new one is the last, and what is dropped is the oldest. */
    method AppendUplinkHistory(up: Uplink)
      modifies this
      ensures session == old(session).(history := Append(old(session).history, up))
      ensures IsAppended(session.history, old(session.history), up)
    {
      var history := session.history;
      if |history| > 0 && history[|history| - 1].fCnt == up.fCnt {
        return;
      }
      history := history + [up];
      if |history| > HISTORY_SIZE {
        history := history[|history| - HISTORY_SIZE..];
      }
      session := session.(history := history);
    }

    method AppendMetaDataToUplinkHistory(fCnt: int, snrs: seq<real>)
      modifies this
      ensures session == old(session).(history :=
                Append(old(session).history, Uplink(fCnt, MaxSNR(snrs), old(session).txPowerIndex, |snrs|)))
    {
      var maxSNR := 0.0;
      for i := 0 to |snrs|
        invariant maxSNR == MaxSNR(snrs[..i])
      {
        assert snrs[..i + 1][..i] == snrs[..i];
        if i == 0 || snrs[i] > maxSNR {
          maxSNR := snrs[i];
        }
      }
      assert snrs[..|snrs|] == snrs;
      AppendUplinkHistory(Uplink(fCnt, maxSNR, session.txPowerIndex, |snrs|));
    }

    /** After it, the same frame received again is recognised as a retransmission, and each of the next
        65535 counters as the new one it is. */
    method SyncUplinkFCnt(fCnt: int)
      requires 0 <= fCnt < UINT32
      modifies this
      ensures session == old(session).(fCntUp := (fCnt + 1) % UINT32)
      ensures Recognises(session, fCnt)
    {
      hide Recognises;
      session := session.(fCntUp := (fCnt + 1) % UINT32);
      SyncedRecognises(session, fCnt);
    }

    method HandleAccepted(fCnt: int, dr: int, snrs: seq<real>)
      requires 0 <= fCnt < UINT32
      modifies this
      ensures session == Stored(old(session), fCnt, dr, snrs)
    {
      SetUplinkDataRate(dr);
      AppendMetaDataToUplinkHistory(fCnt, snrs);
      SyncUplinkFCnt(fCnt);
    }
  }

  // Runs of one session

  /** A frame in the air: the counter the device signed it with, its data-rate and the SNRs of the
      gateways that received it. Only the low bits of the counter are transmitted. */
  datatype Frame = Frame(signed: int, dr: int, snrs: seq<real>)

  /** A frame is signed for one counter: the MIC holds under no other. */
  predicate SignedAs(fr: Frame, ds: Session, fCnt: int) {
    fCnt == fr.signed
  }

  function ReceivedFCnt(fr: Frame): int {
    fr.signed % UINT16
  }

  /** What one frame of the session's own device leads to. */
  function Receive(ds: Session, fr: Frame): Lookup {
    var mic := (s: Session, x: int) => SignedAs(fr, s, x);
    if Verifies(mic, ds, ReceivedFCnt(fr)) then Classify(ds, VerifiedFCnt(mic, ds, ReceivedFCnt(fr)))
    else InvalidMIC(ds)
  }

  /** Only a found session is stored; every error leaves it as it was. */
  function After(ds: Session, fr: Frame): Session {
    var r := Receive(ds, fr);
    if r.Found? then Stored(r.session, fr.signed, fr.dr, fr.snrs) else ds
  }

  /** A counter is accepted exactly when it is not below the expected one and at most 65534 frames
      in between were lost, or it fits in 16 bits anyway, or it is the very last one and the
      expected one is 0. Anything else leaves the session as it was. */
  lemma AcceptedIff(ds: Session, fr: Frame)
    requires 0 <= ds.fCntUp < UINT32 && 0 <= fr.signed < UINT32 && !ds.skipFCntValidation
    ensures Receive(ds, fr).Found? <==>
            && ds.fCntUp <= fr.signed
            && (fr.signed - ds.fCntUp <= UINT16 - 2 || fr.signed < UINT16
                || (ds.fCntUp == 0 && fr.signed == UINT32 - 1))
    ensures Receive(ds, fr).Found? ==> Receive(ds, fr) == Found(ds)
    ensures !Receive(ds, fr).Found? ==> After(ds, fr) == ds
    ensures fr.signed == ds.fCntUp - 1 ==> Receive(ds, fr) == Retransmission(ds)
  {
    hide GetFullFCntUp;
    FullFCntUnique(ds.fCntUp, ReceivedFCnt(fr), fr.signed);
    Wrap32(fr.signed - (ds.fCntUp - 1));
  }

  /** What a received frame means in every case, counter checks skipped or not. A frame verifies exactly
      when its counter lies in the window or fits in 16 bits. */
  lemma ReceiveMeans(ds: Session, fr: Frame)
    requires 0 <= ds.fCntUp < UINT32 && 0 <= fr.signed < UINT32
    ensures var r := Receive(ds, fr);
            var verified := fr.signed < UINT16 || (fr.signed - (ds.fCntUp - 1)) % UINT32 < UINT16;
            && (r.InvalidMIC? <==> !verified)
            && (r.Found? <==> verified && (ds.fCntUp <= fr.signed || ds.skipFCntValidation))
            && (r.Retransmission? <==> fr.signed == ds.fCntUp - 1 && !ds.skipFCntValidation)
            && (r.CounterReset? <==> verified && fr.signed < ds.fCntUp - 1 && !ds.skipFCntValidation)
            && r.session == (if r.Found? && fr.signed < ds.fCntUp then ds.(fCntUp := 0, history := []) else ds)
  {
    hide GetFullFCntUp;
    FullFCntUnique(ds.fCntUp, ReceivedFCnt(fr), fr.signed);
    Wrap32(fr.signed - (ds.fCntUp - 1));
  }

  /** The session a found frame starts from: as it was, or reset when checks are skipped. */
  lemma FoundSession(ds: Session, fr: Frame)
    ensures Receive(ds, fr).Found? ==>
              Receive(ds, fr).session == if ds.fCntUp <= fr.signed then ds else ds.(fCntUp := 0, history := [])
  {
    hide GetFullFCntUp;
  }

  lemma AfterFCntUp(ds: Session, fr: Frame)
    requires 0 <= fr.signed < UINT32 - 1
    ensures After(ds, fr).skipFCntValidation == ds.skipFCntValidation
    ensures After(ds, fr).fCntUp == if Receive(ds, fr).Found? then fr.signed + 1 else ds.fCntUp
  {
    hide Receive;
    FoundSession(ds, fr);
  }

  function Run(ds: Session, frames: seq<Frame>): Session
    decreases |frames|
  {
    if frames == [] then ds else Run(After(ds, frames[0]), frames[1..])
  }

  /** The counters under which frames were accepted, in order. */
  function Accepted(ds: Session, frames: seq<Frame>): seq<int>
    decreases |frames|
  {
    if frames == [] then []
    else
      var first := if Receive(ds, frames[0]).Found? then [frames[0].signed] else [];
      first + Accepted(After(ds, frames[0]), frames[1..])
  }

  /** The counters that exceed everything before them, starting from the expected one. */
  function Records(expected: int, frames: seq<Frame>): seq<int>
    decreases |frames|
  {
    if frames == [] then []
    else if expected <= frames[0].signed then [frames[0].signed] + Records(frames[0].signed + 1, frames[1..])
    else Records(expected, frames[1..])
  }

  /** No frame is more than 65534 lost frames ahead of the highest one received before it. */
  ghost predicate GapsAllowed(expected: int, frames: seq<Frame>)
    decreases |frames|
  {
    frames == [] ||
    (frames[0].signed - expected <= UINT16 - 2 &&
     GapsAllowed(if expected <= frames[0].signed then frames[0].signed + 1 else expected, frames[1..]))
  }

  ghost predicate BeforeWrap(frames: seq<Frame>) {
    forall i :: 0 <= i < |frames| ==> 0 <= frames[i].signed < UINT32 - 1
  }

  ghost predicate Ascending(s: seq<int>, from: int) {
    (forall i :: 0 <= i < |s| ==> from <= s[i]) && forall i, j :: 0 <= i < j < |s| ==> s[i] < s[j]
  }

  lemma AscendingCons(x: int, s: seq<int>, from: int)
    ensures from <= x && Ascending(s, x + 1) ==> Ascending([x] + s, from)
    ensures Following([x] + s, from) == Following(s, x + 1)
  {
  }

  /** The counter expected after the given ones, `expected` when there are none. */
  function Following(s: seq<int>, expected: int): int {
    if s == [] then expected else s[|s| - 1] + 1
  }

  /** Whatever is received, in any order and with any repetitions: the accepted counters are
      strictly increasing, and the session expects the one after the last of them. */
  lemma {:induction false} AcceptedAscend(ds: Session, frames: seq<Frame>)
    requires 0 <= ds.fCntUp < UINT32 && !ds.skipFCntValidation && BeforeWrap(frames)
    ensures Ascending(Accepted(ds, frames), ds.fCntUp)
    ensures Run(ds, frames).fCntUp == Following(Accepted(ds, frames), ds.fCntUp)
    decreases |frames|
  {
    if frames != [] {
      hide Receive, After, Ascending, Following;
      AcceptedIff(ds, frames[0]);
      AfterFCntUp(ds, frames[0]);
      var rest := Accepted(After(ds, frames[0]), frames[1..]);
      AcceptedAscend(After(ds, frames[0]), frames[1..]);
      if Receive(ds, frames[0]).Found? {
        AscendingCons(frames[0].signed, rest, ds.fCntUp);
        assert Accepted(ds, frames) == [frames[0].signed] + rest;
      } else {
        assert Accepted(ds, frames) == rest;
      }
    } else {
      assert Ascending([], ds.fCntUp) && Following([], ds.fCntUp) == ds.fCntUp;
    }
  }

  /** As long as no more than 65534 frames in a row are lost, the server accepts exactly the frames
      with a new highest counter, each under the device's own 32-bit counter. */
  lemma {:induction false} AcceptsEveryRecord(ds: Session, frames: seq<Frame>)
    requires 0 <= ds.fCntUp < UINT32 && !ds.skipFCntValidation && BeforeWrap(frames) && GapsAllowed(ds.fCntUp, frames)
    ensures Accepted(ds, frames) == Records(ds.fCntUp, frames)
    decreases |frames|
  {
    if frames != [] {
      hide Receive, After;
      AcceptedIff(ds, frames[0]);
      AfterFCntUp(ds, frames[0]);
      AcceptsEveryRecord(After(ds, frames[0]), frames[1..]);
    }
  }

  // History and packet loss

  /** The entries stored since the last reset, which is a changed data-rate or, with counter checks
      skipped, a frame below the expected counter. */
  function SinceReset(ds: Session, fr: Frame, log: seq<Uplink>): seq<Uplink> {
    var r := Receive(ds, fr);
    if !r.Found? then log
    else (if ds.dr != fr.dr || fr.signed < ds.fCntUp then [] else log)
         + [Uplink(fr.signed, MaxSNR(fr.snrs), WithDataRate(ds, fr.dr).txPowerIndex, |fr.snrs|)]
  }

  function RunLog(ds: Session, frames: seq<Frame>, log: seq<Uplink>): seq<Uplink>
    decreases |frames|
  {
    if frames == [] then log else RunLog(After(ds, frames[0]), frames[1..], SinceReset(ds, frames[0], log))
  }

  ghost predicate CountersAscend(history: seq<Uplink>, below: int) {
    && (forall i :: 0 <= i < |history| ==> 0 <= history[i].fCnt < below)
    && forall i, j :: 0 <= i < j < |history| ==> history[i].fCnt < history[j].fCnt
  }

  /** The history holds the most recent entries of the log, whose counters increase. */
  ghost predicate Tracks(ds: Session, log: seq<Uplink>) {
    && 0 <= ds.fCntUp < UINT32
    && ds.history == LastN(log, HISTORY_SIZE) && CountersAscend(log, ds.fCntUp)
  }

  /** The entries are the latest of the log, 20 of them if it has so many. */
  ghost predicate IsSuffix(history: seq<Uplink>, log: seq<Uplink>) {
    && |history| == (if |log| < 20 then |log| else 20)
    && forall i :: 0 <= i < |history| ==> history[i] == log[|log| - |history| + i]
  }

  /** After an accepted frame the session expects the next counter, has the frame's data-rate, and its
      history ends with the frame. */
  lemma AcceptedIsLast(ds: Session, fr: Frame, log: seq<Uplink>)
    requires Tracks(ds, log) && 0 <= fr.signed < UINT32 - 1 && Receive(ds, fr).Found?
    ensures var s := After(ds, fr);
            && s.fCntUp == fr.signed + 1 && s.dr == fr.dr
            && s.txPowerIndex == (if fr.dr == ds.dr then ds.txPowerIndex else 0)
            && s.history != []
            && var last := s.history[|s.history| - 1];
               && last.fCnt == fr.signed && last.txPowerIndex == s.txPowerIndex && last.gatewayCount == |fr.snrs|
               && (fr.snrs != [] ==> last.maxSNR in fr.snrs)
               && forall i :: 0 <= i < |fr.snrs| ==> fr.snrs[i] <= last.maxSNR
  {
    hide Receive;
    FoundSession(ds, fr);
    AfterFCntUp(ds, fr);
    TracksStep(ds, fr, log);
    var start := WithDataRate(Receive(ds, fr).session, fr.dr);
    AppendMeans(start.history, Uplink(fr.signed, MaxSNR(fr.snrs), start.txPowerIndex, |fr.snrs|));
    LastBelow(ds, log);
  }

  lemma LastBelow(ds: Session, log: seq<Uplink>)
    requires Tracks(ds, log)
    ensures ds.history != [] ==> ds.history[|ds.history| - 1].fCnt < ds.fCntUp
  {
  }

  lemma AppendTracks(log: seq<Uplink>, below: int, up: Uplink)
    requires CountersAscend(log, below) && 0 <= below <= up.fCnt
    ensures Append(LastN(log, HISTORY_SIZE), up) == LastN(log + [up], HISTORY_SIZE)
    ensures CountersAscend(log + [up], up.fCnt + 1)
  {
  }

  lemma StartTracks()
    ensures LastN<Uplink>([], HISTORY_SIZE) == [] && CountersAscend([], 0)
  {
  }

  lemma TracksStep(ds: Session, fr: Frame, log: seq<Uplink>)
    requires Tracks(ds, log) && 0 <= fr.signed < UINT32 - 1
    ensures Tracks(After(ds, fr), SinceReset(ds, fr, log))
  {
    hide Receive;
    FoundSession(ds, fr);
    var up := Uplink(fr.signed, MaxSNR(fr.snrs), WithDataRate(ds, fr.dr).txPowerIndex, |fr.snrs|);
    hide Append, LastN, CountersAscend;
    StartTracks();
    if ds.fCntUp <= fr.signed {
      AppendTracks(log, ds.fCntUp, up);
    }
    AppendTracks([], 0, up);
  }

  /** Over every run, with or without counter checks, the history is the last at most 20 frames
      accepted since the last reset, in strictly increasing order of counters. */
  lemma {:induction false} HistoryTracks(ds: Session, frames: seq<Frame>, log: seq<Uplink>)
    requires Tracks(ds, log) && BeforeWrap(frames)
    ensures Tracks(Run(ds, frames), RunLog(ds, frames, log))
    ensures IsSuffix(Run(ds, frames).history, RunLog(ds, frames, log))
    decreases |frames|
  {
    if frames != [] {
      TracksStep(ds, frames[0], log);
      HistoryTracks(After(ds, frames[0]), frames[1..], SinceReset(ds, frames[0], log));
    }
  }

  function FCnts(history: seq<Uplink>): (fCnts: seq<int>)
    ensures |fCnts| == |history| && forall i :: 0 <= i < |fCnts| ==> fCnts[i] == history[i].fCnt
  {
    seq(|history|, i requires 0 <= i < |history| => history[i].fCnt)
  }

  /** The sum of the counter steps minus one, every operation wrapping as on uint32. */
  function LostPackets(fCnts: seq<int>): int {
    if |fCnts| <= 1 then 0
    else
      var n := |fCnts| - 1;
      (LostPackets(fCnts[..n]) + (fCnts[n] - fCnts[n - 1] - 1) % UINT32) % UINT32
  }

  method GetPacketLossPercentage(history: seq<Uplink>) returns (percentage: real)
    ensures percentage == if |history| < HISTORY_SIZE then 0.0
                          else LostPackets(FCnts(history)) as real / |history| as real * 100.0
  {
    if |history| < HISTORY_SIZE {
      return 0.0;
    }
    var lostPackets, previousFCnt := 0, 0;
    ghost var fCnts := FCnts(history);
    for i := 0 to |history|
      invariant lostPackets == LostPackets(fCnts[..i])
      invariant i > 0 ==> previousFCnt == fCnts[i - 1]
    {
      assert fCnts[..i + 1][..i] == fCnts[..i];
      if i == 0 {
        previousFCnt := history[i].fCnt;
        continue;
      }
      lostPackets := (lostPackets + (history[i].fCnt - previousFCnt - 1) % UINT32) % UINT32;
      previousFCnt := history[i].fCnt;
    }
    assert fCnts[..|history|] == fCnts;
    percentage := lostPackets as real / |history| as real * 100.0;
  }

  ghost predicate StrictlyAscending(s: seq<int>) {
    (forall i :: 0 <= i < |s| ==> 0 <= s[i] < UINT32) && forall i, j :: 0 <= i < j < |s| ==> s[i] < s[j]
  }

  /** The counters between the first and the last entry that no entry has. */
  ghost function Missing(fCnts: seq<int>): set<int>
    requires fCnts != []
  {
    set c | fCnts[0] <= c <= fCnts[|fCnts| - 1] && c !in fCnts
  }

  /** The wrapping sum telescopes. */
  lemma {:induction false} LostPacketsTelescopes(fCnts: seq<int>)
    requires fCnts != [] && StrictlyAscending(fCnts)
    ensures 0 <= LostPackets(fCnts) == fCnts[|fCnts| - 1] - fCnts[0] - (|fCnts| - 1) < UINT32
  {
    var n := |fCnts| - 1;
    if n > 0 {
      LostPacketsTelescopes(fCnts[..n]);
    }
  }

  ghost function Between(a: int, b: int): (s: set<int>)
    ensures forall c :: c in s <==> a < c < b
    ensures |s| == if a < b then b - a - 1 else 0
    decreases b - a
  {
    if b <= a + 1 then {} else Between(a, b - 1) + {b - 1}
  }

  lemma {:induction false} MissingCount(fCnts: seq<int>)
    requires fCnts != [] && StrictlyAscending(fCnts)
    ensures |Missing(fCnts)| == fCnts[|fCnts| - 1] - fCnts[0] - (|fCnts| - 1)
  {
    var n := |fCnts| - 1;
    if n == 0 {
      assert Missing(fCnts) == {};
    } else {
      MissingCount(fCnts[..n]);
      MissingStep(fCnts);
    }
  }

  lemma MissingStep(fCnts: seq<int>)
    requires 1 < |fCnts| && StrictlyAscending(fCnts)
    ensures var n := |fCnts| - 1;
            && Missing(fCnts) == Missing(fCnts[..n]) + Between(fCnts[n - 1], fCnts[n])
            && Missing(fCnts[..n]) !! Between(fCnts[n - 1], fCnts[n])
  {
    var n := |fCnts| - 1;
    var front, gap := fCnts[..n], Between(fCnts[n - 1], fCnts[n]);
    assert fCnts == front + [fCnts[n]];
    assert forall i :: 0 <= i < n ==> front[i] <= front[n - 1];
    assert forall c :: c in gap ==> c !in front;
  }

  /** The wrapping sum is the exact number of missing counters. */
  lemma LostPacketsExact(fCnts: seq<int>)
    requires fCnts != [] && StrictlyAscending(fCnts)
    ensures LostPackets(fCnts) == |Missing(fCnts)|
  {
    LostPacketsTelescopes(fCnts);
    MissingCount(fCnts);
  }

  /** So over every run the loss percentage counts exactly the frames that never arrived. */
  lemma LossOfRun(ds: Session, frames: seq<Frame>, log: seq<Uplink>)
    requires Tracks(ds, log) && BeforeWrap(frames)
    requires Run(ds, frames).history != []
    ensures var fCnts := FCnts(Run(ds, frames).history);
            LostPackets(fCnts) == |Missing(fCnts)|
  {
    HistoryTracks(ds, frames, log);
    LostPacketsExact(FCnts(Run(ds, frames).history));
  }
}
