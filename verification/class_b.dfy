/** Class-B ping slots (internal/helpers/classb/classb.go; sections 13.1 and 13.2 of the
    LoRaWAN 1.1 specification).

    Times are nanoseconds since the GPS epoch. AES is an arbitrary function from a beacon time
    and a device address to the two bytes the offset is taken from.
 */
module ClassB {
  import opened Options
  import opened Common

  const BEACON_PERIOD: int := 128 * SECOND
  const BEACON_RESERVED: int := 2120 * MILLISECOND
  const BEACON_GUARD: int := 3 * SECOND
  const PING_PERIOD_BASE: nat := 4096
  const SLOT_LEN: int := 30 * MILLISECOND

  /** What fixes the ping slots of a receiver: the cipher, its address and its slots per beacon. */
  datatype Receiver = Receiver(aes: (int, int) -> (Byte, Byte), devAddr: int, pingNb: nat)

  datatype PingError = PingNbZero | BeaconNotAligned

  /** Go's remainder, which takes the sign of the dividend. */
  function Rem(a: int, b: int): int
    requires 0 < b
  {
    if 0 <= a then a % b else -((-a) % b)
  }

  /** The source divides by 4096 / pingNb, so more than 4096 slots per beacon is a caller's error. */
  function GetPingOffset(r: Receiver, beacon: int): Result<nat, PingError>
    requires r.pingNb <= PING_PERIOD_BASE
  {
    if r.pingNb == 0 then Err(PingNbZero)
    else if beacon % BEACON_PERIOD != 0 then Err(BeaconNotAligned)
    else
      var rand := r.aes(beacon / SECOND % 0x1_0000_0000, r.devAddr);
      Ok((rand.0 + rand.1 * 256) % PingPeriod(r.pingNb))
  }

  /** Slot positions from one slot of a beacon period to the next. */
  function PingPeriod(pingNb: nat): nat
    requires 0 < pingNb
  {
    PING_PERIOD_BASE / pingNb
  }

  lemma PingPeriodTimes(pingNb: nat)
    requires 0 < pingNb <= PING_PERIOD_BASE
    ensures 0 < PingPeriod(pingNb) && pingNb * PingPeriod(pingNb) <= PING_PERIOD_BASE
  {
  }

  /** There is an offset for every beacon start, within the first ping period. */
  lemma PingOffsetRange(r: Receiver, beacon: int)
    requires r.pingNb <= PING_PERIOD_BASE
    ensures GetPingOffset(r, beacon).Ok? <==> 0 < r.pingNb && beacon % BEACON_PERIOD == 0
    ensures GetPingOffset(r, beacon).Ok? ==> GetPingOffset(r, beacon).value < PingPeriod(r.pingNb)
  {
  }

  /** The offset is the little-endian number of the cipher's two bytes modulo the ping period, the cipher
      being given the beacon time in seconds, as 32 bits, and the address. */
  lemma PingOffsetIs(r: Receiver, beacon: int)
    requires 0 < r.pingNb <= PING_PERIOD_BASE && beacon % BEACON_PERIOD == 0
    ensures GetPingOffset(r, beacon).Ok?
    ensures var (low, high) := r.aes(beacon / 1_000_000_000 % 0x1_0000_0000, r.devAddr);
            exists q: int ::
              (low as int) + 256 * (high as int) == GetPingOffset(r, beacon).value + q * PingPeriod(r.pingNb)
  {
    var rand := r.aes(beacon / SECOND % 0x1_0000_0000, r.devAddr);
    var low: int, high: int := rand.0, rand.1;
    var n, period := low + high * 256, PingPeriod(r.pingNb);
    assert n == n % period + n / period * period;
  }

  /** The slots of a receiver fill the beacon period as far as they can evenly. */
  lemma PingPeriodFills(pingNb: nat)
    requires 0 < pingNb <= PING_PERIOD_BASE
    ensures pingNb * PingPeriod(pingNb) <= 4096 < pingNb * (PingPeriod(pingNb) + 1)
  {
  }

  lemma PingOffsetOfPeriod(r: Receiver, k: int)
    requires Valid(r)
    ensures GetPingOffset(r, k * BEACON_PERIOD).Ok?
    ensures GetPingOffset(r, k * BEACON_PERIOD).value < PingPeriod(r.pingNb)
  {
    PingOffsetRange(r, k * BEACON_PERIOD);
  }

  ghost predicate Valid(r: Receiver) {
    0 < r.pingNb <= PING_PERIOD_BASE
  }

  /** Start of slot n of the beacon period that starts at beaconStart. */
  function SlotStart(beaconStart: int, pingOffset: int, pingPeriod: int, n: nat): int {
    beaconStart + BEACON_RESERVED + (pingOffset + n * pingPeriod) * SLOT_LEN
  }

  /** Start of slot n of beacon period k. */
  ghost function SlotTime(r: Receiver, k: int, n: nat): int
    requires Valid(r) && n < r.pingNb
  {
    PingOffsetOfPeriod(r, k);
    SlotStart(k * BEACON_PERIOD, GetPingOffset(r, k * BEACON_PERIOD).value, PingPeriod(r.pingNb), n)
  }

  /** The first slot of a beacon period starts 2.12 s and the offset behind the beacon, and each other one
      a ping period behind the one before; positions are 30 ms apart. */
  lemma SlotPositions(r: Receiver, k: int, n: nat)
    requires Valid(r) && n < r.pingNb
    ensures GetPingOffset(r, k * BEACON_PERIOD).Ok?
    ensures SlotTime(r, k, 0) ==
            k * 128_000_000_000 + 2_120_000_000 + GetPingOffset(r, k * BEACON_PERIOD).value * 30_000_000
    ensures n > 0 ==> SlotTime(r, k, n) - SlotTime(r, k, n - 1) == PingPeriod(r.pingNb) * 30_000_000
  {
    PingOffsetOfPeriod(r, k);
    hide GetPingOffset, PingPeriod;
    if n > 0 {
      TimesSucc(n - 1, PingPeriod(r.pingNb));
    }
  }

  ghost predicate IsSlot(r: Receiver, ts: int)
    requires Valid(r)
  {
    exists k: int, n: nat :: n < r.pingNb && ts == SlotTime(r, k, n)
  }

  /** ts is the first slot after the given time. */
  ghost predicate IsNextSlot(r: Receiver, after: int, ts: int)
    requires Valid(r)
  {
    IsSlot(r, ts) && after < ts && forall s :: IsSlot(r, s) && after < s ==> ts <= s
  }

  lemma TimesSucc(i: int, factor: int)
    ensures (i + 1) * factor == i * factor + factor
  {
  }

  lemma {:induction false} TimesOrder(n: nat, n': nat, factor: nat)
    requires n < n'
    ensures n * factor + factor <= n' * factor
  {
    TimesSucc(n' - 1, factor);
    if n < n' - 1 {
      TimesOrder(n, n' - 1, factor);
    }
  }

  /** A slot, including its own length, lies between the beacon and the next beacon's guard time: from
      2.12 s to 125 s after the beacon. */
  lemma SlotInWindow(r: Receiver, k: int, n: nat)
    requires Valid(r) && n < r.pingNb
    ensures k * 128_000_000_000 + 2_120_000_000 <= SlotTime(r, k, n)
    ensures SlotTime(r, k, n) + 30_000_000 <= k * 128_000_000_000 + 125_000_000_000
    ensures k * BEACON_PERIOD + BEACON_RESERVED <= SlotTime(r, k, n)
    ensures SlotTime(r, k, n) + SLOT_LEN <= (k + 1) * BEACON_PERIOD - BEACON_GUARD
  {
    hide GetPingOffset, PingPeriod;
    var period := PingPeriod(r.pingNb);
    PingOffsetOfPeriod(r, k);
    PingPeriodTimes(r.pingNb);
    TimesOrder(n, r.pingNb, period);
    assert 0 <= n * period;
  }

  /** Slots of one receiver never overlap: they are ordered by period and number, a slot apart. */
  lemma SlotsApart(r: Receiver, k: int, n: nat, k': int, n': nat)
    requires Valid(r) && n < r.pingNb && n' < r.pingNb
    requires k < k' || (k == k' && n < n')
    ensures SlotTime(r, k, n) + SLOT_LEN <= SlotTime(r, k', n')
  {
    hide GetPingOffset, PingPeriod;
    if k == k' {
      PingPeriodTimes(r.pingNb);
      TimesOrder(n, n', PingPeriod(r.pingNb));
    } else {
      SlotInWindow(r, k, n);
      SlotInWindow(r, k', n');
      hide SlotTime;
    }
  }

  /** The first beacon period the search looks at: the one containing a non-negative time, but
      for a negative time that is not a beacon start the one after it. */
  ghost function FirstPeriod(after: int): int {
    (after - Rem(after, BEACON_PERIOD)) / BEACON_PERIOD
  }

  lemma FirstPeriodIs(after: int)
    ensures FirstPeriod(after) * BEACON_PERIOD == after - Rem(after, BEACON_PERIOD)
    ensures after % BEACON_PERIOD == 0 ==> FirstPeriod(after) * BEACON_PERIOD == after
    ensures if 0 <= after then FirstPeriod(after) * BEACON_PERIOD <= after < (FirstPeriod(after) + 1) * BEACON_PERIOD
            else (FirstPeriod(after) - 1) * BEACON_PERIOD < after <= FirstPeriod(after) * BEACON_PERIOD
  {
    if 0 <= after {
      assert after - Rem(after, BEACON_PERIOD) == after / BEACON_PERIOD * BEACON_PERIOD;
    } else {
      assert after - Rem(after, BEACON_PERIOD) == -((-after) / BEACON_PERIOD) * BEACON_PERIOD;
    }
  }

  /** ts is the first slot after the given time among the periods the search looks at, and lies
      in the first two of them. */
  ghost predicate IsFirstSearched(r: Receiver, after: int, ts: int)
    requires Valid(r)
  {
    && after < ts < (FirstPeriod(after) + 2) * BEACON_PERIOD
    && (exists k: int, n: nat :: FirstPeriod(after) <= k && n < r.pingNb && ts == SlotTime(r, k, n))
    && (forall k: int, n: nat ::
          FirstPeriod(after) <= k && n < r.pingNb && after < SlotTime(r, k, n) ==> ts <= SlotTime(r, k, n))
  }

  method GetNextPingSlotAfter(r: Receiver, after: int) returns (next: Result<int, PingError>)
    requires r.pingNb <= PING_PERIOD_BASE
    ensures if r.pingNb == 0 then next == Err(PingNbZero) else next.Ok? && IsFirstSearched(r, after, next.value)
  {
    if r.pingNb == 0 {
      return Err(PingNbZero);
    }
    hide SlotStart, FirstPeriod, GetPingOffset, PingPeriod, Rem;
    FirstPeriodIs(after);
    var beaconStart := after - Rem(after, BEACON_PERIOD);
    var pingPeriod := PingPeriod(r.pingNb);
    ghost var first := FirstPeriod(after);
    ghost var k := first;
    while true
      invariant first <= k <= first + 1
      invariant beaconStart == k * BEACON_PERIOD
      invariant forall j: int, n: nat :: first <= j < k && n < r.pingNb ==> SlotTime(r, j, n) <= after
      decreases first + 1 - k
    {
      PingOffsetOfPeriod(r, k);
      var pingOffset := GetPingOffset(r, beaconStart);
      if pingOffset.Err? {
        assert false;
      }
      var n := 0;
      while n < r.pingNb
        invariant 0 <= n <= r.pingNb
        invariant forall m: nat :: m < n ==> SlotTime(r, k, m) <= after
      {
        var gpsEpochTime := SlotStart(beaconStart, pingOffset.value, pingPeriod, n);
        if gpsEpochTime > after {
          FirstFound(r, after, k, n);
          return Ok(gpsEpochTime);
        }
        n := n + 1;
      }
      SlotInWindow(r, k, 0);
      k := k + 1;
      beaconStart := beaconStart + BEACON_PERIOD;
    }
  }

  lemma FirstFound(r: Receiver, after: int, k: int, n: nat)
    requires Valid(r) && n < r.pingNb
    requires FirstPeriod(after) <= k <= FirstPeriod(after) + 1
    requires after < SlotTime(r, k, n)
    requires forall j: int, m: nat :: FirstPeriod(after) <= j < k && m < r.pingNb ==> SlotTime(r, j, m) <= after
    requires forall m: nat :: m < n ==> SlotTime(r, k, m) <= after
    ensures IsFirstSearched(r, after, SlotTime(r, k, n))
  {
    hide SlotTime, FirstPeriod;
    SlotInWindow(r, k, n);
    forall j: int, m: nat | FirstPeriod(after) <= j && m < r.pingNb && after < SlotTime(r, j, m)
      ensures SlotTime(r, k, n) <= SlotTime(r, j, m)
    {
      if k < j || (j == k && n < m) {
        SlotsApart(r, k, n, j, m);
      }
    }
  }

  /** What the search returns is the very next slot exactly when the last slot of the period
      before the ones it looks at is not later than the given time. */
  lemma SearchFindsNextSlotIff(r: Receiver, after: int, ts: int)
    requires Valid(r) && IsFirstSearched(r, after, ts)
    ensures IsNextSlot(r, after, ts) <==> SlotTime(r, FirstPeriod(after) - 1, r.pingNb - 1) <= after
  {
    hide SlotTime, FirstPeriod;
    var first := FirstPeriod(after);
    var last := SlotTime(r, first - 1, r.pingNb - 1);
    var k, n: nat :| first <= k && n < r.pingNb && ts == SlotTime(r, k, n);
    if last <= after {
      forall s | IsSlot(r, s) && after < s ensures ts <= s {
        var j, m: nat :| m < r.pingNb && s == SlotTime(r, j, m);
        if j < first && (j != first - 1 || m != r.pingNb - 1) {
          SlotsApart(r, j, m, first - 1, r.pingNb - 1);
        }
      }
    } else {
      SlotsApart(r, first - 1, r.pingNb - 1, k, n);
      assert IsSlot(r, last);
    }
  }

  /** So it is the very next slot for every time since the GPS epoch. */
  lemma SearchFindsNextSlot(r: Receiver, after: int, ts: int)
    requires Valid(r) && IsFirstSearched(r, after, ts)
    requires 0 <= after || after % BEACON_PERIOD == 0
    ensures after < ts && IsNextSlot(r, after, ts)
  {
    FirstPeriodIs(after);
    hide SlotTime, FirstPeriod;
    SlotInWindow(r, FirstPeriod(after) - 1, r.pingNb - 1);
    SearchFindsNextSlotIff(r, after, ts);
  }

  /** Before the epoch it can fail, for every receiver: from shortly after a beacon start the search
      goes on in the next period and skips all slots of the current one. */
  lemma SearchSkipsSlots(r: Receiver, k: int, n: nat, after: int, ts: int)
    requires Valid(r) && n < r.pingNb && k < 0
    requires k * BEACON_PERIOD < after <= k * BEACON_PERIOD + BEACON_RESERVED - 1 && IsFirstSearched(r, after, ts)
    ensures after < SlotTime(r, k, n) < ts && !IsNextSlot(r, after, ts)
  {
    FirstPeriodIs(after);
    assert FirstPeriod(after) == k + 1;
    hide SlotTime, FirstPeriod;
    var j, m: nat :| k + 1 <= j && m < r.pingNb && ts == SlotTime(r, j, m);
    SlotInWindow(r, k, n);
    SlotsApart(r, k, n, j, m);
    assert IsSlot(r, SlotTime(r, k, n));
  }
}
