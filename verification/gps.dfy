/** Conversion between UTC and time since the GPS epoch (internal/gps/gps.go).

    Instants are integers: nanoseconds since 6 January 1980, 00:00:00 UTC. UTC has no
    reading for a leap second, so the conversions are inverse to each other only outside
    the inserted intervals; the lemmas below say exactly where.
 */
module Gps {

  import opened Common

  datatype Leap = Leap(time: int, duration: int)

  /** Total length of the leap intervals that lie strictly before UTC instant t. */
  function Offset(table: seq<Leap>, t: int): int {
    if table == [] then 0
    else (if table[0].time < t then table[0].duration else 0) + Offset(table[1..], t)
  }

  function UtcToGps(table: seq<Leap>, t: int): int {
    t + Offset(table, t)
  }

  /** Removes the leap intervals one by one, each test made on the instant corrected so far. */
  function GpsToUtc(table: seq<Leap>, g: int): int {
    if table == [] then g
    else GpsToUtc(table[1..], if table[0].time < g then g - table[0].duration else g)
  }

  /** The table is ordered and every entry is further from its predecessor than its own length. */
  ghost predicate WellFormed(table: seq<Leap>) {
    && (forall i :: 0 <= i < |table| ==> 0 < table[i].duration)
    && (forall i :: 0 < i < |table| ==> table[i-1].time + table[i].duration <= table[i].time)
  }

  function Total(table: seq<Leap>): int {
    if table == [] then 0 else table[0].duration + Total(table[1..])
  }

  /** GPS instant g lies in the interval that leap entry i inserts, which no UTC reading reaches. */
  ghost predicate InsideLeap(table: seq<Leap>, i: nat, g: int)
    requires i < |table|
  {
    table[i].time + Total(table[..i]) < g <= table[i].time + Total(table[..i]) + table[i].duration
  }

  method NewFromTimeSinceGPSEpoch(table: seq<Leap>, sinceEpoch: int) returns (t: int)
    ensures t == GpsToUtc(table, sinceEpoch)
  {
    t := sinceEpoch;
    for i := 0 to |table|
      invariant GpsToUtc(table[i..], t) == GpsToUtc(table, sinceEpoch)
    {
      assert table[i..][1..] == table[i + 1..];
      if table[i].time < t {
        t := t - table[i].duration;
      }
    }
  }

  method TimeSinceGPSEpoch(table: seq<Leap>, t: int) returns (g: int)
    ensures g == UtcToGps(table, t)
  {
    var offset := 0;
    for i := 0 to |table|
      invariant offset + Offset(table[i..], t) == Offset(table, t)
    {
      assert table[i..][1..] == table[i + 1..];
      if table[i].time < t {
        offset := offset + table[i].duration;
      }
    }
    g := t + offset;
  }

  lemma {:induction false} OffsetZero(table: seq<Leap>, t: int)
    requires WellFormed(table)
    requires table != [] ==> t <= table[0].time
    ensures Offset(table, t) == 0
  {
    if table != [] {
      OffsetZero(table[1..], t);
    }
  }

  lemma {:induction false} OffsetMonotone(table: seq<Leap>, t: int, u: int)
    requires WellFormed(table) && t <= u
    ensures 0 <= Offset(table, t) <= Offset(table, u)
  {
    if table != [] {
      OffsetMonotone(table[1..], t, u);
    }
  }

  /** UTC to GPS to UTC is the identity at every instant. */
  lemma {:induction false} UtcRoundTrip(table: seq<Leap>, t: int)
    requires WellFormed(table)
    ensures GpsToUtc(table, UtcToGps(table, t)) == t
  {
    if table != [] {
      if t <= table[0].time {
        OffsetZero(table, t);
        OffsetZero(table[1..], t);
      } else {
        OffsetMonotone(table[1..], t, t);
      }
      UtcRoundTrip(table[1..], t);
    }
  }

  lemma UtcToGpsIncreasing(table: seq<Leap>, t: int, u: int)
    requires WellFormed(table) && t < u
    ensures UtcToGps(table, t) < UtcToGps(table, u)
  {
    OffsetMonotone(table, t, u);
  }

  lemma TotalPrefix(table: seq<Leap>, i: nat)
    requires 0 < i <= |table|
    ensures Total(table[..i]) == table[0].duration + Total(table[1..][..i-1])
  {
    assert table[..i][1..] == table[1..][..i-1];
  }

  /** GPS to UTC to GPS: the identity outside the inserted intervals, and inside the interval
      of entry i short by exactly that entry's length. */
  lemma {:induction false} GpsRoundTrip(table: seq<Leap>, g: int)
    requires WellFormed(table)
    ensures (forall i: nat | i < |table| :: !InsideLeap(table, i, g)) ==>
              UtcToGps(table, GpsToUtc(table, g)) == g
    ensures forall i: nat | i < |table| && InsideLeap(table, i, g) ::
              UtcToGps(table, GpsToUtc(table, g)) == g - table[i].duration
  {
    if table != [] {
      var tail, first := table[1..], table[0];
      if g <= first.time {
        BeforeFirst(table, g);
      } else {
        var h := g - first.duration;
        assert GpsToUtc(table, g) == GpsToUtc(tail, h);
        forall i: nat | 0 < i < |table|
          ensures InsideLeap(table, i, g) <==> InsideLeap(tail, i - 1, h)
        {
          TotalPrefix(table, i);
        }
        assert table[..0] == [];
        if g <= first.time + first.duration {
          // Inside the first interval: corrected to at most first.time, which UTC counts before the leap.
          assert InsideLeap(table, 0, g);
          BeforeFirst(tail, h);
          OffsetZero(table, h);
        } else {
          GpsRoundTrip(tail, h);
          assert !InsideLeap(table, 0, g);
          AfterFirst(tail, h, first.time);
          assert forall i: nat | i < |tail| :: InsideLeap(tail, i, h) <==> InsideLeap(table, i + 1, g);
        }
      }
    }
  }

  /** At or before the first entry nothing is corrected and no interval is met. */
  lemma {:induction false} BeforeFirst(table: seq<Leap>, g: int)
    requires WellFormed(table)
    requires table != [] ==> g <= table[0].time
    ensures GpsToUtc(table, g) == g && UtcToGps(table, g) == g
    ensures forall i: nat | i < |table| :: !InsideLeap(table, i, g)
  {
    OffsetZero(table, g);
    if table != [] {
      BeforeFirst(table[1..], g);
      BeforeFirst(table[1..], g - table[0].duration);
      assert table[..0] == [];
      forall i: nat | 0 < i < |table| ensures !InsideLeap(table, i, g) {
        TotalPrefix(table, i);
        assert !InsideLeap(table[1..], i - 1, g - table[0].duration);
      }
    }
  }

  /** The correction never falls back past an instant that lies a full leap before every entry. */
  lemma {:induction false} AfterFirst(table: seq<Leap>, g: int, floor: int)
    requires WellFormed(table)
    requires floor < g
    requires table != [] ==> floor + table[0].duration <= table[0].time
    ensures floor < GpsToUtc(table, g)
  {
    if table != [] {
      AfterFirst(table[1..], if table[0].time < g then g - table[0].duration else g, floor);
    }
  }

  /** A GPS instant is reached from UTC exactly when it lies in no inserted interval. */
  lemma ReachableFromUtc(table: seq<Leap>, g: int)
    requires WellFormed(table)
    ensures (exists t :: UtcToGps(table, t) == g) <==> (forall i: nat | i < |table| :: !InsideLeap(table, i, g))
  {
    GpsRoundTrip(table, g);
    if t :| UtcToGps(table, t) == g {
      UtcRoundTrip(table, t);
    }
  }

  lemma {:induction false} FurtherThanLength(table: seq<Leap>, i: nat)
    requires WellFormed(table) && 0 < i < |table|
    ensures table[0].time + table[i].duration <= table[i].time
  {
    if i > 1 {
      FurtherThanLength(table, i - 1);
    }
  }

  lemma {:induction false} TotalNotNegative(table: seq<Leap>)
    requires WellFormed(table)
    ensures 0 <= Total(table)
  {
    if table != [] {
      TotalNotNegative(table[1..]);
    }
  }

  /** h lies in the interval of entry i, and g in front of it, by no more than the entry's length. */
  ghost predicate FallsBack(table: seq<Leap>, i: nat, g: int, h: int)
    requires i < |table|
  {
    InsideLeap(table, i, h) && g <= table[i].time + Total(table[..i]) && h - g <= table[i].duration
  }

  /** The clock steps back, or stands still, between two GPS instants exactly when it passes the start
      of an inserted interval and is not yet a full interval further. */
  lemma {:induction false} GpsToUtcStepsBackIff(table: seq<Leap>, g: int, h: int)
    requires WellFormed(table) && g < h
    ensures GpsToUtc(table, h) <= GpsToUtc(table, g) <==> exists i: nat :: i < |table| && FallsBack(table, i, g, h)
  {
    if table != [] {
      var tail, first := table[1..], table[0];
      assert table[..0] == [];
      if h <= first.time {
        BeforeFirst(table, g);
        BeforeFirst(table, h);
      } else if g <= first.time {
        StepsBackAcross(table, g, h);
      } else {
        var g', h' := g - first.duration, h - first.duration;
        GpsToUtcStepsBackIff(tail, g', h');
        forall i: nat | 0 < i < |table|
          ensures FallsBack(table, i, g, h) <==> FallsBack(tail, i - 1, g', h')
        {
          TotalPrefix(table, i);
        }
        assert forall i: nat | i < |tail| :: FallsBack(tail, i, g', h') <==> FallsBack(table, i + 1, g, h);
        assert !FallsBack(table, 0, g, h);
      }
    }
  }

  /** The case that only h lies behind the start of the first interval. */
  lemma StepsBackAcross(table: seq<Leap>, g: int, h: int)
    requires WellFormed(table) && table != [] && g <= table[0].time < h
    ensures GpsToUtc(table, h) <= GpsToUtc(table, g) <==> exists i: nat :: i < |table| && FallsBack(table, i, g, h)
  {
    var tail, first := table[1..], table[0];
    var h' := h - first.duration;
    assert table[..0] == [];
    BeforeFirst(table, g);
    assert GpsToUtc(table, h) == GpsToUtc(tail, h');
    forall i: nat | 0 < i < |table| ensures !FallsBack(table, i, g, h) {
      TotalPrefix(table, i);
      TotalNotNegative(tail[..i - 1]);
      FurtherThanLength(table, i);
    }
    if h' <= first.time {
      BeforeFirst(tail, h');
      assert FallsBack(table, 0, g, h) <==> h - g <= first.duration;
    } else {
      AfterFirst(tail, h', first.time);
      assert !FallsBack(table, 0, g, h);
    }
  }

  /** The eighteen leap seconds announced up to 2016. */
  const LEAP_SECONDS: seq<Leap> := [
    Leap(46828799 * SECOND, SECOND), Leap(78364799 * SECOND, SECOND), Leap(109900799 * SECOND, SECOND),
    Leap(173059199 * SECOND, SECOND), Leap(252028799 * SECOND, SECOND), Leap(315187199 * SECOND, SECOND),
    Leap(346723199 * SECOND, SECOND), Leap(393983999 * SECOND, SECOND), Leap(425519999 * SECOND, SECOND),
    Leap(457055999 * SECOND, SECOND), Leap(504489599 * SECOND, SECOND), Leap(551750399 * SECOND, SECOND),
    Leap(599183999 * SECOND, SECOND), Leap(820108799 * SECOND, SECOND), Leap(914803199 * SECOND, SECOND),
    Leap(1025135999 * SECOND, SECOND), Leap(1119743999 * SECOND, SECOND), Leap(1167263999 * SECOND, SECOND)
  ]

  lemma LeapSecondsWellFormed()
    ensures WellFormed(LEAP_SECONDS)
    ensures forall i :: 0 <= i < |LEAP_SECONDS| ==> LEAP_SECONDS[i].duration == SECOND
  {
  }

  /** After the last entry all leap seconds count. */
  lemma {:induction false} AllLeapsCount(table: seq<Leap>, t: int)
    requires forall i :: 0 <= i < |table| ==> table[i].time < t
    ensures UtcToGps(table, t) == t + Total(table)
  {
    if table != [] {
      AllLeapsCount(table[1..], t);
    }
  }

  /** GPS is 18 seconds ahead of UTC since 1 January 2017. */
  lemma AheadSince2017(t: int)
    requires 1167264000 * SECOND <= t
    ensures UtcToGps(LEAP_SECONDS, t) == t + 18 * SECOND
  {
    AllLeapsCount(LEAP_SECONDS, t);
    TotalOfSeconds(LEAP_SECONDS);
  }

  lemma {:induction false} TotalOfSeconds(table: seq<Leap>)
    requires forall i :: 0 <= i < |table| ==> table[i].duration == SECOND
    ensures Total(table) == |table| * SECOND
  {
    if table != [] {
      TotalOfSeconds(table[1..]);
    }
  }
}
