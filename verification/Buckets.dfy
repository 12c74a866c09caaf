/**
 Time buckets (core/metrics.py). Minutes and hours are cut in UTC, days at local midnight. Moments
 are whole seconds since the epoch.
 */
module Buckets {
  datatype Resolution = Minute | Hour | Day

  // A time zone, reduced to its days: the local midnight at or before a moment, and the one after.
  datatype Zone = Zone(midnight: int -> int, nextMidnight: int -> int)

  // Local midnights are whole minutes, every day starts at its own midnight and ends at the next.
  ghost predicate IsZone(z: Zone)
  {
    && (forall t {:trigger z.midnight(t)} :: z.midnight(t) <= t < z.nextMidnight(z.midnight(t)))
    && (forall t {:trigger z.midnight(t)} :: z.midnight(t) % 60 == 0)
    && (forall t {:trigger z.midnight(t)} :: z.nextMidnight(z.midnight(t)) % 60 == 0)
    && (forall t, u {:trigger z.midnight(t), z.midnight(u)} ::
          z.midnight(t) <= u < z.nextMidnight(z.midnight(t)) ==> z.midnight(u) == z.midnight(t))
  }

  function BucketStart(t: int, r: Resolution, z: Zone): int
  {
    match r
    case Minute => t - t % 60
    case Hour => t - t % 3600
    case Day => z.midnight(t)
  }

  function BucketEnd(start: int, r: Resolution, z: Zone): int
  {
    match r
    case Minute => start + 60
    case Hour => start + 3600
    case Day => z.nextMidnight(z.midnight(start))
  }

  lemma {:induction false} MinutesTile(t: int, u: int)
    ensures t - t % 60 <= t < t - t % 60 + 60
    ensures t - t % 60 <= u < t - t % 60 + 60 <==> u - u % 60 == t - t % 60
  {
    var a, b := t / 60, u / 60;
    assert t - t % 60 == 60 * a && u - u % 60 == 60 * b;
    assert 60 * b <= u < 60 * b + 60;
  }

  lemma {:induction false} HoursTile(t: int, u: int)
    ensures t - t % 3600 <= t < t - t % 3600 + 3600
    ensures t - t % 3600 <= u < t - t % 3600 + 3600 <==> u - u % 3600 == t - t % 3600
  {
    var a, b := t / 3600, u / 3600;
    assert t - t % 3600 == 3600 * a && u - u % 3600 == 3600 * b;
    assert 3600 * b <= u < 3600 * b + 3600;
  }

  lemma {:induction false} DaysTile(t: int, u: int, z: Zone)
    requires IsZone(z)
    ensures z.midnight(z.midnight(t)) == z.midnight(t)
    ensures z.midnight(t) <= u < z.nextMidnight(z.midnight(t)) <==> z.midnight(u) == z.midnight(t)
  {
    assert z.midnight(u) <= u < z.nextMidnight(z.midnight(u));
  }

  // Buckets tile the time line: a moment is in [start, end) of a bucket exactly when that is its
  // bucket, at every resolution.
  lemma {:induction false} BucketsTile(t: int, u: int, r: Resolution, z: Zone)
    requires IsZone(z)
    ensures var start := BucketStart(t, r, z);
            && start <= t < BucketEnd(start, r, z)
            && (start <= u < BucketEnd(start, r, z) <==> BucketStart(u, r, z) == start)
  {
    match r
    case Minute => MinutesTile(t, u);
    case Hour => HoursTile(t, u);
    case Day => DaysTile(t, u, z);
  }

  // Bucketing the start of the minute of a moment gives the bucket of the moment.
  lemma {:induction false} Rebucket(t: int, r: Resolution, z: Zone)
    requires IsZone(z)
    ensures BucketStart(BucketStart(t, Minute, z), r, z) == BucketStart(t, r, z)
    ensures BucketStart(t, r, z) <= BucketStart(t, Minute, z)
  {
    var m := t - t % 60;
    match r
    case Minute =>
    case Hour => assert t % 3600 - t % 60 == m % 3600 by { HourMinute(t); }
    case Day =>
      assert z.midnight(t) <= m by { MinuteBelow(z.midnight(t), t); }
      assert z.midnight(m) == z.midnight(t);
  }

  lemma {:induction false} HourMinute(t: int)
    ensures (t - t % 60) % 3600 == t % 3600 - t % 60
  {
    var h := t / 3600;
    var q := t / 60;
    assert t == 3600 * h + t % 3600;
    assert t - t % 60 == 60 * q;
    assert 60 * h <= q < 60 * h + 60;
    assert 60 * q == 3600 * h + 60 * (q - 60 * h);
  }

  lemma {:induction false} MinuteBelow(a: int, t: int)
    requires a % 60 == 0 && a <= t
    ensures a <= t - t % 60
  {
    assert a == 60 * (a / 60) && t - t % 60 == 60 * (t / 60);
  }

  // The start and the end of every bucket are whole minutes.
  lemma {:induction false} BucketsAreWholeMinutes(t: int, r: Resolution, z: Zone)
    requires IsZone(z)
    ensures BucketStart(t, r, z) % 60 == 0 && BucketEnd(BucketStart(t, r, z), r, z) % 60 == 0
  {
    match r
    case Minute =>
      assert t - t % 60 == 60 * (t / 60);
      SixtyDivides(t / 60);
      SixtyDivides(t / 60 + 1);
    case Hour =>
      assert t - t % 3600 == 60 * (60 * (t / 3600));
      SixtyDivides(60 * (t / 3600));
      SixtyDivides(60 * (t / 3600) + 60);
    case Day => DaysTile(t, t, z);
  }

  // A minute and an hour begin and end where the clock does; a day is what lies between two local midnights.
  lemma {:induction false} BucketsAre(t: int, z: Zone)
    requires IsZone(z)
    ensures var start := BucketStart(t, Minute, z);
            start % 60 == 0 && start <= t < start + 60 && BucketEnd(start, Minute, z) == start + 60
    ensures var start := BucketStart(t, Hour, z);
            start % 3600 == 0 && start <= t < start + 3600 && BucketEnd(start, Hour, z) == start + 3600
    ensures var start := BucketStart(t, Day, z);
            start == z.midnight(t) && BucketEnd(start, Day, z) == z.nextMidnight(start)
  {
    MultipleBelow(t, 60);
    MultipleBelow(t, 3600);
    DaysTile(t, t, z);
  }

  lemma {:induction false} MultipleBelow(t: int, unit: int)
    requires unit == 60 || unit == 3600
    ensures (t - t % unit) % unit == 0 && t - t % unit <= t < t - t % unit + unit
  {
    if unit == 60 {
      assert t - t % 60 == 60 * (t / 60);
    } else {
      assert t - t % 3600 == 3600 * (t / 3600);
    }
  }

  lemma {:induction false} SixtyDivides(k: int)
    ensures 60 * k % 60 == 0
  {
  }
}
