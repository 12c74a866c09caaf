/**
 What the counters of a rollup mean (core/metrics.py): exact counts of the queries behind it, and
 percentiles that are exact to the histogram bin.
 */
module Percentiles {
  import opened Wrappers
  import opened Metrics

  function CountWith(entries: seq<QueryLogEntry>, outcome: QueryOutcome): nat
  {
    if entries == [] then 0
    else CountWith(entries[..|entries| - 1], outcome) + (if entries[|entries| - 1].outcome == outcome then 1 else 0)
  }

  function CountBlockedBy(entries: seq<QueryLogEntry>, source: string): nat
  {
    if entries == [] then 0
    else
      var e := entries[|entries| - 1];
      CountBlockedBy(entries[..|entries| - 1], source) + (if e.outcome == Blocked && IsSource(e, source) then 1 else 0)
  }

  // A blocked query counts for the source it names, and for "unknown" when it names none.
  predicate IsSource(e: QueryLogEntry, source: string)
  {
    if e.blockedBy == None || e.blockedBy == Some("") then source == "unknown" else e.blockedBy == Some(source)
  }

  // The latency samples of the queries that have one.
  function Latencies(entries: seq<QueryLogEntry>): seq<real>
  {
    if entries == [] then []
    else
      var e := entries[|entries| - 1];
      Latencies(entries[..|entries| - 1]) + (if e.latencyMs.Some? then [e.latencyMs.value] else [])
  }

  function CountInBin(samples: seq<real>, bin: nat): nat
  {
    if samples == [] then 0
    else CountInBin(samples[..|samples| - 1], bin) + (if BinIndex(samples[|samples| - 1]) == bin then 1 else 0)
  }

  // Every counter of a rollup is the number of queries it claims to count.
  lemma {:induction false} TallyCounts(entries: seq<QueryLogEntry>)
    ensures var t := Tally(entries);
            && t.total == |entries|
            && t.blocked == CountWith(entries, Blocked)
            && t.cached == CountWith(entries, Cached)
            && t.forwarded == CountWith(entries, Forwarded)
            && t.blocked == |t.bySource|
            && t.blocked + t.cached + t.forwarded <= t.total
            && (forall s :: t.bySource[s] == CountBlockedBy(entries, s))
  {
    if entries != [] {
      TallyCounts(entries[..|entries| - 1]);
      forall s
        ensures Tally(entries).bySource[s] == CountBlockedBy(entries, s)
      {
        SourceCounts(Tally(entries[..|entries| - 1]).bySource, entries[|entries| - 1], s);
      }
    }
  }

  lemma {:induction false} SourceCounts(before: multiset<string>, e: QueryLogEntry, s: string)
    ensures (before + One(e).bySource)[s] == before[s] + (if e.outcome == Blocked && IsSource(e, s) then 1 else 0)
  {
  }

  lemma {:induction false} CountInBinSnoc(samples: seq<real>, x: real, bin: nat)
    ensures CountInBin(samples + [x], bin) == CountInBin(samples, bin) + (if BinIndex(x) == bin then 1 else 0)
  {
    assert (samples + [x])[..|samples|] == samples;
  }

  lemma {:induction false} OneSampleAt(e: QueryLogEntry, bin: nat)
    requires bin < BINS
    ensures OneSample(e)[bin] == if e.latencyMs.Some? && BinIndex(e.latencyMs.value) == bin then 1 else 0
  {
    assert NO_LATENCY[bin] == 0;
  }

  lemma {:induction false} TallyHistogram(entries: seq<QueryLogEntry>, bin: nat)
    requires bin < BINS
    ensures Tally(entries).histogram[bin] == CountInBin(Latencies(entries), bin)
  {
    if entries != [] {
      var n := |entries| - 1;
      TallyHistogram(entries[..n], bin);
      LastSample(entries, bin);
      LastLatency(entries, bin);
    } else {
      assert NO_LATENCY[bin] == 0;
    }
  }

  lemma {:induction false} LastSample(entries: seq<QueryLogEntry>, bin: nat)
    requires bin < BINS && entries != []
    ensures var e := entries[|entries| - 1];
            Tally(entries).histogram[bin] ==
            Tally(entries[..|entries| - 1]).histogram[bin]
            + (if e.latencyMs.Some? && BinIndex(e.latencyMs.value) == bin then 1 else 0)
  {
    OneSampleAt(entries[|entries| - 1], bin);
  }

  lemma {:induction false} LastLatency(entries: seq<QueryLogEntry>, bin: nat)
    requires entries != []
    ensures var e := entries[|entries| - 1];
            CountInBin(Latencies(entries), bin) ==
            CountInBin(Latencies(entries[..|entries| - 1]), bin)
            + (if e.latencyMs.Some? && BinIndex(e.latencyMs.value) == bin then 1 else 0)
  {
    var e := entries[|entries| - 1];
    var before := Latencies(entries[..|entries| - 1]);
    if e.latencyMs.Some? {
      CountInBinSnoc(before, e.latencyMs.value, bin);
    } else {
      assert before + [] == before;
    }
  }

  // ---------------------------------------------------------------------- percentiles

  ghost predicate SortedUp(s: seq<real>)
  {
    forall i, j | 0 <= i < j < |s| :: s[i] <= s[j]
  }

  lemma {:induction false} CountInBinIgnoresOrder(a: seq<real>, b: seq<real>, bin: nat)
    requires multiset(a) == multiset(b)
    ensures CountInBin(a, bin) == CountInBin(b, bin)
    decreases |a|
  {
    if a == [] {
      assert |multiset(b)| == 0;
    } else {
      var n := |a| - 1;
      assert a[n] in multiset(a);
      var k :| 0 <= k < |b| && b[k] == a[n];
      RemoveSame(a, b, k);
      CountInBinIgnoresOrder(a[..n], b[..k] + b[k + 1..], bin);
      CountInBinWithout(b, k, bin);
    }
  }

  lemma {:induction false} CountInBinWithout(b: seq<real>, k: nat, bin: nat)
    requires k < |b|
    ensures CountInBin(b, bin) == CountInBin(b[..k] + b[k + 1..], bin) + (if BinIndex(b[k]) == bin then 1 else 0)
  {
    CountInBinSplit(b[..k], b[k], b[k + 1..], bin);
    assert b == b[..k] + [b[k]] + b[k + 1..];
  }

  lemma {:induction false} CountInBinSplit(a: seq<real>, x: real, b: seq<real>, bin: nat)
    ensures CountInBin(a + [x] + b, bin) == CountInBin(a + b, bin) + (if BinIndex(x) == bin then 1 else 0)
  {
    if b == [] {
      assert a + [x] + b == a + [x] && a + b == a;
      CountInBinSnoc(a, x, bin);
    } else {
      var n := |b| - 1;
      assert a + [x] + b == (a + [x] + b[..n]) + [b[n]];
      assert a + b == (a + b[..n]) + [b[n]];
      CountInBinSnoc(a + [x] + b[..n], b[n], bin);
      CountInBinSnoc(a + b[..n], b[n], bin);
      CountInBinSplit(a, x, b[..n], bin);
    }
  }

  function CountUpTo(samples: seq<real>, bin: nat): nat
  {
    if samples == [] then 0
    else CountUpTo(samples[..|samples| - 1], bin) + (if BinIndex(samples[|samples| - 1]) < bin then 1 else 0)
  }

  lemma {:induction false} CountUpToStep(samples: seq<real>, bin: nat)
    ensures CountUpTo(samples, bin + 1) == CountUpTo(samples, bin) + CountInBin(samples, bin)
    ensures CountUpTo(samples, 0) == 0
    ensures CountUpTo(samples, bin) <= |samples|
  {
    if samples != [] {
      CountUpToStep(samples[..|samples| - 1], bin);
    }
  }

  lemma {:induction false} AllUpTo(samples: seq<real>)
    ensures CountUpTo(samples, BINS) == |samples|
  {
    if samples != [] {
      AllUpTo(samples[..|samples| - 1]);
    }
  }

  function Bins(samples: seq<real>): seq<nat>
  {
    seq(|samples|, i requires 0 <= i < |samples| => BinIndex(samples[i]))
  }

  function CountBelow(bins: seq<nat>, bin: nat): nat
  {
    if bins == [] then 0 else CountBelow(bins[..|bins| - 1], bin) + (if bins[|bins| - 1] < bin then 1 else 0)
  }

  lemma {:induction false} CountUpToIsBelow(samples: seq<real>, bin: nat)
    ensures CountUpTo(samples, bin) == CountBelow(Bins(samples), bin)
  {
    if samples != [] {
      CountUpToIsBelow(samples[..|samples| - 1], bin);
      assert Bins(samples)[..|samples| - 1] == Bins(samples[..|samples| - 1]);
    }
  }

  lemma {:induction false} AllBelow(bins: seq<nat>, bin: nat)
    requires forall i | 0 <= i < |bins| :: bins[i] < bin
    ensures CountBelow(bins, bin) == |bins|
  {
    if bins != [] {
      AllBelow(bins[..|bins| - 1], bin);
    }
  }

  lemma {:induction false} BelowAtMost(bins: seq<nat>, bin: nat)
    ensures CountBelow(bins, bin) <= |bins|
  {
    if bins != [] {
      BelowAtMost(bins[..|bins| - 1], bin);
    }
  }

  lemma {:induction false} RisingBinsBelow(bins: seq<nat>, k: nat, bin: nat)
    requires Rising(bins) && 1 <= k <= |bins|
    ensures CountBelow(bins, bin) >= k <==> bins[k - 1] < bin
  {
    var n := |bins| - 1;
    if bins[n] < bin {
      AllBelow(bins, bin);
    } else if k <= n {
      RisingBinsBelow(bins[..n], k, bin);
    } else {
      BelowAtMost(bins[..n], bin);
    }
  }

  lemma {:induction false} BinAtRank(samples: seq<real>, bins: seq<nat>, k: nat, bin: nat)
    requires CountUpTo(samples, bin) == CountBelow(bins, bin) && Rising(bins) && 1 <= k <= |bins|
    ensures CountUpTo(samples, bin) >= k <==> bins[k - 1] < bin
  {
    RisingBinsBelow(bins, k, bin);
  }

  lemma {:induction false} RankBin(sorted: seq<real>, k: nat, bin: nat)
    requires SortedUp(sorted) && 1 <= k <= |sorted|
    ensures CountUpTo(sorted, bin) >= k <==> Bins(sorted)[k - 1] < bin
  {
    BinsRise(sorted);
    CountUpToIsBelow(sorted, bin);
    BinAtRank(sorted, Bins(sorted), k, bin);
  }

  // In sorted order, the samples of the bins below `bin` come first.
  lemma {:induction false} OrderStatisticBin(sorted: seq<real>, k: nat, bin: nat)
    requires SortedUp(sorted) && 1 <= k <= |sorted|
    ensures CountUpTo(sorted, bin) >= k <==> BinIndex(sorted[k - 1]) < bin
  {
    RankBin(sorted, k, bin);
  }

  ghost predicate Rising(bins: seq<nat>)
  {
    forall i, j | 0 <= i < j < |bins| :: bins[i] <= bins[j]
  }

  lemma {:induction false} BinsRise(sorted: seq<real>)
    requires SortedUp(sorted)
    ensures Rising(Bins(sorted))
  {
    forall i, j | 0 <= i < j < |sorted|
      ensures Bins(sorted)[i] <= Bins(sorted)[j]
    {
      BinIndexIsMonotone(sorted[i], sorted[j]);
    }
  }

  lemma {:induction false} SumIsCountUpTo(h: Histogram, samples: seq<real>, n: nat)
    requires n <= BINS
    requires forall b | 0 <= b < BINS :: h[b] == CountInBin(samples, b)
    ensures SumUpTo(h, n) == CountUpTo(samples, n)
  {
    if n == 0 {
      CountUpToStep(samples, 0);
    } else {
      SumIsCountUpTo(h, samples, n - 1);
      CountUpToStep(samples, n - 1);
    }
  }

  // The nearest rank: the least whole number not below the rank.
  function CeilingOf(r: real): (k: int)
    ensures r <= k as real < r + 1.0
  {
    -((-r).Floor)
  }

  predicate Reaches(h: Histogram, rank: real, n: nat)
    requires n <= BINS
  {
    SumUpTo(h, n) as real >= rank
  }

  lemma {:induction false} FirstReachingIs(h: Histogram, rank: real, index: nat, bin: nat)
    requires index <= bin < BINS
    requires forall n | 1 <= n <= BINS :: Reaches(h, rank, n) <==> bin < n
    ensures FirstReaching(h, rank, index) == bin
    decreases BINS - index
  {
    assert Reaches(h, rank, index + 1) <==> bin < index + 1;
    if index < bin {
      FirstReachingIs(h, rank, index + 1, bin);
    }
  }

  lemma {:induction false} HistogramOfSorted(entries: seq<QueryLogEntry>, sorted: seq<real>, n: nat)
    requires n <= BINS && multiset(sorted) == multiset(Latencies(entries))
    ensures SumUpTo(Tally(entries).histogram, n) == CountUpTo(sorted, n)
  {
    var h := Tally(entries).histogram;
    forall b | 0 <= b < BINS
      ensures h[b] == CountInBin(sorted, b)
    {
      TallyHistogram(entries, b);
      CountInBinIgnoresOrder(sorted, Latencies(entries), b);
    }
    SumIsCountUpTo(h, sorted, n);
  }

  lemma {:induction false} RankReached(h: Histogram, sorted: seq<real>, rank: real, n: nat)
    requires SortedUp(sorted) && n <= BINS && SumUpTo(h, n) == CountUpTo(sorted, n)
    requires 1 <= CeilingOf(rank) <= |sorted|
    ensures Reaches(h, rank, n) <==> BinIndex(sorted[CeilingOf(rank) - 1]) < n
  {
    OrderStatisticBin(sorted, CeilingOf(rank), n);
  }

  lemma {:induction false} NearestRankIsAnIndex(percentile: real, n: nat)
    requires 0.0 < percentile <= 100.0 && n > 0
    ensures 1 <= CeilingOf(RankOf(percentile, n)) <= n
  {
    RankIsReached(percentile, n);
  }

  lemma {:induction false} BinOfRank(entries: seq<QueryLogEntry>, sorted: seq<real>, rank: real, bin: nat)
    requires SortedUp(sorted) && multiset(sorted) == multiset(Latencies(entries))
    requires 1 <= CeilingOf(rank) <= |sorted|
    requires bin == BinIndex(sorted[CeilingOf(rank) - 1])
    ensures FirstReaching(Tally(entries).histogram, rank, 0) == bin
  {
    forall n | 1 <= n <= BINS
      ensures Reaches(Tally(entries).histogram, rank, n) <==> bin < n
    {
      HistogramOfSorted(entries, sorted, n);
      RankReached(Tally(entries).histogram, sorted, rank, n);
    }
    FirstReachingIs(Tally(entries).histogram, rank, 0, bin);
  }

  lemma {:induction false} SampleCount(entries: seq<QueryLogEntry>, sorted: seq<real>)
    requires SortedUp(sorted) && multiset(sorted) == multiset(Latencies(entries))
    ensures SumUpTo(Tally(entries).histogram, BINS) == |sorted|
  {
    HistogramOfSorted(entries, sorted, BINS);
    AllUpTo(sorted);
  }

  lemma {:induction false} PercentileByBin(h: Histogram, percentile: real, n: nat, bin: nat)
    requires SumUpTo(h, BINS) == n > 0
    requires FirstReaching(h, RankOf(percentile, n), 0) == bin
    ensures PercentileOf(h, percentile) == Some(BoundOf(bin))
  {
  }

  // latency_percentile is the bound of the bin of the nearest-rank order statistic: sort all the
  // latency samples behind a rollup, take number ceil(p/100 * n), report the bound of its bin.
  lemma {:induction false} PercentileIsNearestRank(
    entries: seq<QueryLogEntry>, sorted: seq<real>, percentile: real, k: int)
    requires 0.0 < percentile <= 100.0
    requires SortedUp(sorted) && multiset(sorted) == multiset(Latencies(entries)) && sorted != []
    requires k == CeilingOf(RankOf(percentile, |sorted|))
    ensures 1 <= k <= |sorted|
    ensures PercentileOf(Tally(entries).histogram, percentile) == Some(BoundOf(BinIndex(sorted[k - 1])))
  {
    SampleCount(entries, sorted);
    NearestRankIsAnIndex(percentile, |sorted|);
    var bin := BinIndex(sorted[k - 1]);
    BinOfRank(entries, sorted, RankOf(percentile, |sorted|), bin);
    PercentileByBin(Tally(entries).histogram, percentile, |sorted|, bin);
  }

  const BOUNDS: set<real> := {1.0, 2.0, 5.0, 10.0, 20.0, 50.0, 100.0, 200.0, 500.0, 1000.0}

  // The least bound that the sample does not exceed, and the last one for a sample beyond them all.
  predicate IsBoundFor(bound: real, sample: real)
  {
    && bound in BOUNDS
    && (sample <= 1000.0 ==> sample <= bound && forall b | b in BOUNDS && sample <= b :: bound <= b)
    && (sample > 1000.0 ==> bound == 1000.0)
  }

  lemma {:induction false} BoundsRise(i: nat, j: nat)
    requires i < j < |LATENCY_BINS_MS|
    ensures LATENCY_BINS_MS[i] < LATENCY_BINS_MS[j]
  {
  }

  lemma {:induction false} BoundsAre(b: real)
    ensures b in BOUNDS <==> b in LATENCY_BINS_MS
  {
    assert LATENCY_BINS_MS[0] == 1.0 && LATENCY_BINS_MS[1] == 2.0 && LATENCY_BINS_MS[2] == 5.0;
    assert LATENCY_BINS_MS[3] == 10.0 && LATENCY_BINS_MS[4] == 20.0 && LATENCY_BINS_MS[5] == 50.0;
    assert LATENCY_BINS_MS[6] == 100.0 && LATENCY_BINS_MS[7] == 200.0 && LATENCY_BINS_MS[8] == 500.0;
    assert LATENCY_BINS_MS[9] == 1000.0;
  }

  lemma {:induction false} BoundOfBin(sample: real)
    ensures IsBoundFor(BoundOf(BinIndex(sample)), sample)
  {
    var bin := BinIndex(sample);
    BoundsAre(BoundOf(bin));
    if sample <= 1000.0 {
      assert bin < BINS - 1 by {
        assert LATENCY_BINS_MS[9] == 1000.0;
      }
      forall b | b in BOUNDS && sample <= b
        ensures BoundOf(bin) <= b
      {
        BoundsAre(b);
        var j :| 0 <= j < |LATENCY_BINS_MS| && LATENCY_BINS_MS[j] == b;
        if bin < j {
          BoundsRise(bin, j);
        }
      }
    }
  }

  // The percentile in numbers: sample number k of n, with k the least number of which 100 k is not below
  // p n, rounded up to a bound.
  lemma {:induction false} PercentileRoundsUpNearestRank(
    entries: seq<QueryLogEntry>, sorted: seq<real>, percentile: real, k: int)
    requires 0.0 < percentile <= 100.0
    requires SortedUp(sorted) && multiset(sorted) == multiset(Latencies(entries)) && sorted != []
    requires 100.0 * (k - 1) as real < percentile * |sorted| as real <= 100.0 * k as real
    ensures 1 <= k <= |sorted|
    ensures var p := PercentileOf(Tally(entries).histogram, percentile);
            p.Some? && IsBoundFor(p.value, sorted[k - 1])
  {
    var rank := RankOf(percentile, |sorted|);
    assert 100.0 * rank == percentile * |sorted| as real;
    assert k == CeilingOf(rank);
    PercentileIsNearestRank(entries, sorted, percentile, k);
    BoundOfBin(sorted[k - 1]);
  }

  // There is no percentile exactly when no query had a latency.
  lemma {:induction false} NoPercentileWithoutSamples(entries: seq<QueryLogEntry>, sorted: seq<real>, percentile: real)
    requires SortedUp(sorted) && multiset(sorted) == multiset(Latencies(entries))
    ensures PercentileOf(Tally(entries).histogram, percentile).None? <==> sorted == []
  {
    SampleCount(entries, sorted);
  }
}
