/**
 Mergeable metrics (core/metrics.py): rollups, latency histograms with percentiles, time buckets.
 */
module Metrics {
  import opened Wrappers

  datatype QueryOutcome = Forwarded | Cached | Blocked | OtherOutcome

  datatype QueryLogEntry = QueryLogEntry(
    id: int, time: int, clientAddress: string, domain: string, outcome: QueryOutcome,
    blockedBy: Option<string>, latencyMs: Option<real>)

  // ---------------------------------------------------------------------- histograms

  const LATENCY_BINS_MS: seq<real> := [1.0, 2.0, 5.0, 10.0, 20.0, 50.0, 100.0, 200.0, 500.0, 1000.0]
  const BINS: nat := 11   // ten bounds and the overflow bin

  function BinFrom(latency: real, index: nat): (i: nat)
    requires index <= |LATENCY_BINS_MS|
    ensures index <= i <= |LATENCY_BINS_MS|
    ensures i < |LATENCY_BINS_MS| ==> latency <= LATENCY_BINS_MS[i]
    ensures forall j | index <= j < i :: latency > LATENCY_BINS_MS[j]
    decreases |LATENCY_BINS_MS| - index
  {
    if index == |LATENCY_BINS_MS| then index
    else if latency <= LATENCY_BINS_MS[index] then index
    else BinFrom(latency, index + 1)
  }

  function BinIndex(latency: real): (i: nat)
    ensures i < BINS
  {
    BinFrom(latency, 0)
  }

  lemma {:induction false} BinIndexIsMonotone(a: real, b: real)
    requires a <= b
    ensures BinIndex(a) <= BinIndex(b)
  {
  }

  // ------------------------------------------------------------------------- rollups

  type Histogram = h: seq<nat> | |h| == BINS witness [0, 0, 0, 0, 0, 0, 0, 0, 0, 0, 0]

  // blocked_by_source, a dictionary of positive counters, is a multiset of sources.
  datatype Counts = Counts(
    total: nat, blocked: nat, cached: nat, forwarded: nat, histogram: Histogram, bySource: multiset<string>)

  function AddHistograms(a: Histogram, b: Histogram): Histogram
  {
    seq(BINS, i requires 0 <= i < BINS => a[i] + b[i])
  }

  const NO_LATENCY: Histogram := [0, 0, 0, 0, 0, 0, 0, 0, 0, 0, 0]
  const ZERO: Counts := Counts(0, 0, 0, 0, NO_LATENCY, multiset{})

  function Merge(a: Counts, b: Counts): Counts
  {
    Counts(a.total + b.total, a.blocked + b.blocked, a.cached + b.cached, a.forwarded + b.forwarded,
           AddHistograms(a.histogram, b.histogram), a.bySource + b.bySource)
  }

  function SourceOf(e: QueryLogEntry): string
  {
    if e.blockedBy.Some? && e.blockedBy.value != "" then e.blockedBy.value else "unknown"
  }

  function OneSample(e: QueryLogEntry): Histogram
  {
    if e.latencyMs.Some? then NO_LATENCY[BinIndex(e.latencyMs.value) := 1] else NO_LATENCY
  }

  // The rollup of a single query.
  function One(e: QueryLogEntry): Counts
  {
    Counts(1,
           if e.outcome == Blocked then 1 else 0,
           if e.outcome == Cached then 1 else 0,
           if e.outcome == Forwarded then 1 else 0,
           OneSample(e),
           if e.outcome == Blocked then multiset{SourceOf(e)} else multiset{})
  }

  function Tally(entries: seq<QueryLogEntry>): Counts
  {
    if entries == [] then ZERO else Merge(Tally(entries[..|entries| - 1]), One(entries[|entries| - 1]))
  }

  class Rollup {
    var total: nat
    var blocked: nat
    var cached: nat
    var forwarded: nat
    var histogram: Histogram
    var bySource: multiset<string>

    ghost function Value(): Counts
      reads this
    {
      Counts(total, blocked, cached, forwarded, histogram, bySource)
    }

    constructor ()
      ensures Value() == ZERO
    {
      total, blocked, cached, forwarded, histogram, bySource := 0, 0, 0, 0, NO_LATENCY, multiset{};
    }

    method Add(e: QueryLogEntry)
      modifies this
      ensures Value() == Merge(old(Value()), One(e))
    {
      total := total + 1;
      if e.outcome == Blocked {
        blocked, bySource := blocked + 1, bySource[SourceOf(e) := bySource[SourceOf(e)] + 1];
      } else if e.outcome == Cached {
        cached := cached + 1;
      } else if e.outcome == Forwarded {
        forwarded := forwarded + 1;
      }
      AddSample(e);
    }

    method AddSample(e: QueryLogEntry)
      modifies this`histogram
      ensures histogram == AddHistograms(old(histogram), OneSample(e))
    {
      CountOneSample(histogram, e);
      if e.latencyMs.Some? {
        var i := BinIndex(e.latencyMs.value);
        histogram := histogram[i := histogram[i] + 1];
      }
    }

    method MergeFrom(other: Rollup)
      modifies this
      ensures Value() == Merge(old(Value()), old(other.Value()))
    {
      histogram := AddHistograms(histogram, other.histogram);
      bySource := bySource + other.bySource;
      total, blocked, cached, forwarded :=
        total + other.total, blocked + other.blocked, cached + other.cached, forwarded + other.forwarded;
    }

    // Upper bound of the bin that holds the percentile; None without samples. The error is a
    // percentile outside (0, 100].
    method LatencyPercentile(percentile: real) returns (r: Option<real>, error: bool)
      ensures error <==> !(0.0 < percentile <= 100.0)
      ensures !error ==> r == PercentileOf(histogram, percentile)
    {
      if !(0.0 < percentile <= 100.0) {
        return None, true;
      }
      var samples := SumUpTo(histogram, BINS);
      if samples == 0 {
        return None, false;
      }
      var rank := RankOf(percentile, samples);
      RankIsReached(percentile, samples);
      var index := FindRank(histogram, rank);
      return Some(BoundOf(index)), false;
    }
  }

  // The loop of latency_percentile; its fallback after the loop is never reached.
  method FindRank(h: Histogram, rank: real) returns (bin: nat)
    requires rank <= SumUpTo(h, BINS) as real
    ensures bin == FirstReaching(h, rank, 0)
  {
    var running: nat := 0;
    for index := 0 to BINS
      invariant running == SumUpTo(h, index)
      invariant index > 0 ==> (running as real) < rank
      invariant FirstReaching(h, rank, 0) == FirstReaching(h, rank, index)
    {
      running := running + h[index];
      if running as real >= rank {
        return index;
      }
    }
    assert false;
  }

  lemma {:induction false} CountOneSample(h: Histogram, e: QueryLogEntry)
    ensures AddHistograms(h, OneSample(e)) ==
            if e.latencyMs.Some? then h[BinIndex(e.latencyMs.value) := h[BinIndex(e.latencyMs.value)] + 1] else h
  {
    assert forall i | 0 <= i < BINS :: NO_LATENCY[i] == 0;
    if e.latencyMs.Some? {
      var k := BinIndex(e.latencyMs.value);
      assert AddHistograms(h, OneSample(e)) == h[k := h[k] + 1];
    } else {
      assert AddHistograms(h, OneSample(e)) == h;
    }
  }

  function SumUpTo(h: Histogram, n: nat): nat
    requires n <= BINS
  {
    if n == 0 then 0 else SumUpTo(h, n - 1) + h[n - 1]
  }

  // The first bin at which the running sum reaches the rank.
  function FirstReaching(h: Histogram, rank: real, index: nat): nat
    requires index <= BINS
    decreases BINS - index
  {
    if index == BINS then BINS
    else if SumUpTo(h, index + 1) as real >= rank then index
    else FirstReaching(h, rank, index + 1)
  }

  function BoundOf(bin: nat): real
  {
    LATENCY_BINS_MS[if bin < |LATENCY_BINS_MS| - 1 then bin else |LATENCY_BINS_MS| - 1]
  }

  function PercentileOf(h: Histogram, percentile: real): Option<real>
  {
    var samples := SumUpTo(h, BINS);
    if samples == 0 then None
    else Some(BoundOf(FirstReaching(h, RankOf(percentile, samples), 0)))
  }

  function RankOf(percentile: real, samples: nat): real
  {
    percentile / 100.0 * samples as real
  }

  lemma {:induction false} RankIsReached(percentile: real, samples: nat)
    requires 0.0 < percentile <= 100.0
    ensures 0.0 <= RankOf(percentile, samples) <= samples as real
    ensures samples > 0 ==> 0.0 < RankOf(percentile, samples)
  {
    var f := percentile / 100.0;
    assert 0.0 < f <= 1.0;
    assert f * samples as real <= 1.0 * samples as real;
    assert samples > 0 ==> f * samples as real > 0.0;
  }

  // --------------------------------------------------------------------- merge algebra

  lemma {:induction false} HistogramsCommute(a: Histogram, b: Histogram)
    ensures AddHistograms(a, b) == AddHistograms(b, a)
  {
  }

  lemma {:induction false} HistogramsAssociate(a: Histogram, b: Histogram, c: Histogram)
    ensures AddHistograms(AddHistograms(a, b), c) == AddHistograms(a, AddHistograms(b, c))
  {
  }

  lemma {:induction false} MergeCommutes(a: Counts, b: Counts)
    ensures Merge(a, b) == Merge(b, a)
  {
    HistogramsCommute(a.histogram, b.histogram);
  }

  lemma {:induction false} MergeAssociates(a: Counts, b: Counts, c: Counts)
    ensures Merge(Merge(a, b), c) == Merge(a, Merge(b, c))
  {
    HistogramsAssociate(a.histogram, b.histogram, c.histogram);
  }

  lemma {:induction false} MergeZero(a: Counts)
    ensures Merge(a, ZERO) == a && Merge(ZERO, a) == a
  {
    assert AddHistograms(a.histogram, NO_LATENCY) == a.histogram;
    HistogramsCommute(a.histogram, NO_LATENCY);
  }

  // Merging the rollups of two batches is the rollup of both.
  lemma {:induction false} TallyConcat(a: seq<QueryLogEntry>, b: seq<QueryLogEntry>)
    ensures Tally(a + b) == Merge(Tally(a), Tally(b))
  {
    if b == [] {
      assert a + b == a;
      MergeZero(Tally(a));
    } else {
      var n := |b| - 1;
      assert (a + b)[..|a + b| - 1] == a + b[..n];
      TallyConcat(a, b[..n]);
      MergeAssociates(Tally(a), Tally(b[..n]), One(b[n]));
    }
  }

  // A rollup does not depend on the order of the queries.
  lemma {:induction false} TallyIgnoresOrder(a: seq<QueryLogEntry>, b: seq<QueryLogEntry>)
    requires multiset(a) == multiset(b)
    ensures Tally(a) == Tally(b)
    decreases |a|
  {
    if a == [] {
      assert |multiset(b)| == 0;
    } else {
      var n := |a| - 1;
      var x := a[n];
      assert x in multiset(a);
      var k :| 0 <= k < |b| && b[k] == x;
      RemoveSame(a, b, k);
      assert b == b[..k] + ([x] + b[k + 1..]);
      TallyIgnoresOrder(a[..n], b[..k] + b[k + 1..]);
      TallyMoveToEnd(b[..k], x, b[k + 1..]);
    }
  }

  lemma {:induction false} RemoveSame<T>(a: seq<T>, b: seq<T>, k: nat)
    requires a != [] && k < |b| && b[k] == a[|a| - 1]
    requires multiset(a) == multiset(b)
    ensures multiset(a[..|a| - 1]) == multiset(b[..k] + b[k + 1..])
  {
    WithoutOne(a, |a| - 1);
    WithoutOne(b, k);
    assert a[..|a| - 1] + a[|a|..] == a[..|a| - 1];
  }

  lemma {:induction false} WithoutOne<T>(s: seq<T>, k: nat)
    requires k < |s|
    ensures multiset(s[..k] + s[k + 1..]) == multiset(s) - multiset{s[k]}
  {
    assert s == s[..k] + [s[k]] + s[k + 1..];
  }

  lemma {:induction false} TallyMoveToEnd(a: seq<QueryLogEntry>, x: QueryLogEntry, b: seq<QueryLogEntry>)
    ensures Tally(a + ([x] + b)) == Merge(Tally(a + b), One(x))
  {
    assert [x][..0] == [];
    MergeZero(One(x));
    assert Tally([x]) == One(x);
    TallyConcat(a, [x] + b);
    TallyConcat([x], b);
    TallyConcat(a, b);
    MergeCommutes(One(x), Tally(b));
    MergeAssociates(Tally(a), Tally(b), One(x));
  }
}
