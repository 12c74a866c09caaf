/**
 The pending minutes of the collector are the rollups of the queries credited since the last flush,
 and a flush adds exactly those to every row it touches.
 */
module PendingSums {
  import opened SortedSets
  import opened Metrics
  import opened Buckets
  import opened Dashboard
  import opened Registry
  import opened Attribution
  import opened Collector

  function MinuteOf(c: Credit, z: Zone): PendingKey
  {
    PendingKey(BucketStart(c.entry.time, Minute, z), c.device)
  }

  function Minutes(z: Zone): Credit -> PendingKey
  {
    c => MinuteOf(c, z)
  }

  function InMinute(k: PendingKey, z: Zone): Credit -> bool
  {
    c => MinuteOf(c, z) == k
  }

  function InBucket(k: RollupKey, z: Zone): Credit -> bool
  {
    (c: Credit) => BucketStart(c.entry.time, k.resolution, z) == k.start && c.device == k.device
  }

  // The credits a poll adds, in the order of its entries.
  function CreditsOf(m: Memory, entries: seq<QueryLogEntry>, z: Zone): (cs: seq<Credit>)
    requires Sound(m.registry)
    ensures |cs| == |entries| && forall i | 0 <= i < |cs| :: cs[i].entry == entries[i]
  {
    if entries == [] then []
    else
      var front, e := entries[..|entries| - 1], entries[|entries| - 1];
      CreditsOf(m, front, z) + [Credit(ResolvedId(Absorbed(m, front, z).registry, e.clientAddress), e)]
  }

  ghost predicate PendingIs(pending: map<PendingKey, Counts>, cs: seq<Credit>, z: Zone)
  {
    && (forall k :: PendingAt(pending, k) == TallyOf(cs, InMinute(k, z)))
    && (forall c | c in cs :: MinuteOf(c, z) in pending)
  }

  function Counted(pending: map<PendingKey, Counts>, key: PendingKey, e: QueryLogEntry): map<PendingKey, Counts>
  {
    pending[key := Merge(PendingAt(pending, key), One(e))]
  }

  lemma {:induction false} CountedAt(pending: map<PendingKey, Counts>, cs: seq<Credit>, c: Credit, k: PendingKey, z: Zone)
    requires PendingAt(pending, k) == TallyOf(cs, InMinute(k, z))
    ensures PendingAt(Counted(pending, MinuteOf(c, z), c.entry), k) == TallyOf(cs + [c], InMinute(k, z))
  {
    TallyOfSnoc(cs, c, InMinute(k, z));
  }

  lemma {:induction false} CountedOnce(pending: map<PendingKey, Counts>, cs: seq<Credit>, c: Credit, z: Zone)
    requires PendingIs(pending, cs, z)
    ensures PendingIs(Counted(pending, MinuteOf(c, z), c.entry), cs + [c], z)
  {
    var next := Counted(pending, MinuteOf(c, z), c.entry);
    forall k
      ensures PendingAt(next, k) == TallyOf(cs + [c], InMinute(k, z))
    {
      CountedAt(pending, cs, c, k, z);
    }
    forall d | d in cs + [c]
      ensures MinuteOf(d, z) in next
    {
      assert d in cs || d == c;
    }
  }

  lemma {:induction false} AppendLast(cs: seq<Credit>, ds: seq<Credit>, c: Credit)
    ensures cs + (ds + [c]) == cs + ds + [c]
  {
  }

  lemma {:induction false} AbsorbedIs(m: Memory, cs: seq<Credit>, entries: seq<QueryLogEntry>, z: Zone)
    requires Sound(m.registry) && PendingIs(m.pending, cs, z)
    ensures PendingIs(Absorbed(m, entries, z).pending, cs + CreditsOf(m, entries, z), z)
  {
    if entries == [] {
      assert cs + [] == cs;
    } else {
      var front, e := entries[..|entries| - 1], entries[|entries| - 1];
      AbsorbedIs(m, cs, front, z);
      var before := Absorbed(m, front, z);
      var c := Credit(ResolvedId(before.registry, e.clientAddress), e);
      CountedOnce(before.pending, cs + CreditsOf(m, front, z), c, z);
      AppendLast(cs, CreditsOf(m, front, z), c);
      assert MinuteOf(c, z) == KeyOf(before.registry, e, z);
      assert Absorbed(m, entries, z) == AbsorbedOne(before, e, z);
    }
  }

  // ------------------------------------------------------------------------------ flush

  // What the statements of a batch add to one row.
  function Added(ds: seq<RollupDelta>, k: RollupKey): Counts
  {
    if ds == [] then ZERO
    else
      var front, last := Added(ds[..|ds| - 1], k), ds[|ds| - 1];
      if last.key == k then Merge(front, last.delta) else front
  }

  lemma {:induction false} AddedAppend(ds: seq<RollupDelta>, es: seq<RollupDelta>, k: RollupKey)
    ensures Added(ds + es, k) == Merge(Added(ds, k), Added(es, k))
  {
    if es == [] {
      assert ds + es == ds;
      MergeZero(Added(ds, k));
    } else {
      var front, last := es[..|es| - 1], es[|es| - 1];
      assert (ds + es)[..|ds + es| - 1] == ds + front;
      AddedAppend(ds, front, k);
      MergeAssociates(Added(ds, k), Added(front, k), last.delta);
    }
  }

  lemma {:induction false} MergedRows(rollups: map<RollupKey, Counts>, devices: set<nat>, ds: seq<RollupDelta>, k: RollupKey)
    requires MergeRollups(rollups, devices, ds).Some?
    ensures CountsAt(MergeRollups(rollups, devices, ds).value, k) == Merge(CountsAt(rollups, k), Added(ds, k))
  {
    if ds == [] {
      MergeZero(CountsAt(rollups, k));
    } else {
      var front, last := ds[..|ds| - 1], ds[|ds| - 1];
      MergedRows(rollups, devices, front, k);
      MergeAssociates(CountsAt(rollups, k), Added(front, k), last.delta);
    }
  }

  predicate Feeds(key: PendingKey, k: RollupKey, z: Zone)
  {
    BucketStart(key.minute, k.resolution, z) == k.start && key.device == k.device
  }

  lemma {:induction false} AddedByKey(key: PendingKey, counts: Counts, k: RollupKey, z: Zone)
    ensures Added(KeyDeltas(key, counts, z), k) == if Feeds(key, k, z) then counts else ZERO
  {
    var ds := KeyDeltas(key, counts, z);
    assert ds[..2] == [ds[0], ds[1]] && ds[..1] == [ds[0]];
    assert [ds[0], ds[1]][..1] == [ds[0]] && [ds[0]][..0] == [];
    assert Added([], k) == ZERO;
    assert Added([ds[0]], k) == if ds[0].key == k then Merge(ZERO, counts) else ZERO;
    assert Added(ds[..2], k) == if ds[1].key == k then Merge(Added([ds[0]], k), counts) else Added([ds[0]], k);
    assert Added(ds, k) == if ds[2].key == k then Merge(Added(ds[..2], k), counts) else Added(ds[..2], k);
    MergeZero(counts);
  }

  lemma {:induction false} KeyShare(pending: map<PendingKey, Counts>, cs: seq<Credit>, key: PendingKey, k: RollupKey, z: Zone)
    requires IsZone(z) && PendingIs(pending, cs, z) && key in pending
    ensures TallyOf(cs, WithKey(InBucket(k, z), Minutes(z), key)) == if Feeds(key, k, z) then pending[key] else ZERO
  {
    forall c | c in cs && MinuteOf(c, z) == key
      ensures InBucket(k, z)(c) <==> Feeds(key, k, z)
    {
      Rebucket(c.entry.time, k.resolution, z);
    }
    if Feeds(key, k, z) {
      TallyOfSame(cs, WithKey(InBucket(k, z), Minutes(z), key), InMinute(key, z));
      assert PendingAt(pending, key) == TallyOf(cs, InMinute(key, z));
    } else {
      TallyOfNone(cs, WithKey(InBucket(k, z), Minutes(z), key));
    }
  }

  lemma {:induction false} DeltasByKey(
    pending: map<PendingKey, Counts>, cs: seq<Credit>, keys: seq<PendingKey>, k: RollupKey, z: Zone)
    requires IsZone(z) && PendingIs(pending, cs, z)
    requires forall key | key in keys :: key in pending
    ensures Added(Deltas(pending, keys, z), k) == SumByKey(cs, InBucket(k, z), Minutes(z), keys)
  {
    if keys != [] {
      var front, last := keys[..|keys| - 1], keys[|keys| - 1];
      DeltasByKey(pending, cs, front, k, z);
      AddedAppend(Deltas(pending, front, z), KeyDeltas(last, pending[last], z), k);
      AddedByKey(last, pending[last], k, z);
      KeyShare(pending, cs, last, k, z);
    }
  }

  // A batch adds to each row the rollup of the credited queries of its bucket and device.
  lemma {:induction false} BatchAdds(pending: map<PendingKey, Counts>, cs: seq<Credit>, k: RollupKey, z: Zone)
    requires IsZone(z) && PendingIs(pending, cs, z)
    ensures Added(Deltas(pending, Sorted(pending.Keys, KeyLe), z), k) == TallyOf(cs, InBucket(k, z))
  {
    var keys := Sorted(pending.Keys, KeyLe);
    DeltasByKey(pending, cs, keys, k, z);
    Partition(cs, InBucket(k, z), Minutes(z), keys);
  }
}
