/**
 What every run of the collector guarantees about what the dashboard reads.
 */
module CollectorRuns {
  import opened Wrappers
  import opened SortedSets
  import opened Metrics
  import opened Buckets
  import opened Dashboard
  import opened Registry
  import opened Attribution
  import opened Collector
  import opened PendingSums
  import opened ExactlyOnce
  import opened PiholeQueryLog

  const START: World := World(EMPTY_DATABASE, Memory(Identities(map[], map[], map[], {}, map[]), None, map[]))
  const NO_HISTORY: Ledger := Ledger(None, [], [], None)

  lemma {:induction false} StartIsStarted()
    ensures START.memory == Started(EMPTY_DATABASE)
    ensures Safe(START)
  {
    assert DevicesOf(map[]) == map[] && AddressBindings(map[]) == map[];
  }

  ghost function Run(es: seq<Event>, s: Settings): (w: World)
    ensures Safe(w)
  {
    if es == [] then StartIsStarted(); START
    else
      var w := Run(es[..|es| - 1], s);
      StepIsSafe(w, es[|es| - 1], s);
      Next(w, es[|es| - 1], s)
  }

  ghost function History(es: seq<Event>, s: Settings): Ledger
  {
    if es == [] then NO_HISTORY
    else NextLedger(Run(es[..|es| - 1], s), History(es[..|es| - 1], s), es[|es| - 1], s)
  }

  // Every answer the provider gave was the window asked for.
  ghost predicate HonestRun(es: seq<Event>, log: ProviderLog, s: Settings)
  {
    es != [] ==> HonestRun(es[..|es| - 1], log, s) && Honest(Run(es[..|es| - 1], s).memory, es[|es| - 1], log)
  }

  lemma {:induction false} EveryRunIsExact(es: seq<Event>, log: ProviderLog, s: Settings)
    requires IsZone(s.zone) && HonestRun(es, log, s)
    ensures Exact(Run(es, s), History(es, s), log, s.zone)
  {
    if es == [] {
      NothingPending(s.zone);
    } else {
      EveryRunIsExact(es[..|es| - 1], log, s);
      StepIsExact(Run(es[..|es| - 1], s), History(es[..|es| - 1], s), es[|es| - 1], log, s);
    }
  }

  // ----------------------------------------------------------------------------- retention

  // How long the rows of a resolution are kept.
  function RetentionOf(s: Settings, r: Resolution): int
  {
    match r
    case Minute => s.keepMinutes
    case Hour => s.keepHours
    case Day => s.keepDays
  }

  // The moments of the flushes that committed, in order.
  ghost function CommitMoments(es: seq<Event>, s: Settings): seq<int>
  {
    if es == [] then []
    else
      CommitMoments(es[..|es| - 1], s)
      + (if Commits(Run(es[..|es| - 1], s), es[|es| - 1], s) then [es[|es| - 1].now] else [])
  }

  predicate AllWithin(moments: seq<int>, limit: int)
  {
    forall i | 0 <= i < |moments| :: moments[i] <= limit
  }

  // No committed flush found the bucket older than the retention of its resolution.
  ghost predicate Unexpired(es: seq<Event>, s: Settings, r: Resolution, start: int)
  {
    AllWithin(CommitMoments(es, s), start + RetentionOf(s, r))
  }

  lemma {:induction false} OneMoreWithin(moments: seq<int>, m: int, limit: int)
    ensures AllWithin(moments + [m], limit) <==> AllWithin(moments, limit) && m <= limit
  {
    var more := moments + [m];
    assert more[|moments|] == m;
    assert forall i | 0 <= i < |moments| :: more[i] == moments[i];
  }

  lemma {:induction false} AliveIffUnexpired(es: seq<Event>, s: Settings, k: RollupKey)
    ensures Alive(History(es, s).horizon, k) <==> Unexpired(es, s, k.resolution, k.start)
  {
    if es != [] {
      var front, e := es[..|es| - 1], es[|es| - 1];
      AliveIffUnexpired(front, s, k);
      StepAges(Run(front, s), History(front, s), e, s, k);
      if Commits(Run(front, s), e, s) {
        OneMoreWithin(CommitMoments(front, s), e.now, k.start + RetentionOf(s, k.resolution));
      } else {
        assert CommitMoments(es, s) == CommitMoments(front, s);
      }
    }
  }

  lemma {:induction false} StepAges(w: World, g: Ledger, e: Event, s: Settings, k: RollupKey)
    requires Safe(w)
    ensures Alive(NextLedger(w, g, e, s).horizon, k) <==>
            Alive(g.horizon, k) && (Commits(w, e, s) ==> e.now <= k.start + RetentionOf(s, k.resolution))
  {
  }

  ghost predicate NothingOlder(db: Database, moment: int, s: Settings)
  {
    && (forall k | k in db.rollups :: moment - k.start <= RetentionOf(s, k.resolution))
    && (forall a | a in db.addresses :: moment - db.addresses[a].lastSeen <= s.keepDays)
  }

  // The moment of the last flush that committed.
  ghost function LastCommit(es: seq<Event>, s: Settings): Option<int>
  {
    var moments := CommitMoments(es, s);
    if moments == [] then None else Some(moments[|moments| - 1])
  }

  // After a flush that commits nothing is stored that was older than its retention: no row, and no address
  // that was last seen before the retention of days. It stays so until the next one.
  lemma {:induction false} ExpiredIsGone(es: seq<Event>, s: Settings)
    ensures LastCommit(es, s).Some? ==> NothingOlder(Run(es, s).db, LastCommit(es, s).value, s)
  {
    if es != [] {
      var front, e := es[..|es| - 1], es[|es| - 1];
      ExpiredIsGone(front, s);
      LastCommitIs(es, s);
      StepExpires(Run(front, s), e, s, LastCommit(front, s));
    }
  }

  lemma {:induction false} LastCommitIs(es: seq<Event>, s: Settings)
    requires es != []
    ensures var front, e := es[..|es| - 1], es[|es| - 1];
            LastCommit(es, s) == if Commits(Run(front, s), e, s) then Some(e.now) else LastCommit(front, s)
  {
    var front, e := es[..|es| - 1], es[|es| - 1];
    if !Commits(Run(front, s), e, s) {
      assert CommitMoments(es, s) == CommitMoments(front, s);
    }
  }

  lemma {:induction false} StepExpires(w: World, e: Event, s: Settings, last: Option<int>)
    requires Safe(w) && (last.Some? ==> NothingOlder(w.db, last.value, s))
    ensures Commits(w, e, s) ==> NothingOlder(Next(w, e, s).db, e.now, s)
    ensures !Commits(w, e, s) && last.Some? ==> NothingOlder(Next(w, e, s).db, last.value, s)
  {
    if Commits(w, e, s) {
      CommitExpires(w.db, BatchOf(w.memory, e.now, s), e.now, s);
    } else {
      KeepsRows(w, e, s);
    }
  }

  lemma {:induction false} CommitExpires(db: Database, b: FlushBatch, now: int, s: Settings)
    requires Commit(db, b).Some? && b.cutoffs == CutoffsAt(s, now)
    ensures NothingOlder(Commit(db, b).value, now, s)
  {
  }

  predicate SameRows(after: Database, db: Database)
  {
    after.rollups == db.rollups && after.addresses == db.addresses
  }

  lemma {:induction false} KeepsRows(w: World, e: Event, s: Settings)
    requires Safe(w) && !Commits(w, e, s)
    ensures SameRows(Next(w, e, s).db, w.db)
  {
    if e.EditEvent? && e.id in w.db.devices {
      OwnedKeepsRows(w.db, e.id, w.db.devices[e.id].(customName := e.customName, groupId := e.groupId));
    } else {
      assert Next(w, e, s).db == w.db;
    }
  }

  lemma {:induction false} OwnedKeepsRows(db: Database, id: nat, row: DeviceRow)
    ensures SameRows(Owned(db, id, row), db)
  {
  }

  // -------------------------------------------------------------------- sums over devices

  // What the dashboard shows for a bucket of the whole house.
  function HouseTotal(db: Database, r: Resolution, start: int, ids: seq<nat>): Counts
  {
    if ids == [] then ZERO
    else Merge(HouseTotal(db, r, start, ids[..|ids| - 1]), CountsAt(db.rollups, RollupKey(r, start, ids[|ids| - 1])))
  }

  function House(db: Database, r: Resolution, start: int): Counts
  {
    HouseTotal(db, r, start, Sorted(db.devices.Keys, NatLe))
  }

  function AtStart(r: Resolution, start: int, z: Zone): Credit -> bool
  {
    (c: Credit) => BucketStart(c.entry.time, r, z) == start
  }

  function OfDevice(): Credit -> nat
  {
    (c: Credit) => c.device
  }

  lemma {:induction false} HouseIsSum(db: Database, g: Ledger, r: Resolution, start: int, ids: seq<nat>, z: Zone)
    requires RowsAre(db, g.stored, g.horizon, z)
    requires forall d: nat :: Alive(g.horizon, RollupKey(r, start, d))
    ensures HouseTotal(db, r, start, ids) == SumByKey(g.stored, AtStart(r, start, z), OfDevice(), ids)
  {
    if ids != [] {
      HouseIsSum(db, g, r, start, ids[..|ids| - 1], z);
      var k := RollupKey(r, start, ids[|ids| - 1]);
      assert CountsAt(db.rollups, k) == TallyOf(g.stored, InBucket(k, z));
      TallyOfSame(g.stored, InBucket(k, z), WithKey(AtStart(r, start, z), OfDevice(), k.device));
    }
  }

  // The entries of a bucket.
  function InBucketOf(entries: seq<QueryLogEntry>, r: Resolution, start: int, z: Zone): seq<QueryLogEntry>
  {
    if entries == [] then []
    else
      var e := entries[|entries| - 1];
      InBucketOf(entries[..|entries| - 1], r, start, z) + (if BucketStart(e.time, r, z) == start then [e] else [])
  }

  lemma {:induction false} TallyOfBucket(cs: seq<Credit>, r: Resolution, start: int, z: Zone)
    ensures TallyOf(cs, AtStart(r, start, z)) == Tally(InBucketOf(Entries(cs), r, start, z))
  {
    if cs != [] {
      var front, e := cs[..|cs| - 1], cs[|cs| - 1].entry;
      TallyOfBucket(front, r, start, z);
      assert Entries(cs)[..|cs| - 1] == Entries(front);
      var rest := InBucketOf(Entries(front), r, start, z);
      assert Entries(cs)[|cs| - 1] == e;
      assert InBucketOf(Entries(cs), r, start, z) == if BucketStart(e.time, r, z) == start then rest + [e] else rest + [];
      assert (rest + [e])[..|rest|] == rest && rest + [] == rest;
    }
  }

  lemma {:induction false} BucketCounts(entries: seq<QueryLogEntry>, r: Resolution, start: int, z: Zone, x: QueryLogEntry)
    ensures multiset(InBucketOf(entries, r, start, z))[x] ==
            if BucketStart(x.time, r, z) == start then multiset(entries)[x] else 0
  {
    if entries != [] {
      BucketCounts(entries[..|entries| - 1], r, start, z, x);
      assert entries == entries[..|entries| - 1] + [entries[|entries| - 1]];
    }
  }

  lemma {:induction false} SameEntriesSameBucket(a: seq<QueryLogEntry>, b: seq<QueryLogEntry>, r: Resolution, start: int, z: Zone)
    requires multiset(a) == multiset(b)
    ensures Tally(InBucketOf(a, r, start, z)) == Tally(InBucketOf(b, r, start, z))
  {
    forall x: QueryLogEntry
      ensures multiset(InBucketOf(a, r, start, z))[x] == multiset(InBucketOf(b, r, start, z))[x]
    {
      BucketCounts(a, r, start, z, x);
      BucketCounts(b, r, start, z, x);
    }
    assert multiset(InBucketOf(a, r, start, z)) == multiset(InBucketOf(b, r, start, z));
    TallyIgnoresOrder(InBucketOf(a, r, start, z), InBucketOf(b, r, start, z));
  }

  // The log between the first and the stored watermark.
  function StoredLog(log: ProviderLog, first: Option<int>, until: Option<int>): seq<QueryLogEntry>
  {
    if first.Some? && until.Some? then Window(log, first.value, until.value) else []
  }

  // Exactly once: in every run, each bucket not yet expired shows, over all devices, exactly the
  // queries of the log that fall into it, from the first watermark since the last restart that found none
  // stored up to the stored one.
  lemma {:induction false} ExactlyOnceInEveryRun(es: seq<Event>, log: ProviderLog, s: Settings, r: Resolution, start: int)
    requires IsZone(s.zone) && HonestRun(es, log, s)
    requires Unexpired(es, s, r, start)
    ensures var db, first := Run(es, s).db, History(es, s).first;
            House(db, r, start) == Tally(InBucketOf(StoredLog(log, first, db.watermark), r, start, s.zone))
  {
    EveryRunIsExact(es, log, s);
    AliveIffUnexpired(es, s, RollupKey(r, start, 0));
    HouseIsTheLog(Run(es, s), History(es, s), log, s.zone, r, start);
  }

  lemma {:induction false} HouseIsTheLog(w: World, g: Ledger, log: ProviderLog, z: Zone, r: Resolution, start: int)
    requires Exact(w, g, log, z) && Alive(g.horizon, RollupKey(r, start, 0))
    ensures House(w.db, r, start) == Tally(InBucketOf(StoredLog(log, g.first, w.db.watermark), r, start, z))
  {
    var ids := Sorted(w.db.devices.Keys, NatLe);
    assert forall d: nat :: Alive(g.horizon, RollupKey(r, start, d)) == Alive(g.horizon, RollupKey(r, start, 0));
    HouseIsSum(w.db, g, r, start, ids, z);
    Partition(g.stored, AtStart(r, start, z), OfDevice(), ids);
    TallyOfBucket(g.stored, r, start, z);
    SameEntriesSameBucket(Entries(g.stored), StoredLog(log, g.first, w.db.watermark), r, start, z);
  }

  // So two runs over the same log that begin and end at the same watermarks show the same, however
  // their polls were batched into flushes and whatever failed or crashed on the way.
  lemma {:induction false} BatchingDoesNotMatter(
    es: seq<Event>, fs: seq<Event>, log: ProviderLog, s: Settings, r: Resolution, start: int)
    requires IsZone(s.zone) && HonestRun(es, log, s) && HonestRun(fs, log, s)
    requires History(es, s).first == History(fs, s).first
    requires Run(es, s).db.watermark == Run(fs, s).db.watermark
    requires Unexpired(es, s, r, start) && Unexpired(fs, s, r, start)
    ensures House(Run(es, s).db, r, start) == House(Run(fs, s).db, r, start)
  {
    ExactlyOnceInEveryRun(es, log, s, r, start);
    ExactlyOnceInEveryRun(fs, log, s, r, start);
  }

  // ------------------------------------------------------------------ sums over minutes

  function MinuteSum(db: Database, device: nat, from: int, n: nat): Counts
  {
    if n == 0 then ZERO
    else Merge(MinuteSum(db, device, from, n - 1), CountsAt(db.rollups, MinuteRow(device, from, n - 1)))
  }

  function MinuteRow(device: nat, from: int, i: nat): RollupKey
  {
    RollupKey(Minute, from + 60 * i, device)
  }

  function MinuteKey(device: nat, from: int, i: nat): PendingKey
  {
    PendingKey(from + 60 * i, device)
  }

  function MinuteKeys(device: nat, from: int, n: nat): seq<PendingKey>
  {
    seq(n, i requires 0 <= i < n => MinuteKey(device, from, i))
  }

  lemma {:induction false} MinutesInBucket(t: int, u: int, r: Resolution, z: Zone, i: int)
    requires IsZone(z) && BucketStart(u, Minute, z) == BucketStart(t, r, z) + 60 * i
    requires 0 <= 60 * i < BucketEnd(BucketStart(t, r, z), r, z) - BucketStart(t, r, z)
    ensures BucketStart(u, r, z) == BucketStart(t, r, z)
  {
    Rebucket(u, r, z);
    BucketsTile(t, BucketStart(u, Minute, z), r, z);
  }

  lemma {:induction false} MinuteOfBucket(t: int, u: int, r: Resolution, z: Zone)
    requires IsZone(z) && BucketStart(u, r, z) == BucketStart(t, r, z)
    ensures var from := BucketStart(t, r, z);
            var n := (BucketEnd(from, r, z) - from) / 60;
            var i := (BucketStart(u, Minute, z) - from) / 60;
            0 <= i < n && BucketStart(u, Minute, z) == from + 60 * i
  {
    var from := BucketStart(t, r, z);
    BucketsTile(t, u, r, z);
    Rebucket(u, r, z);
    BucketsAreWholeMinutes(t, r, z);
    BucketsAreWholeMinutes(u, Minute, z);
    BucketsTile(u, u, Minute, z);
    WholeMinutes(from, BucketStart(u, Minute, z), BucketEnd(from, r, z));
  }

  lemma {:induction false} WholeMinutes(from: int, m: int, end: int)
    requires from % 60 == 0 && m % 60 == 0 && end % 60 == 0 && from <= m < end
    ensures 0 <= (m - from) / 60 < (end - from) / 60 && m == from + 60 * ((m - from) / 60)
  {
    assert from == 60 * (from / 60) && m == 60 * (m / 60) && end == 60 * (end / 60);
    assert m - from == 60 * (m / 60 - from / 60) && end - from == 60 * (end / 60 - from / 60);
  }

  // A minute row is the share of its minute in the row of any bucket around it.
  lemma {:induction false} MinuteShare(cs: seq<Credit>, t: int, r: Resolution, device: nat, z: Zone, i: nat)
    requires IsZone(z) && 60 * i < BucketEnd(BucketStart(t, r, z), r, z) - BucketStart(t, r, z)
    ensures var from := BucketStart(t, r, z);
            TallyOf(cs, InBucket(MinuteRow(device, from, i), z)) ==
            TallyOf(cs, WithKey(InBucket(RollupKey(r, from, device), z), Minutes(z), MinuteKey(device, from, i)))
  {
    var from := BucketStart(t, r, z);
    var row := MinuteRow(device, from, i);
    forall c | c in cs
      ensures InBucket(row, z)(c) ==> InBucket(RollupKey(r, from, device), z)(c)
    {
      if InBucket(row, z)(c) {
        MinutesInBucket(t, c.entry.time, r, z, i);
      }
    }
    TallyOfSame(cs, InBucket(row, z), WithKey(InBucket(RollupKey(r, from, device), z), Minutes(z), MinuteKey(device, from, i)));
  }

  lemma {:induction false} MinuteSumByKey(
    db: Database, cs: seq<Credit>, p: Credit -> bool, device: nat, from: int, n: nat, z: Zone)
    requires forall i | 0 <= i < n ::
               CountsAt(db.rollups, MinuteRow(device, from, i)) == TallyOf(cs, WithKey(p, Minutes(z), MinuteKey(device, from, i)))
    ensures MinuteSum(db, device, from, n) == SumByKey(cs, p, Minutes(z), MinuteKeys(device, from, n))
  {
    if n > 0 {
      MinuteSumByKey(db, cs, p, device, from, n - 1, z);
      assert MinuteKeys(device, from, n)[..n - 1] == MinuteKeys(device, from, n - 1);
    }
  }

  lemma {:induction false} MinuteSumIs(db: Database, g: Ledger, t: int, r: Resolution, device: nat, z: Zone, n: nat)
    requires IsZone(z) && RowsAre(db, g.stored, g.horizon, z)
    requires Alive(g.horizon, RollupKey(Minute, BucketStart(t, r, z), device))
    requires 60 * n <= BucketEnd(BucketStart(t, r, z), r, z) - BucketStart(t, r, z)
    ensures var from := BucketStart(t, r, z);
            MinuteSum(db, device, from, n) ==
            SumByKey(g.stored, InBucket(RollupKey(r, from, device), z), Minutes(z), MinuteKeys(device, from, n))
  {
    var from := BucketStart(t, r, z);
    forall i | 0 <= i < n
      ensures CountsAt(db.rollups, MinuteRow(device, from, i)) ==
              TallyOf(g.stored, WithKey(InBucket(RollupKey(r, from, device), z), Minutes(z), MinuteKey(device, from, i)))
    {
      MinuteShare(g.stored, t, r, device, z, i);
      assert Alive(g.horizon, MinuteRow(device, from, i));
    }
    MinuteSumByKey(db, g.stored, InBucket(RollupKey(r, from, device), z), device, from, n, z);
  }

  lemma {:induction false} MinutesCover(cs: seq<Credit>, t: int, r: Resolution, device: nat, z: Zone, n: nat)
    requires IsZone(z) && n == (BucketEnd(BucketStart(t, r, z), r, z) - BucketStart(t, r, z)) / 60
    ensures Distinct(MinuteKeys(device, BucketStart(t, r, z), n))
    ensures forall c | c in cs && InBucket(RollupKey(r, BucketStart(t, r, z), device), z)(c) ::
              Minutes(z)(c) in MinuteKeys(device, BucketStart(t, r, z), n)
  {
    var from := BucketStart(t, r, z);
    forall c | c in cs && InBucket(RollupKey(r, from, device), z)(c)
      ensures Minutes(z)(c) in MinuteKeys(device, from, n)
    {
      MinuteOfBucket(t, c.entry.time, r, z);
      assert Minutes(z)(c) == MinuteKeys(device, from, n)[(BucketStart(c.entry.time, Minute, z) - from) / 60];
    }
  }

  // The account without the log: rows and pending minutes are the rollups of what was credited,
  // whatever the provider answers.
  ghost predicate Accounted(w: World, g: Ledger, z: Zone)
  {
    RowsAre(w.db, g.stored, g.horizon, z) && PendingIs(w.memory.pending, g.unflushed, z)
  }

  lemma {:induction false} FlushIsAccounted(w: World, g: Ledger, e: Event, s: Settings)
    requires IsZone(s.zone) && Safe(w) && Accounted(w, g, s.zone) && Commits(w, e, s)
    ensures Accounted(Next(w, e, s), NextLedger(w, g, e, s), s.zone)
  {
    var b := BatchOf(w.memory, e.now, s);
    var after := Commit(w.db, b).value;
    BatchIsFlush(w, e.now, s);
    CommitLeaves(w, b, after);
    FlushedRows(w.db, g, w.memory.pending, b, s.zone, after.devices.Keys, after);
    NothingPending(s.zone);
  }

  lemma {:induction false} StepIsAccounted(w: World, g: Ledger, e: Event, s: Settings)
    requires IsZone(s.zone) && Safe(w) && Accounted(w, g, s.zone)
    ensures Accounted(Next(w, e, s), NextLedger(w, g, e, s), s.zone)
  {
    if e.PollEvent? && Reads(w.memory, e.now, e.answer) {
      PollReads(w.memory, g.unflushed, e.now, e.answer.value, s.zone);
    }
    if Commits(w, e, s) {
      FlushIsAccounted(w, g, e, s);
    }
    if e.RestartEvent? {
      NothingPending(s.zone);
    }
  }

  lemma {:induction false} EveryRunIsAccounted(es: seq<Event>, s: Settings)
    requires IsZone(s.zone)
    ensures Accounted(Run(es, s), History(es, s), s.zone)
  {
    if es == [] {
      NothingPending(s.zone);
    } else {
      EveryRunIsAccounted(es[..|es| - 1], s);
      StepIsAccounted(Run(es[..|es| - 1], s), History(es[..|es| - 1], s), es[|es| - 1], s);
    }
  }

  // A row that no committed flush found too old holds exactly the queries credited to its device and bucket.
  lemma {:induction false} RowHoldsItsCredits(es: seq<Event>, s: Settings, k: RollupKey)
    requires IsZone(s.zone) && Unexpired(es, s, k.resolution, k.start)
    ensures CountsAt(Run(es, s).db.rollups, k) == TallyOf(History(es, s).stored, InBucket(k, s.zone))
  {
    EveryRunIsAccounted(es, s);
    AliveIffUnexpired(es, s, k);
  }

  // While its minutes are kept, every hour and every day row is the sum of its minute rows.
  lemma {:induction false} RowsAreSumsOfMinutes(es: seq<Event>, s: Settings, r: Resolution, t: int, device: nat)
    requires IsZone(s.zone)
    requires Unexpired(es, s, r, BucketStart(t, r, s.zone)) && Unexpired(es, s, Minute, BucketStart(t, r, s.zone))
    ensures var from, db := BucketStart(t, r, s.zone), Run(es, s).db;
            && (BucketEnd(from, r, s.zone) - from) / 60 >= 0
            && CountsAt(db.rollups, RollupKey(r, from, device)) ==
               MinuteSum(db, device, from, (BucketEnd(from, r, s.zone) - from) / 60)
  {
    var from := BucketStart(t, r, s.zone);
    EveryRunIsAccounted(es, s);
    AliveIffUnexpired(es, s, RollupKey(r, from, device));
    AliveIffUnexpired(es, s, RollupKey(Minute, from, device));
    BucketsTile(t, t, r, s.zone);
    RowIsSumOfMinutes(Run(es, s).db, History(es, s), r, t, device, from, (BucketEnd(from, r, s.zone) - from) / 60, s.zone);
  }

  lemma {:induction false} RowIsSumOfMinutes(
    db: Database, g: Ledger, r: Resolution, t: int, device: nat, from: int, n: nat, z: Zone)
    requires IsZone(z) && RowsAre(db, g.stored, g.horizon, z)
    requires from == BucketStart(t, r, z) && n == (BucketEnd(from, r, z) - from) / 60
    requires Alive(g.horizon, RollupKey(r, from, device)) && Alive(g.horizon, RollupKey(Minute, from, device))
    ensures CountsAt(db.rollups, RollupKey(r, from, device)) == MinuteSum(db, device, from, n)
  {
    var k := RollupKey(r, from, device);
    MinuteSumIs(db, g, t, r, device, z, n);
    MinutesCover(g.stored, t, r, device, z, n);
    Partition(g.stored, InBucket(k, z), Minutes(z), MinuteKeys(device, from, n));
  }

  // ------------------------------------------------------------------- what never changes

  // One step: the stored watermark never moves back, no stored device disappears, no stored MAC changes.
  ghost predicate OnlyGrows(later: Database, db: Database)
  {
    && (db.watermark.Some? ==> later.watermark.Some? && later.watermark.value >= db.watermark.value)
    && (forall d | d in db.devices ::
          && d in later.devices
          && (db.devices[d].mac.Some? ==> later.devices[d].mac == db.devices[d].mac)
          && later.devices[d].firstSeen == db.devices[d].firstSeen)
  }

  // Memory is never behind the store.
  ghost predicate Ahead(w: World)
  {
    w.db.watermark.Some? ==> w.memory.watermark.Some? && w.memory.watermark.value >= w.db.watermark.value
  }

  lemma {:induction false} StepStaysAhead(w: World, e: Event, s: Settings)
    requires Safe(w) && Ahead(w)
    ensures Ahead(Next(w, e, s))
  {
  }

  lemma {:induction false} EveryRunIsAhead(es: seq<Event>, s: Settings)
    ensures Ahead(Run(es, s))
  {
    if es != [] {
      EveryRunIsAhead(es[..|es| - 1], s);
      StepStaysAhead(Run(es[..|es| - 1], s), es[|es| - 1], s);
    }
  }

  lemma {:induction false} StepOnlyGrows(w: World, e: Event, s: Settings)
    requires Safe(w) && Ahead(w)
    ensures OnlyGrows(Next(w, e, s).db, w.db)
  {
    StepIsSafe(w, e, s);
    if Commits(w, e, s) {
      FlushCommits(w, e, s);
      var after := Commit(w.db, BatchOf(w.memory, e.now, s)).value;
      CommitKeepsConsistency(w.db, BatchOf(w.memory, e.now, s));
      forall d | d in w.db.devices
        ensures d in after.devices && (w.db.devices[d].mac.Some? ==> after.devices[d].mac == w.db.devices[d].mac)
        ensures after.devices[d].firstSeen == w.db.devices[d].firstSeen
      {
        assert RowMatches(w.db.devices[d], w.memory.registry.devices[d], d !in w.memory.registry.dirtyDevices);
        assert RowMatches(after.devices[d], w.memory.registry.devices[d], true);
      }
    }
  }

  // Over a whole run, whatever the provider answers: what was stored after n events still holds at
  // the end.
  lemma {:induction false} StoreOnlyGrows(es: seq<Event>, n: nat, s: Settings)
    requires n <= |es|
    ensures OnlyGrows(Run(es, s).db, Run(es[..n], s).db)
  {
    if n == |es| {
      assert es[..n] == es;
    } else {
      var front := es[..|es| - 1];
      assert front[..n] == es[..n];
      StoreOnlyGrows(front, n, s);
      EveryRunIsAhead(front, s);
      StepOnlyGrows(Run(front, s), es[|es| - 1], s);
      GrowsOn(Run(es, s).db, Run(front, s).db, Run(es[..n], s).db);
    }
  }

  lemma {:induction false} GrowsOn(c: Database, b: Database, a: Database)
    requires OnlyGrows(c, b) && OnlyGrows(b, a)
    ensures OnlyGrows(c, a)
  {
  }

  // In every reachable state the constraints hold and the next flush commits unless the database
  // itself fails.
  lemma {:induction false} EveryFlushCommits(es: seq<Event>, now: int, s: Settings)
    requires Run(es, s).memory.watermark.Some?
    ensures Consistent(Run(es, s).db)
    ensures Commit(Run(es, s).db, BatchOf(Run(es, s).memory, now, s)).Some?
  {
    FlushCommits(Run(es, s), FlushEvent(now, false), s);
  }

  // --------------------------------------------------------------- answers of the Pi-hole

  lemma {:induction false} AllWanted(server: seq<QueryLogEntry>)
    ensures WantedOf(None, server) == server
  {
    if server != [] {
      AllWanted(server[..|server| - 1]);
    }
  }

  // What the adapter answers for a poll is its window, with one end counted in, exactly when the
  // server treats each end the same way or nothing was logged in that second: the adapter does not
  // filter the times.
  lemma {:induction false} PiholeIsHonestIff(
    m: Memory, now: int, clients: seq<DnsClient>, log: ProviderLog, server: Edges)
    requires m.watermark.Some? && now > m.watermark.value
    ensures var since := m.watermark.value;
            var answer := Answer(clients, WantedOf(None, ServerWindow(log.entries, since, now, server)));
            Honest(m, PollEvent(now, Some(answer)), log) <==>
            && (server.startIncluded == log.edges.startIncluded || At(log.entries, since) == [])
            && (server.endIncluded == log.edges.endIncluded || At(log.entries, now) == [])
  {
    AllWanted(ServerWindow(log.entries, m.watermark.value, now, server));
    AnswersTheWindowIff(log.entries, m.watermark.value, now, server, log.edges);
  }
}
