/**
 Whole runs of the collector against one store: polls and flushes that succeed or fail, crashes with a
 restart, edits of devices by people. The provider's log is fixed; what it answers for a window is
 that window of the log, in any order. The account of a run begins at its first watermark, anew after a
 restart that finds none stored.
 */
module ExactlyOnce {
  import opened Wrappers
  import opened SortedSets
  import opened Metrics
  import opened Buckets
  import opened Dashboard
  import opened Registry
  import opened Attribution
  import opened Collector
  import opened PendingSums
  import opened PiholeQueryLog

  datatype World = World(db: Database, memory: Memory)

  datatype Event =
    | PollEvent(now: int, answer: Option<Answer>)
    | FlushEvent(now: int, fails: bool)
    | RestartEvent
    | EditEvent(id: nat, customName: Option<string>, groupId: string)

  // The history a run leaves: the first watermark, who was credited with which query, and the latest
  // retention cutoffs.
  datatype Ledger = Ledger(first: Option<int>, stored: seq<Credit>, unflushed: seq<Credit>, horizon: Option<Cutoffs>)

  // ----------------------------------------------------------------------------- steps

  ghost predicate Safe(w: World)
  {
    && InStep(w.memory.registry, w.db)
    && (forall k | k in w.memory.pending :: k.device in w.memory.registry.devices)
  }

  ghost predicate Commits(w: World, e: Event, s: Settings)
    requires Safe(w)
  {
    e.FlushEvent? && w.memory.watermark.Some? && !e.fails && Commit(w.db, BatchOf(w.memory, e.now, s)).Some?
  }

  ghost function Next(w: World, e: Event, s: Settings): World
    requires Safe(w)
  {
    match e
    case PollEvent(now, answer) => World(w.db, Polled(w.memory, now, answer, s.zone))
    case FlushEvent(now, _) =>
      if Commits(w, e, s) then World(Commit(w.db, BatchOf(w.memory, now, s)).value, AfterFlush(w.memory)) else w
    case RestartEvent => World(w.db, Started(w.db))
    case EditEvent(id, customName, groupId) =>
      if id in w.db.devices then
        World(Owned(w.db, id, w.db.devices[id].(customName := customName, groupId := groupId)), w.memory)
      else w
  }

  function Later(horizon: Option<Cutoffs>, c: Cutoffs): Cutoffs
  {
    if horizon.None? then c
    else Cutoffs(Max(horizon.value.minute, c.minute), Max(horizon.value.hour, c.hour), Max(horizon.value.day, c.day))
  }

  // A restart that finds no watermark stored begins a new account; what was read before is forgotten.
  ghost function NextLedger(w: World, g: Ledger, e: Event, s: Settings): Ledger
    requires Safe(w)
  {
    match e
    case PollEvent(now, answer) =>
      if w.memory.watermark.None? then g.(first := Some(now))
      else if !Reads(w.memory, now, answer) then g
      else g.(unflushed := g.unflushed + PollCredits(w.memory, answer.value, s.zone))
    case FlushEvent(now, _) =>
      if Commits(w, e, s) then
        Ledger(g.first, g.stored + g.unflushed, [], Some(Later(g.horizon, CutoffsAt(s, now))))
      else g
    case RestartEvent => g.(unflushed := [], first := if w.db.watermark.Some? then g.first else None)
    case EditEvent(_, _, _) => g
  }

  function PollCredits(m: Memory, a: Answer, z: Zone): seq<Credit>
    requires Sound(m.registry)
  {
    CreditsOf(m.(registry := ObservedAll(m.registry, a.clients)), a.entries, z)
  }

  // -------------------------------------------------------------------- safety of a step

  lemma {:induction false} ObservedAllKeeps(r: Identities, clients: seq<DnsClient>)
    requires Sound(r)
    ensures Keeps(ObservedAll(r, clients), r)
  {
    if clients != [] {
      var front := ObservedAll(r, clients[..|clients| - 1]);
      ObservedAllKeeps(r, clients[..|clients| - 1]);
      ObservedKeeps(front, clients[|clients| - 1]);
      KeepsIsTransitive(r, front, ObservedAll(r, clients));
    }
  }

  ghost predicate PendingKnown(m: Memory)
  {
    forall k | k in m.pending :: k.device in m.registry.devices
  }

  lemma {:induction false} AbsorbedOneKeeps(m: Memory, e: QueryLogEntry, z: Zone)
    requires Sound(m.registry) && PendingKnown(m)
    ensures Keeps(AbsorbedOne(m, e, z).registry, m.registry)
    ensures PendingKnown(AbsorbedOne(m, e, z)) && AbsorbedOne(m, e, z).watermark == m.watermark
  {
    ResolvedKeeps(m.registry, e.clientAddress, e.time);
  }

  lemma {:induction false} AbsorbedKeeps(m: Memory, entries: seq<QueryLogEntry>, z: Zone)
    requires Sound(m.registry) && PendingKnown(m)
    ensures var later := Absorbed(m, entries, z);
            Keeps(later.registry, m.registry) && PendingKnown(later) && later.watermark == m.watermark
  {
    if entries != [] {
      var front := Absorbed(m, entries[..|entries| - 1], z);
      AbsorbedKeeps(m, entries[..|entries| - 1], z);
      AbsorbedOneKeeps(front, entries[|entries| - 1], z);
      KeepsIsTransitive(m.registry, front.registry, Absorbed(m, entries, z).registry);
    }
  }

  lemma {:induction false} PolledKeeps(m: Memory, now: int, answer: Option<Answer>, z: Zone)
    requires Sound(m.registry) && PendingKnown(m)
    ensures var later := Polled(m, now, answer, z);
            Keeps(later.registry, m.registry) && PendingKnown(later)
  {
    if Reads(m, now, answer) {
      var observed := m.(registry := ObservedAll(m.registry, answer.value.clients));
      ObservedAllKeeps(m.registry, answer.value.clients);
      AbsorbedKeeps(observed, answer.value.entries, z);
      KeepsIsTransitive(m.registry, observed.registry, Absorbed(observed, answer.value.entries, z).registry);
    }
  }

  lemma {:induction false} DeltasKnown(pending: map<PendingKey, Counts>, keys: seq<PendingKey>, z: Zone, devices: set<nat>)
    requires forall k | k in keys :: k in pending && k.device in devices
    ensures forall i | 0 <= i < |Deltas(pending, keys, z)| :: Deltas(pending, keys, z)[i].key.device in devices
  {
    if keys != [] {
      DeltasKnown(pending, keys[..|keys| - 1], z, devices);
    }
  }

  lemma {:induction false} BatchIsFlush(w: World, now: int, s: Settings)
    requires Safe(w) && w.memory.watermark.Some?
    ensures IsFlushOf(BatchOf(w.memory, now, s), w.memory.registry)
  {
    var keys := Sorted(w.memory.pending.Keys, KeyLe);
    DeltasKnown(w.memory.pending, keys, s.zone, w.memory.registry.devices.Keys);
  }

  // A flush is refused only by a failure of the database itself.
  lemma {:induction false} FlushCommits(w: World, e: Event, s: Settings)
    requires Safe(w) && e.FlushEvent?
    ensures Commits(w, e, s) <==> w.memory.watermark.Some? && !e.fails
    ensures Commits(w, e, s) ==> InStep(Flushed(w.memory.registry), Commit(w.db, BatchOf(w.memory, e.now, s)).value)
  {
    if w.memory.watermark.Some? {
      BatchIsFlush(w, e.now, s);
      FlushAlwaysCommits(w.memory.registry, w.db, BatchOf(w.memory, e.now, s));
    }
  }

  lemma {:induction false} EditKeepsStep(r: Identities, db: Database, id: nat, customName: Option<string>, groupId: string)
    requires InStep(r, db) && id in db.devices
    ensures InStep(r, Owned(db, id, db.devices[id].(customName := customName, groupId := groupId)))
  {
    var after := Owned(db, id, db.devices[id].(customName := customName, groupId := groupId));
    forall d | d in after.devices
      ensures d in r.devices && RowMatches(after.devices[d], r.devices[d], d !in r.dirtyDevices)
    {
      assert RowMatches(db.devices[d], r.devices[d], d !in r.dirtyDevices);
    }
    forall d, e | d in after.devices && e in after.devices
      ensures after.devices[d].mac.Some? && after.devices[d].mac == after.devices[e].mac ==> d == e
    {
      assert db.devices[d].mac == after.devices[d].mac && db.devices[e].mac == after.devices[e].mac;
    }
  }

  // Every step keeps the registry in step with the store.
  lemma {:induction false} StepIsSafe(w: World, e: Event, s: Settings)
    requires Safe(w)
    ensures Safe(Next(w, e, s))
  {
    match e
    case PollEvent(now, answer) =>
      PolledKeeps(w.memory, now, answer, s.zone);
      KeepsKeepsStep(Polled(w.memory, now, answer, s.zone).registry, w.memory.registry, w.db);
    case FlushEvent(now, fails) => FlushCommits(w, e, s);
    case RestartEvent => LoadedIsInStep(w.db);
    case EditEvent(id, customName, groupId) =>
      if id in w.db.devices {
        EditKeepsStep(w.memory.registry, w.db, id, customName, groupId);
      }
  }

  // ------------------------------------------------------------------------- the ledger

  // The provider's log, and which end of a window counts as part of it: exactly one does.
  datatype ProviderLog = ProviderLog(entries: seq<QueryLogEntry>, edges: OneEnd)

  function Window(log: ProviderLog, since: int, until: int): seq<QueryLogEntry>
  {
    ServerWindow(log.entries, since, until, log.edges)
  }

  function Covered(log: ProviderLog, since: Option<int>, until: Option<int>): multiset<QueryLogEntry>
  {
    if since.Some? && until.Some? then multiset(Window(log, since.value, until.value)) else multiset{}
  }

  // A provider that answers answers with the window of its log.
  predicate Honest(m: Memory, e: Event, log: ProviderLog)
  {
    e.PollEvent? && Reads(m, e.now, e.answer) ==>
      multiset(e.answer.value.entries) == multiset(Window(log, m.watermark.value, e.now))
  }

  // Not yet expired by any retention cutoff so far.
  predicate Alive(horizon: Option<Cutoffs>, k: RollupKey)
  {
    horizon.None? || k.start >= horizon.value.At(k.resolution)
  }

  ghost predicate WatermarksAgree(w: World, g: Ledger)
  {
    && (w.db.watermark.Some? ==>
          && w.memory.watermark.Some? && g.first.Some?
          && g.first.value <= w.db.watermark.value <= w.memory.watermark.value)
    && (w.db.watermark.None? ==>
          && (g.first.Some? <==> w.memory.watermark.Some?)
          && (g.first.Some? ==> g.first.value <= w.memory.watermark.value)
          && g.stored == [])
  }

  // Where the unflushed part of the log begins.
  function Base(w: World, g: Ledger): Option<int>
  {
    if w.db.watermark.Some? then w.db.watermark else g.first
  }

  ghost predicate RowsAre(db: Database, stored: seq<Credit>, horizon: Option<Cutoffs>, z: Zone)
  {
    forall k | Alive(horizon, k) :: CountsAt(db.rollups, k) == TallyOf(stored, InBucket(k, z))
  }

  ghost predicate CreditsKnown(cs: seq<Credit>, devices: set<nat>)
  {
    forall c | c in cs :: c.device in devices
  }

  // Since the account began nothing is lost and nothing counted twice: the stored credits are the log
  // from the first watermark to the stored one, each query once, and every row still kept is exactly
  // their rollup; likewise in memory, from the stored watermark on.
  ghost predicate Exact(w: World, g: Ledger, log: ProviderLog, z: Zone)
  {
    && WatermarksAgree(w, g)
    && multiset(Entries(g.stored)) == Covered(log, g.first, w.db.watermark)
    && multiset(Entries(g.unflushed)) == Covered(log, Base(w, g), w.memory.watermark)
    && RowsAre(w.db, g.stored, g.horizon, z)
    && PendingIs(w.memory.pending, g.unflushed, z)
    && CreditsKnown(g.stored, w.db.devices.Keys)
  }

  lemma {:induction false} WindowJoin(log: ProviderLog, a: int, b: int, c: int)
    requires a <= b <= c
    ensures multiset(Window(log, a, b)) + multiset(Window(log, b, c)) == multiset(Window(log, a, c))
  {
    forall x: QueryLogEntry
      ensures multiset(Window(log, a, b))[x] + multiset(Window(log, b, c))[x] == multiset(Window(log, a, c))[x]
    {
      WindowCounts(log.entries, a, b, log.edges, x);
      WindowCounts(log.entries, b, c, log.edges, x);
      WindowCounts(log.entries, a, c, log.edges, x);
    }
  }

  lemma {:induction false} EmptyWindow(log: ProviderLog, a: int)
    ensures Window(log, a, a) == []
  {
    NothingWithin(log.entries, a, a, log.edges);
  }

  lemma {:induction false} EntriesJoin(cs: seq<Credit>, ds: seq<Credit>)
    ensures multiset(Entries(cs + ds)) == multiset(Entries(cs)) + multiset(Entries(ds))
  {
    assert Entries(cs + ds) == Entries(cs) + Entries(ds);
  }

  // ------------------------------------------------------------------ steps keep it exact

  lemma {:induction false} FirstPollIsExact(w: World, g: Ledger, now: int, log: ProviderLog, z: Zone, m: Memory)
    requires Exact(w, g, log, z) && w.memory.watermark.None?
    requires m == w.memory.(watermark := Some(now))
    ensures Exact(World(w.db, m), g.(first := Some(now)), log, z)
  {
    EmptyWindow(log, now);
  }

  lemma {:induction false} ReadingPollIsExact(
    w: World, g: Ledger, now: int, read: seq<Credit>, log: ProviderLog, z: Zone, m: Memory)
    requires Exact(w, g, log, z) && w.memory.watermark.Some? && now > w.memory.watermark.value
    requires multiset(Entries(read)) == multiset(Window(log, w.memory.watermark.value, now))
    requires m.watermark == Some(now) && PendingIs(m.pending, g.unflushed + read, z)
    ensures Exact(World(w.db, m), g.(unflushed := g.unflushed + read), log, z)
  {
    EntriesJoin(g.unflushed, read);
    WindowJoin(log, Base(w, g).value, w.memory.watermark.value, now);
  }

  lemma {:induction false} PollReads(m: Memory, cs: seq<Credit>, now: int, a: Answer, z: Zone)
    requires Sound(m.registry) && PendingIs(m.pending, cs, z) && Reads(m, now, Some(a))
    ensures PendingIs(Polled(m, now, Some(a), z).pending, cs + PollCredits(m, a, z), z)
    ensures Entries(PollCredits(m, a, z)) == a.entries
    ensures Polled(m, now, Some(a), z).watermark == Some(now)
  {
    AbsorbedIs(m.(registry := ObservedAll(m.registry, a.clients)), cs, a.entries, z);
  }

  lemma {:induction false} PollIsExact(w: World, g: Ledger, e: Event, log: ProviderLog, s: Settings)
    requires Safe(w) && Exact(w, g, log, s.zone) && e.PollEvent? && Honest(w.memory, e, log)
    ensures Exact(Next(w, e, s), NextLedger(w, g, e, s), log, s.zone)
  {
    if w.memory.watermark.None? {
      FirstPollIsExact(w, g, e.now, log, s.zone, Next(w, e, s).memory);
    } else if Reads(w.memory, e.now, e.answer) {
      PollReads(w.memory, g.unflushed, e.now, e.answer.value, s.zone);
      ReadingPollIsExact(w, g, e.now, PollCredits(w.memory, e.answer.value, s.zone), log, s.zone, Next(w, e, s).memory);
    }
  }

  // The rows after the statements of a flush, before expiry and after it.
  lemma {:induction false} FlushedRows(
    db: Database, g: Ledger, pending: map<PendingKey, Counts>, b: FlushBatch, z: Zone, devices: set<nat>, after: Database)
    requires IsZone(z) && RowsAre(db, g.stored, g.horizon, z) && PendingIs(pending, g.unflushed, z)
    requires b.rollups == Deltas(pending, Sorted(pending.Keys, KeyLe), z)
    requires MergeRollups(db.rollups, devices, b.rollups).Some?
    requires after.rollups == KeepRollups(MergeRollups(db.rollups, devices, b.rollups).value, b.cutoffs)
    ensures RowsAre(after, g.stored + g.unflushed, Some(Later(g.horizon, b.cutoffs)), z)
  {
    var merged := MergeRollups(db.rollups, devices, b.rollups).value;
    forall k | Alive(Some(Later(g.horizon, b.cutoffs)), k)
      ensures CountsAt(after.rollups, k) == TallyOf(g.stored + g.unflushed, InBucket(k, z))
    {
      assert Alive(g.horizon, k) && k.start >= b.cutoffs.At(k.resolution);
      assert CountsAt(after.rollups, k) == CountsAt(merged, k);
      MergedRows(db.rollups, devices, b.rollups, k);
      BatchAdds(pending, g.unflushed, k, z);
      TallyOfAppend(g.stored, g.unflushed, InBucket(k, z));
    }
  }

  lemma {:induction false} FlushedLedger(w: World, g: Ledger, log: ProviderLog, z: Zone)
    requires Exact(w, g, log, z) && w.memory.watermark.Some?
    ensures multiset(Entries(g.stored + g.unflushed)) == Covered(log, g.first, w.memory.watermark)
  {
    EntriesJoin(g.stored, g.unflushed);
    if w.db.watermark.Some? {
      WindowJoin(log, g.first.value, w.db.watermark.value, w.memory.watermark.value);
    }
  }

  // What a commit does to the world, in the terms of the lemmas above.
  lemma {:induction false} CommitLeaves(w: World, b: FlushBatch, after: Database)
    requires Safe(w) && IsFlushOf(b, w.memory.registry) && Commit(w.db, b) == Some(after)
    ensures after.devices.Keys == w.memory.registry.devices.Keys
    ensures after.watermark == Some(b.watermark)
    ensures MergeRollups(w.db.rollups, after.devices.Keys, b.rollups).Some?
    ensures after.rollups == KeepRollups(MergeRollups(w.db.rollups, after.devices.Keys, b.rollups).value, b.cutoffs)
  {
    FlushedDevices(w.memory.registry, w.db.devices);
  }

  lemma {:induction false} FlushedCredits(w: World, g: Ledger, z: Zone, devices: set<nat>)
    requires Safe(w) && CreditsKnown(g.stored, w.db.devices.Keys) && PendingIs(w.memory.pending, g.unflushed, z)
    requires devices == w.memory.registry.devices.Keys
    ensures CreditsKnown(g.stored + g.unflushed, devices)
  {
    forall c | c in g.stored + g.unflushed
      ensures c.device in devices
    {
      assert c in g.unflushed ==> MinuteOf(c, z) in w.memory.pending;
    }
  }

  lemma {:induction false} NothingPending(z: Zone)
    ensures PendingIs(map[], [], z)
  {
  }

  lemma {:induction false} FlushIsExact(w: World, g: Ledger, e: Event, log: ProviderLog, s: Settings)
    requires IsZone(s.zone) && Safe(w) && Exact(w, g, log, s.zone) && Commits(w, e, s)
    ensures Exact(Next(w, e, s), NextLedger(w, g, e, s), log, s.zone)
  {
    var b := BatchOf(w.memory, e.now, s);
    var after := Commit(w.db, b).value;
    BatchIsFlush(w, e.now, s);
    CommitLeaves(w, b, after);
    FlushedRows(w.db, g, w.memory.pending, b, s.zone, after.devices.Keys, after);
    FlushedLedger(w, g, log, s.zone);
    FlushedCredits(w, g, s.zone, after.devices.Keys);
    CommittedIsExact(w, g, after, CutoffsAt(s, e.now), log, s.zone);
  }

  lemma {:induction false} CommittedIsExact(w: World, g: Ledger, after: Database, c: Cutoffs, log: ProviderLog, z: Zone)
    requires Exact(w, g, log, z) && w.memory.watermark.Some? && after.watermark == w.memory.watermark
    requires multiset(Entries(g.stored + g.unflushed)) == Covered(log, g.first, after.watermark)
    requires RowsAre(after, g.stored + g.unflushed, Some(Later(g.horizon, c)), z)
    requires CreditsKnown(g.stored + g.unflushed, after.devices.Keys)
    ensures Exact(World(after, AfterFlush(w.memory)),
                  Ledger(g.first, g.stored + g.unflushed, [], Some(Later(g.horizon, c))), log, z)
  {
    NothingPending(z);
    EmptyWindow(log, after.watermark.value);
  }

  lemma {:induction false} RestartIsExact(w: World, g: Ledger, e: Event, log: ProviderLog, s: Settings)
    requires Safe(w) && Exact(w, g, log, s.zone) && e.RestartEvent?
    ensures Exact(Next(w, e, s), NextLedger(w, g, e, s), log, s.zone)
  {
    NothingPending(s.zone);
    if w.db.watermark.Some? {
      EmptyWindow(log, w.db.watermark.value);
    }
  }

  lemma {:induction false} StepIsExact(w: World, g: Ledger, e: Event, log: ProviderLog, s: Settings)
    requires IsZone(s.zone) && Safe(w) && Exact(w, g, log, s.zone) && Honest(w.memory, e, log)
    ensures Exact(Next(w, e, s), NextLedger(w, g, e, s), log, s.zone)
  {
    match e
    case PollEvent(_, _) => PollIsExact(w, g, e, log, s);
    case FlushEvent(_, _) =>
      if Commits(w, e, s) {
        FlushIsExact(w, g, e, log, s);
      }
    case RestartEvent => RestartIsExact(w, g, e, log, s);
    case EditEvent(_, _, _) =>
  }
}
