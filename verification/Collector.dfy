/**
 The metrics collector (collector.py): poll the provider, aggregate in memory, flush in batches. The
 answer of the provider, the clock and the failures of the database are parameters.
 */
module Collector {
  import opened Wrappers
  import opened SortedSets
  import opened Metrics
  import opened Buckets
  import opened Dashboard
  import opened Registry

  datatype PendingKey = PendingKey(minute: int, device: nat)

  datatype Settings = Settings(zone: Zone, keepMinutes: int, keepHours: int, keepDays: int)

  // What one poll reads: the clients, and the entries of its window.
  datatype Answer = Answer(clients: seq<DnsClient>, entries: seq<QueryLogEntry>)

  // Everything a crash forgets.
  datatype Memory = Memory(registry: Identities, watermark: Option<int>, pending: map<PendingKey, Counts>)

  // ------------------------------------------------------------------------------ poll

  function ObservedAll(r: Identities, clients: seq<DnsClient>): (later: Identities)
    requires Sound(r)
    ensures Sound(later)
  {
    if clients == [] then r
    else
      var front := ObservedAll(r, clients[..|clients| - 1]);
      ObservedKeeps(front, clients[|clients| - 1]);
      Observed(front, clients[|clients| - 1])
  }

  function PendingAt(pending: map<PendingKey, Counts>, key: PendingKey): Counts
  {
    if key in pending then pending[key] else ZERO
  }

  function KeyOf(r: Identities, e: QueryLogEntry, z: Zone): PendingKey
  {
    PendingKey(BucketStart(e.time, Minute, z), ResolvedId(r, e.clientAddress))
  }

  function AbsorbedOne(m: Memory, e: QueryLogEntry, z: Zone): (later: Memory)
    requires Sound(m.registry)
    ensures Sound(later.registry)
  {
    ResolvedKeeps(m.registry, e.clientAddress, e.time);
    var key := KeyOf(m.registry, e, z);
    m.(registry := Resolved(m.registry, e.clientAddress, e.time),
       pending := m.pending[key := Merge(PendingAt(m.pending, key), One(e))])
  }

  function Absorbed(m: Memory, entries: seq<QueryLogEntry>, z: Zone): (later: Memory)
    requires Sound(m.registry)
    ensures Sound(later.registry)
  {
    if entries == [] then m else AbsorbedOne(Absorbed(m, entries[..|entries| - 1], z), entries[|entries| - 1], z)
  }

  predicate Reads(m: Memory, now: int, answer: Option<Answer>)
  {
    m.watermark.Some? && now > m.watermark.value && answer.Some?
  }

  // The first poll ever only sets the watermark; a failed one changes nothing.
  function Polled(m: Memory, now: int, answer: Option<Answer>, z: Zone): (later: Memory)
    requires Sound(m.registry)
    ensures Sound(later.registry)
  {
    if m.watermark.None? then m.(watermark := Some(now))
    else if !Reads(m, now, answer) then m
    else
      var observed := m.(registry := ObservedAll(m.registry, answer.value.clients));
      Absorbed(observed, answer.value.entries, z).(watermark := Some(now))
  }

  // ----------------------------------------------------------------------------- flush

  predicate KeyLe(a: PendingKey, b: PendingKey)
  {
    a.minute < b.minute || (a.minute == b.minute && a.device <= b.device)
  }

  function Delta(key: PendingKey, counts: Counts, r: Resolution, z: Zone): RollupDelta
  {
    RollupDelta(RollupKey(r, BucketStart(key.minute, r, z), key.device), counts)
  }

  const RESOLUTIONS: seq<Resolution> := [Minute, Hour, Day]

  function KeyDeltas(key: PendingKey, counts: Counts, z: Zone): seq<RollupDelta>
  {
    [Delta(key, counts, Minute, z), Delta(key, counts, Hour, z), Delta(key, counts, Day, z)]
  }

  // One delta a resolution for every pending minute.
  function Deltas(pending: map<PendingKey, Counts>, keys: seq<PendingKey>, z: Zone): (ds: seq<RollupDelta>)
    requires forall k | k in keys :: k in pending
  {
    if keys == [] then []
    else
      var k := keys[|keys| - 1];
      Deltas(pending, keys[..|keys| - 1], z) + KeyDeltas(k, pending[k], z)
  }

  function CutoffsAt(s: Settings, now: int): Cutoffs
  {
    Cutoffs(now - s.keepMinutes, now - s.keepHours, now - s.keepDays)
  }

  function BatchOf(m: Memory, now: int, s: Settings): FlushBatch
    requires Sound(m.registry) && m.watermark.Some?
  {
    FlushBatch(m.watermark.value, PendingDevices(m.registry), PendingAddresses(m.registry),
               Deltas(m.pending, Sorted(m.pending.Keys, KeyLe), s.zone), CutoffsAt(s, now))
  }

  function AfterFlush(m: Memory): Memory
  {
    m.(registry := Flushed(m.registry), pending := map[])
  }

  // A start: the registry and the watermark come from the store, nothing is pending.
  function Started(db: Database): Memory
  {
    Memory(Loaded(db), db.watermark, map[])
  }

  // -------------------------------------------------------------------------- collector

  class Collector {
    const store: DashboardStore
    const settings: Settings
    const registry: DeviceRegistry
    var watermark: Option<int>
    var pending: map<PendingKey, Counts>

    function Value(): Memory
      reads this, registry
    {
      Memory(registry.Value(), watermark, pending)
    }

    constructor (store: DashboardStore, settings: Settings)
      ensures this.store == store && this.settings == settings
      ensures fresh(registry) && Value() == Started(store.db)
    {
      var r := new DeviceRegistry(store);
      this.store, this.settings, registry := store, settings, r;
      watermark, pending := store.db.watermark, map[];
    }

    // `answer` is None when the provider fails. Returns how many queries were read.
    method Poll(now: int, answer: Option<Answer>) returns (read: nat)
      requires Sound(registry.Value())
      modifies this, registry
      ensures Value() == Polled(old(Value()), now, answer, settings.zone)
      ensures read == if Reads(old(Value()), now, answer) then |answer.value.entries| else 0
    {
      if watermark.None? {
        watermark := Some(now);
        return 0;
      }
      if now <= watermark.value || answer.None? {
        return 0;
      }
      ObserveAll(answer.value.clients);
      AbsorbAll(answer.value.entries);
      watermark := Some(now);
      return |answer.value.entries|;
    }

    method ObserveAll(clients: seq<DnsClient>)
      requires Sound(registry.Value())
      modifies registry
      ensures registry.Value() == ObservedAll(old(registry.Value()), clients)
    {
      ghost var r := registry.Value();
      for i := 0 to |clients|
        invariant registry.Value() == ObservedAll(r, clients[..i])
      {
        assert clients[..i + 1][..i] == clients[..i];
        var id := registry.ObserveClient(clients[i]);
      }
      assert clients[..|clients|] == clients;
    }

    method AbsorbAll(entries: seq<QueryLogEntry>)
      requires Sound(registry.Value())
      modifies registry, this`pending
      ensures Value() == Absorbed(old(Value()), entries, settings.zone)
    {
      ghost var m := Value();
      for i := 0 to |entries|
        invariant Value() == Absorbed(m, entries[..i], settings.zone)
      {
        assert entries[..i + 1][..i] == entries[..i];
        AbsorbEntry(entries[i]);
      }
      assert entries[..|entries|] == entries;
    }

    method AbsorbEntry(e: QueryLogEntry)
      requires Sound(registry.Value())
      modifies registry, this`pending
      ensures Value() == AbsorbedOne(old(Value()), e, settings.zone)
    {
      var id := registry.ResolveAddress(e.clientAddress, e.time);
      Count(PendingKey(BucketStart(e.time, Minute, settings.zone), id), e);
    }

    method Count(key: PendingKey, e: QueryLogEntry)
      modifies this`pending
      ensures pending == old(pending)[key := Merge(PendingAt(old(pending), key), One(e))]
    {
      var counts := Merge(PendingAt(pending, key), One(e));
      pending := pending[key := counts];
    }

    // `fails` stands for an error of the database; then everything is kept for the next flush.
    method Flush(now: int, fails: bool) returns (ok: bool)
      requires Sound(registry.Value())
      modifies this, registry, store
      ensures ok <==> old(watermark).Some? && !fails && Commit(old(store.db), BatchOf(old(Value()), now, settings)).Some?
      ensures Value() == if ok then AfterFlush(old(Value())) else old(Value())
      ensures store.db == if ok then Commit(old(store.db), BatchOf(old(Value()), now, settings)).value else old(store.db)
    {
      if watermark.None? {
        return false;
      }
      var rollups := Batch(pending, Sorted(pending.Keys, KeyLe), settings.zone);
      var devices, addresses := registry.Pending();
      ok := store.Flush(FlushBatch(watermark.value, devices, addresses, rollups, CutoffsAt(settings, now)), fails);
      if ok {
        registry.MarkFlushed();
        pending := map[];
      }
    }
  }

  method Batch(pending: map<PendingKey, Counts>, keys: seq<PendingKey>, z: Zone) returns (ds: seq<RollupDelta>)
    requires forall k | k in keys :: k in pending
    ensures ds == Deltas(pending, keys, z)
  {
    ds := [];
    for i := 0 to |keys|
      invariant ds == Deltas(pending, keys[..i], z)
    {
      assert keys[..i + 1][..i] == keys[..i];
      var ofKey := KeyBatch(keys[i], pending[keys[i]], z);
      ds := ds + ofKey;
    }
    assert keys[..|keys|] == keys;
  }

  method KeyBatch(key: PendingKey, counts: Counts, z: Zone) returns (ds: seq<RollupDelta>)
    ensures ds == KeyDeltas(key, counts, z)
  {
    ds := [];
    for r := 0 to 3
      invariant ds == KeyDeltas(key, counts, z)[..r]
    {
      ds := ds + [Delta(key, counts, RESOLUTIONS[r], z)];
    }
  }
}
