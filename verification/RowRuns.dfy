/**
 What decides the stored rows of each device: the polls alone, not how they were batched into flushes.
 */
module RowRuns {
  import opened Wrappers
  import opened Metrics
  import opened Buckets
  import opened Dashboard
  import opened Registry
  import opened Attribution
  import opened Collector
  import opened PendingSums
  import opened ExactlyOnce
  import opened CollectorRuns

  // ------------------------------------------------------- a registry without its dirty marks

  predicate SameCore(r: Identities, q: Identities)
  {
    r.devices == q.devices && r.byMac == q.byMac && r.byAddress == q.byAddress
  }

  lemma {:induction false} SameHolder(r: Identities, q: Identities, addresses: seq<string>, mac: Option<string>)
    requires SameCore(r, q)
    ensures Holder(r, addresses, mac) == Holder(q, addresses, mac)
  {
    if addresses != [] {
      SameHolder(r, q, addresses[..|addresses| - 1], mac);
    }
  }

  lemma {:induction false} SameBindings(r: Identities, q: Identities, addresses: seq<string>, id: nat, seen: int)
    requires SameCore(r, q)
    ensures SameCore(BoundAll(r, addresses, id, seen), BoundAll(q, addresses, id, seen))
  {
    if addresses != [] {
      SameBindings(r, q, addresses[..|addresses| - 1], id, seen);
    }
  }

  lemma {:induction false} SameUpdated(r: Identities, q: Identities, id: nat, d: Device)
    requires SameCore(r, q)
    ensures SameCore(Updated(r, id, d), Updated(q, id, d))
  {
  }

  lemma {:induction false} SameEntered(r: Identities, q: Identities, c: DnsClient)
    requires SameCore(r, q)
    ensures ObservedId(r, c) == ObservedId(q, c) && SameCore(Entered(r, c), Entered(q, c))
  {
    SameHolder(r, q, c.addresses, c.mac);
    assert Known(r, c) == Known(q, c);
    SameUpdated(r, q, NextId(r.devices.Keys), Device(c.mac, c.hostname, c.firstSeen, c.lastSeen));
  }

  lemma {:induction false} SameRefined(
    r: Identities, q: Identities, id: nat, mac: Option<string>, hostname: Option<string>)
    requires SameCore(r, q) && id in r.devices
    ensures SameCore(Named(Claimed(r, id, mac), id, hostname), Named(Claimed(q, id, mac), id, hostname))
  {
  }

  lemma {:induction false} SameObserved(r: Identities, q: Identities, c: DnsClient)
    requires Sound(r) && Sound(q) && SameCore(r, q)
    ensures SameCore(Observed(r, c), Observed(q, c))
  {
    EnteredKeeps(r, c);
    EnteredKeeps(q, c);
    SameEntered(r, q, c);
    var id := ObservedId(r, c);
    var e, f := Entered(r, c), Entered(q, c);
    SameRefined(e, f, id, c.mac, c.hostname);
    SameBindings(Named(Claimed(e, id, c.mac), id, c.hostname), Named(Claimed(f, id, c.mac), id, c.hostname),
                 c.addresses, id, c.lastSeen);
  }

  lemma {:induction false} SameObservedAll(r: Identities, q: Identities, clients: seq<DnsClient>)
    requires Sound(r) && Sound(q) && SameCore(r, q)
    ensures SameCore(ObservedAll(r, clients), ObservedAll(q, clients))
  {
    if clients != [] {
      var front := clients[..|clients| - 1];
      SameObservedAll(r, q, front);
      SameObserved(ObservedAll(r, front), ObservedAll(q, front), clients[|clients| - 1]);
    }
  }

  lemma {:induction false} SameRefreshed(r: Identities, q: Identities, address: string, id: nat, seen: int)
    requires SameCore(r, q) && id in r.devices
    ensures SameCore(Bound(Refreshed(r, id, seen), address, id, seen), Bound(Refreshed(q, id, seen), address, id, seen))
  {
  }

  lemma {:induction false} SameResolved(r: Identities, q: Identities, address: string, seen: int)
    requires Sound(r) && Sound(q) && SameCore(r, q)
    ensures ResolvedId(r, address) == ResolvedId(q, address)
    ensures SameCore(Resolved(r, address, seen), Resolved(q, address, seen))
  {
    var id := ResolvedId(r, address);
    if address in r.byAddress {
      SameRefreshed(r, q, address, id, seen);
    } else {
      var d := Device(None, None, seen, seen);
      SameRefreshed(Updated(r, id, d), Updated(q, id, d), address, id, seen);
    }
  }

  // Equal registries credit the same entries to the same devices.
  lemma {:induction false} SameCredits(m: Memory, n: Memory, entries: seq<QueryLogEntry>, z: Zone)
    requires Sound(m.registry) && Sound(n.registry) && SameCore(m.registry, n.registry)
    ensures CreditsOf(m, entries, z) == CreditsOf(n, entries, z)
    ensures SameCore(Absorbed(m, entries, z).registry, Absorbed(n, entries, z).registry)
  {
    if entries != [] {
      var front, e := entries[..|entries| - 1], entries[|entries| - 1];
      SameCredits(m, n, front, z);
      SameResolved(Absorbed(m, front, z).registry, Absorbed(n, front, z).registry, e.clientAddress, e.time);
    }
  }

  // ------------------------------------------------------------------------ the polls alone

  function PollsOf(es: seq<Event>): seq<Event>
  {
    if es == [] then []
    else PollsOf(es[..|es| - 1]) + (if es[|es| - 1].PollEvent? then [es[|es| - 1]] else [])
  }

  // What a collector that never flushes and never stops would have in memory.
  ghost function Reading(ps: seq<Event>, z: Zone): (m: Memory)
    ensures Sound(m.registry)
  {
    if ps == [] then StartIsStarted(); START.memory
    else
      var m, e := Reading(ps[..|ps| - 1], z), ps[|ps| - 1];
      if e.PollEvent? then Polled(m, e.now, e.answer, z) else m
  }

  ghost function Credited(ps: seq<Event>, z: Zone): seq<Credit>
  {
    if ps == [] then []
    else
      var e := ps[|ps| - 1];
      Credited(ps[..|ps| - 1], z) + (if e.PollEvent? then CreditsOfPoll(Reading(ps[..|ps| - 1], z), e, z) else [])
  }

  lemma {:induction false} OnlyPollsAreRead(es: seq<Event>, z: Zone)
    ensures Reading(PollsOf(es), z) == Reading(es, z) && Credited(PollsOf(es), z) == Credited(es, z)
  {
    if es != [] {
      var front, e := es[..|es| - 1], es[|es| - 1];
      OnlyPollsAreRead(front, z);
      if e.PollEvent? {
        assert PollsOf(es)[..|PollsOf(es)| - 1] == PollsOf(front);
      } else {
        assert PollsOf(es) == PollsOf(front);
      }
    }
  }

  // A restart that loses nothing: everything read is stored and no binding has expired.
  ghost predicate Lossless(w: World)
  {
    && SameCore(Loaded(w.db), w.memory.registry)
    && w.db.watermark == w.memory.watermark
    && w.memory.pending == map[]
  }

  ghost predicate LosslessRestarts(es: seq<Event>, s: Settings)
  {
    es != [] ==>
      && LosslessRestarts(es[..|es| - 1], s)
      && (es[|es| - 1].RestartEvent? ==> Lossless(Run(es[..|es| - 1], s)))
  }

  ghost predicate Follows(w: World, g: Ledger, m: Memory, cs: seq<Credit>)
  {
    && SameCore(w.memory.registry, m.registry)
    && w.memory.watermark == m.watermark
    && g.stored + g.unflushed == cs
  }

  lemma {:induction false} SamePolled(m: Memory, n: Memory, now: int, answer: Option<Answer>, z: Zone)
    requires Sound(m.registry) && Sound(n.registry) && SameCore(m.registry, n.registry) && m.watermark == n.watermark
    ensures SameCore(Polled(m, now, answer, z).registry, Polled(n, now, answer, z).registry)
    ensures Polled(m, now, answer, z).watermark == Polled(n, now, answer, z).watermark
    ensures Reads(m, now, answer) ==> PollCredits(m, answer.value, z) == PollCredits(n, answer.value, z)
  {
    if Reads(m, now, answer) {
      var a := answer.value;
      SameObservedAll(m.registry, n.registry, a.clients);
      SameCredits(m.(registry := ObservedAll(m.registry, a.clients)), n.(registry := ObservedAll(n.registry, a.clients)),
                  a.entries, z);
    }
  }

  function CreditsOfPoll(m: Memory, e: Event, z: Zone): seq<Credit>
    requires Sound(m.registry) && e.PollEvent?
  {
    if Reads(m, e.now, e.answer) then PollCredits(m, e.answer.value, z) else []
  }

  lemma {:induction false} PollAdds(w: World, g: Ledger, e: Event, s: Settings)
    requires Safe(w) && e.PollEvent?
    ensures Next(w, e, s).memory == Polled(w.memory, e.now, e.answer, s.zone)
    ensures NextLedger(w, g, e, s).stored == g.stored
    ensures NextLedger(w, g, e, s).unflushed == g.unflushed + CreditsOfPoll(w.memory, e, s.zone)
  {
    assert g.unflushed + [] == g.unflushed;
  }

  lemma {:induction false} FollowsOn(next: World, g: Ledger, after: Ledger, m: Memory, cs: seq<Credit>, more: seq<Credit>)
    requires SameCore(next.memory.registry, m.registry) && next.memory.watermark == m.watermark
    requires g.stored + g.unflushed == cs && after.stored == g.stored && after.unflushed == g.unflushed + more
    ensures Follows(next, after, m, cs + more)
  {
    assert g.stored + (g.unflushed + more) == g.stored + g.unflushed + more;
  }

  lemma {:induction false} PollFollows(w: World, g: Ledger, m: Memory, cs: seq<Credit>, e: Event, s: Settings)
    requires Safe(w) && Sound(m.registry) && Follows(w, g, m, cs) && e.PollEvent?
    ensures Follows(Next(w, e, s), NextLedger(w, g, e, s), Polled(m, e.now, e.answer, s.zone),
                    cs + CreditsOfPoll(m, e, s.zone))
  {
    SamePolled(w.memory, m, e.now, e.answer, s.zone);
    PollAdds(w, g, e, s);
    FollowsOn(Next(w, e, s), g, NextLedger(w, g, e, s), Polled(m, e.now, e.answer, s.zone), cs, CreditsOfPoll(m, e, s.zone));
  }

  lemma {:induction false} CreditsLeavePending(pending: map<PendingKey, Counts>, cs: seq<Credit>, z: Zone)
    requires PendingIs(pending, cs, z) && cs != []
    ensures pending != map[]
  {
    assert MinuteOf(cs[0], z) in pending;
  }

  lemma {:induction false} RestFollows(w: World, g: Ledger, m: Memory, cs: seq<Credit>, e: Event, s: Settings)
    requires Safe(w) && Follows(w, g, m, cs) && Accounted(w, g, s.zone) && !e.PollEvent?
    requires e.RestartEvent? ==> Lossless(w)
    ensures Follows(Next(w, e, s), NextLedger(w, g, e, s), m, cs)
  {
    if e.RestartEvent? && g.unflushed != [] {
      CreditsLeavePending(w.memory.pending, g.unflushed, s.zone);
    }
    assert g.stored + g.unflushed + [] == g.stored + g.unflushed;
  }

  // Who is who, and who was credited with which query, follows from the polls alone.
  lemma {:induction false} OnlyPollsDecide(es: seq<Event>, s: Settings)
    requires IsZone(s.zone) && LosslessRestarts(es, s)
    ensures Follows(Run(es, s), History(es, s), Reading(es, s.zone), Credited(es, s.zone))
  {
    if es == [] {
      StartIsStarted();
    } else {
      var front, e := es[..|es| - 1], es[|es| - 1];
      OnlyPollsDecide(front, s);
      var w, g, m, cs := Run(front, s), History(front, s), Reading(front, s.zone), Credited(front, s.zone);
      if e.PollEvent? {
        PollFollows(w, g, m, cs, e, s);
      } else {
        EveryRunIsAccounted(front, s);
        RestFollows(w, g, m, cs, e, s);
        assert cs + [] == cs;
      }
    }
  }

  lemma {:induction false} SameBindingsIff(l: map<string, nat>, b: map<string, nat>)
    requires forall a | a in l :: a in b && l[a] == b[a]
    ensures l == b <==> forall a | a in b :: a in l
  {
  }

  lemma {:induction false} ReloadIsLosslessIff(r: Identities, db: Database, b: FlushBatch)
    requires InStep(r, db) && IsFlushOf(b, r)
    ensures Commit(db, b).Some?
    ensures SameCore(Loaded(Commit(db, b).value), r) <==> NoneExpired(r, db, b.cutoffs.day)
  {
    ReloadAfterFlush(r, db, b);
    SameBindingsIff(Loaded(Commit(db, b).value).byAddress, r.byAddress);
  }

  predicate NoneExpired(r: Identities, db: Database, cutoff: int)
  {
    forall a | a in r.byAddress :: LatestSighting(r, db, a).Some? && LatestSighting(r, db, a).value >= cutoff
  }

  // Right after a flush a restart is lossless exactly when no address known has expired.
  lemma {:induction false} LosslessAfterFlushIff(w: World, e: Event, s: Settings)
    requires Safe(w) && Commits(w, e, s)
    ensures Lossless(Next(w, e, s)) <==> NoneExpired(w.memory.registry, w.db, e.now - s.keepDays)
  {
    BatchIsFlush(w, e.now, s);
    ReloadIsLosslessIff(w.memory.registry, w.db, BatchOf(w.memory, e.now, s));
  }

  // -------------------------------------------------------------------------------- rows

  predicate NothingToFlush(m: Memory)
  {
    m.pending == map[] && m.registry.dirtyDevices == {}
  }

  lemma {:induction false} StoredRows(w: World, g: Ledger, m: Memory, cs: seq<Credit>, k: RollupKey, z: Zone)
    requires Safe(w) && Accounted(w, g, z) && Follows(w, g, m, cs)
    requires NothingToFlush(w.memory) && Alive(g.horizon, k)
    ensures CountsAt(w.db.rollups, k) == TallyOf(cs, InBucket(k, z))
    ensures DevicesOf(w.db.devices) == m.registry.devices
  {
    if g.unflushed != [] {
      CreditsLeavePending(w.memory.pending, g.unflushed, z);
    }
    assert g.stored + [] == g.stored;
    ReloadedDevices(w.memory.registry, w.db.devices);
  }

  // Two runs with the same polls store the same rows, device by device, however the polls were
  // batched into flushes, whichever flushes failed and whatever people edited in between.
  lemma {:induction false} BatchingKeepsEveryRow(es: seq<Event>, fs: seq<Event>, s: Settings, t: Settings, k: RollupKey)
    requires IsZone(s.zone) && s.zone == t.zone && PollsOf(es) == PollsOf(fs)
    requires LosslessRestarts(es, s) && LosslessRestarts(fs, t)
    requires NothingToFlush(Run(es, s).memory) && NothingToFlush(Run(fs, t).memory)
    requires Unexpired(es, s, k.resolution, k.start) && Unexpired(fs, t, k.resolution, k.start)
    ensures CountsAt(Run(es, s).db.rollups, k) == CountsAt(Run(fs, t).db.rollups, k)
    ensures DevicesOf(Run(es, s).db.devices) == DevicesOf(Run(fs, t).db.devices)
  {
    RowsAreRead(es, s, k);
    RowsAreRead(fs, t, k);
    OnlyPollsAreRead(es, s.zone);
    OnlyPollsAreRead(fs, s.zone);
  }

  lemma {:induction false} RowsAreRead(es: seq<Event>, s: Settings, k: RollupKey)
    requires IsZone(s.zone) && LosslessRestarts(es, s)
    requires NothingToFlush(Run(es, s).memory) && Unexpired(es, s, k.resolution, k.start)
    ensures CountsAt(Run(es, s).db.rollups, k) == TallyOf(Credited(es, s.zone), InBucket(k, s.zone))
    ensures DevicesOf(Run(es, s).db.devices) == Reading(es, s.zone).registry.devices
  {
    OnlyPollsDecide(es, s);
    EveryRunIsAccounted(es, s);
    AliveIffUnexpired(es, s, k);
    StoredRows(Run(es, s), History(es, s), Reading(es, s.zone), Credited(es, s.zone), k, s.zone);
  }
}
