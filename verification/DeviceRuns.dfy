/**
 Which device a MAC has over a whole run: in memory, in the store, and across crashes.
 */
module DeviceRuns {
  import opened Wrappers
  import opened SortedSets
  import opened Metrics
  import opened Buckets
  import opened Dashboard
  import opened Registry
  import opened Sightings
  import opened PendingSums
  import opened Attribution
  import opened Collector
  import opened ExactlyOnce
  import opened CollectorRuns

  // ------------------------------------------------------------------- a MAC and its device

  ghost predicate HasMac(r: Identities, id: nat, mac: string)
  {
    id in r.devices && r.devices[id].mac == Some(mac)
  }

  ghost predicate StoredMac(db: Database, id: nat, mac: string)
  {
    id in db.devices && db.devices[id].mac == Some(mac)
  }

  lemma {:induction false} KeepsMac(later: Identities, r: Identities, id: nat, mac: string)
    requires Keeps(later, r) && HasMac(r, id, mac)
    ensures HasMac(later, id, mac)
  {
  }

  lemma {:induction false} StoredIsKnown(w: World, id: nat, mac: string)
    requires Safe(w) && StoredMac(w.db, id, mac)
    ensures HasMac(w.memory.registry, id, mac)
  {
    assert RowMatches(w.db.devices[id], w.memory.registry.devices[id], id !in w.memory.registry.dirtyDevices);
  }

  // One step: only a restart can part a device from its MAC, and does so exactly when the store does
  // not have it.
  lemma {:induction false} StepKeepsMacIff(w: World, e: Event, s: Settings, id: nat, mac: string)
    requires Safe(w) && HasMac(w.memory.registry, id, mac)
    ensures HasMac(Next(w, e, s).memory.registry, id, mac) <==> (e.RestartEvent? ==> StoredMac(w.db, id, mac))
  {
    if e.PollEvent? {
      PolledKeeps(w.memory, e.now, e.answer, s.zone);
      KeepsMac(Polled(w.memory, e.now, e.answer, s.zone).registry, w.memory.registry, id, mac);
    }
  }

  // A committed flush stores every device with its MAC.
  lemma {:induction false} FlushStoresMac(w: World, e: Event, s: Settings, id: nat, mac: string)
    requires Safe(w) && Commits(w, e, s) && HasMac(w.memory.registry, id, mac)
    ensures StoredMac(Next(w, e, s).db, id, mac)
  {
    FlushCommits(w, e, s);
    var after := Next(w, e, s);
    assert RowMatches(after.db.devices[id], w.memory.registry.devices[id], true);
  }

  // One step without a restart: the store has the MAC afterwards exactly when it had it or the step
  // is a committed flush.
  lemma {:induction false} StepStoresMacIff(w: World, e: Event, s: Settings, id: nat, mac: string)
    requires Safe(w) && HasMac(w.memory.registry, id, mac)
    ensures StoredMac(Next(w, e, s).db, id, mac) <==> StoredMac(w.db, id, mac) || Commits(w, e, s)
  {
    if Commits(w, e, s) {
      FlushStoresMac(w, e, s, id, mac);
    }
  }

  // ------------------------------------------------------------------------ over a whole run

  // From the n-th event on, a flush committed.
  ghost predicate FlushedSince(es: seq<Event>, n: nat, s: Settings)
    requires n <= |es|
  {
    n < |es| && (FlushedSince(es[..|es| - 1], n, s) || Commits(Run(es[..|es| - 1], s), es[|es| - 1], s))
  }

  // From the n-th event on, every restart comes after a committed flush, unless the device was stored
  // before.
  ghost predicate SavedBeforeRestarts(es: seq<Event>, n: nat, s: Settings, stored: bool)
    requires n <= |es|
  {
    n < |es| ==>
      && SavedBeforeRestarts(es[..|es| - 1], n, s, stored)
      && (es[|es| - 1].RestartEvent? ==> stored || FlushedSince(es[..|es| - 1], n, s))
  }

  // From the n-th event on, the device is in memory with its MAC all the time.
  ghost predicate KnownThroughout(es: seq<Event>, n: nat, s: Settings, id: nat, mac: string)
    requires n <= |es|
  {
    HasMac(Run(es, s).memory.registry, id, mac) && (n < |es| ==> KnownThroughout(es[..|es| - 1], n, s, id, mac))
  }

  lemma {:induction false} PrefixOfFront(es: seq<Event>, n: nat)
    requires n < |es|
    ensures es[..|es| - 1][..n] == es[..n]
  {
  }

  lemma {:induction false} StoredIffFlushed(es: seq<Event>, n: nat, s: Settings, id: nat, mac: string)
    requires n <= |es| && KnownThroughout(es, n, s, id, mac)
    ensures StoredMac(Run(es, s).db, id, mac) <==> StoredMac(Run(es[..n], s).db, id, mac) || FlushedSince(es, n, s)
  {
    if n == |es| {
      assert es[..n] == es;
    } else {
      PrefixOfFront(es, n);
      StoredIffFlushed(es[..|es| - 1], n, s, id, mac);
      StepStoresMacIff(Run(es[..|es| - 1], s), es[|es| - 1], s, id, mac);
    }
  }

  // A device keeps its MAC through the rest of a run exactly when it was stored, or a flush committed,
  // before every restart.
  lemma {:induction false} KeepsItsMacIff(es: seq<Event>, n: nat, s: Settings, id: nat, mac: string)
    requires n <= |es| && HasMac(Run(es[..n], s).memory.registry, id, mac)
    ensures KnownThroughout(es, n, s, id, mac) <==>
            SavedBeforeRestarts(es, n, s, StoredMac(Run(es[..n], s).db, id, mac))
  {
    if n == |es| {
      assert es[..n] == es;
    } else {
      var front, e := es[..|es| - 1], es[|es| - 1];
      PrefixOfFront(es, n);
      KeepsItsMacIff(front, n, s, id, mac);
      if KnownThroughout(front, n, s, id, mac) {
        StoredIffFlushed(front, n, s, id, mac);
        StepKeepsMacIff(Run(front, s), e, s, id, mac);
      }
    }
  }

  // Once stored, a device keeps its MAC for ever, in the store and in memory.
  lemma {:induction false} StoredMacIsForEver(es: seq<Event>, n: nat, s: Settings, id: nat, mac: string)
    requires n <= |es| && StoredMac(Run(es[..n], s).db, id, mac)
    ensures StoredMac(Run(es, s).db, id, mac) && HasMac(Run(es, s).memory.registry, id, mac)
  {
    StoreOnlyGrows(es, n, s);
    StoredIsKnown(Run(es, s), id, mac);
  }

  // ------------------------------------------------------------------- clients and devices

  ghost predicate ReadingPoll(w: World, e: Event)
  {
    e.PollEvent? && Reads(w.memory, e.now, e.answer)
  }

  // The device that the k-th client of a poll ends up on.
  function AssignedId(r: Identities, clients: seq<DnsClient>, k: nat): nat
    requires Sound(r) && k < |clients|
  {
    ObservedId(ObservedAll(r, clients[..k]), clients[k])
  }

  lemma {:induction false} RestKeeps(r: Identities, clients: seq<DnsClient>, k: nat)
    requires Sound(r) && k <= |clients|
    ensures Keeps(ObservedAll(r, clients), ObservedAll(r, clients[..k]))
  {
    if k == |clients| {
      assert clients[..k] == clients;
      ObservedAllKeeps(r, []);
      SoundKeepsItself(ObservedAll(r, clients));
    } else {
      var front := clients[..|clients| - 1];
      assert front[..k] == clients[..k];
      RestKeeps(r, front, k);
      ObservedKeeps(ObservedAll(r, front), clients[|clients| - 1]);
      KeepsIsTransitive(ObservedAll(r, clients[..k]), ObservedAll(r, front), ObservedAll(r, clients));
    }
  }

  lemma {:induction false} SoundKeepsItself(r: Identities)
    requires Sound(r)
    ensures Keeps(r, r)
  {
  }

  lemma {:induction false} ObservedInTurn(r: Identities, clients: seq<DnsClient>, k: nat)
    requires Sound(r) && k < |clients|
    ensures ObservedAll(r, clients[..k + 1]) == Observed(ObservedAll(r, clients[..k]), clients[k])
  {
    assert clients[..k + 1][..k] == clients[..k];
  }

  // After its turn a client's MAC is on its device, to the end of the poll.
  lemma {:induction false} AssignedHasMac(r: Identities, clients: seq<DnsClient>, k: nat)
    requires Sound(r) && k < |clients| && clients[k].mac.Some?
    ensures HasMac(ObservedAll(r, clients), AssignedId(r, clients, k), clients[k].mac.value)
  {
    ObservedKeeps(ObservedAll(r, clients[..k]), clients[k]);
    ObservedInTurn(r, clients, k);
    RestKeeps(r, clients, k + 1);
    KeepsMac(ObservedAll(r, clients), ObservedAll(r, clients[..k + 1]), AssignedId(r, clients, k), clients[k].mac.value);
  }

  // The k-th client of a poll carries a MAC and ends up on a device.
  ghost predicate Assigns(w: World, e: Event, k: nat, id: nat, mac: string)
    requires Safe(w)
  {
    && ReadingPoll(w, e) && k < |e.answer.value.clients|
    && e.answer.value.clients[k].mac == Some(mac)
    && AssignedId(w.memory.registry, e.answer.value.clients, k) == id
  }

  lemma {:induction false} PollLeavesMac(w: World, e: Event, s: Settings, k: nat, id: nat, mac: string)
    requires Safe(w) && Assigns(w, e, k, id, mac)
    ensures HasMac(Next(w, e, s).memory.registry, id, mac)
  {
    var a := e.answer.value;
    var observed := w.memory.(registry := ObservedAll(w.memory.registry, a.clients));
    AssignedHasMac(w.memory.registry, a.clients, k);
    ObservedAllKeeps(w.memory.registry, a.clients);
    AbsorbedKeeps(observed, a.entries, s.zone);
    KeepsMac(Absorbed(observed, a.entries, s.zone).registry, observed.registry, id, mac);
  }

  // A client is taken for the device that has a MAC exactly when it has that MAC.
  lemma {:induction false} TakenIffSameMac(r: Identities, id: nat, mac: string, c: DnsClient)
    requires Sound(r) && HasMac(r, id, mac) && c.mac.Some?
    ensures ObservedId(r, c) == id <==> c.mac == Some(mac)
  {
    if c.mac == Some(mac) {
      ObservedKeeps(r, c);
    } else {
      MacsNeverShareADevice(r, id, c);
    }
  }

  lemma {:induction false} LaterClient(w: World, e: Event, l: nat, id: nat, mac: string, d: nat, other: string)
    requires Safe(w) && HasMac(w.memory.registry, id, mac) && Assigns(w, e, l, d, other)
    ensures d == id <==> other == mac
  {
    var r, clients := w.memory.registry, e.answer.value.clients;
    ObservedAllKeeps(r, clients[..l]);
    KeepsMac(ObservedAll(r, clients[..l]), r, id, mac);
    TakenIffSameMac(ObservedAll(r, clients[..l]), id, mac, clients[l]);
  }

  lemma {:induction false} RunOneMore(es: seq<Event>, n: nat, s: Settings)
    requires n < |es|
    ensures Run(es[..n + 1], s) == Next(Run(es[..n], s), es[n], s)
  {
    assert es[..n + 1][..n] == es[..n];
  }

  lemma {:induction false} StillHasMac(es: seq<Event>, n: nat, k: nat, id: nat, mac: string, s: Settings)
    requires n < |es| && Assigns(Run(es[..n], s), es[n], k, id, mac)
    requires SavedBeforeRestarts(es, n + 1, s, StoredMac(Run(es[..n], s).db, id, mac))
    ensures HasMac(Run(es, s).memory.registry, id, mac)
  {
    PollLeavesMac(Run(es[..n], s), es[n], s, k, id, mac);
    RunOneMore(es, n, s);
    KeepsItsMacIff(es, n + 1, s, id, mac);
  }

  // A client of the n-th and one of the m-th event share a device exactly when they share their MAC,
  // provided that a flush committed, or the device was stored, before every restart in between.
  lemma {:induction false} SameDeviceIffSameMac(
    es: seq<Event>, n: nat, k: nat, id: nat, mac: string, m: nat, l: nat, d: nat, other: string, s: Settings)
    requires n < m < |es|
    requires Assigns(Run(es[..n], s), es[n], k, id, mac) && Assigns(Run(es[..m], s), es[m], l, d, other)
    requires SavedBeforeRestarts(es[..m], n + 1, s, StoredMac(Run(es[..n], s).db, id, mac))
    ensures d == id <==> other == mac
  {
    assert es[..m][..n] == es[..n] && es[..m][n] == es[n];
    StillHasMac(es[..m], n, k, id, mac, s);
    LaterClient(Run(es[..m], s), es[m], l, id, mac, d, other);
  }

  // Two clients of one poll share a device exactly when they share their MAC.
  lemma {:induction false} SameDeviceInOnePoll(r: Identities, clients: seq<DnsClient>, k: nat, l: nat)
    requires Sound(r) && k < l < |clients| && clients[k].mac.Some? && clients[l].mac.Some?
    ensures AssignedId(r, clients, k) == AssignedId(r, clients, l) <==> clients[k].mac == clients[l].mac
  {
    var front := clients[..l];
    assert front[..k] == clients[..k] && front[k] == clients[k];
    AssignedHasMac(r, front, k);
    TakenIffSameMac(ObservedAll(r, front), AssignedId(r, front, k), clients[k].mac.value, clients[l]);
  }

  // ------------------------------------------------------------------- queries and devices

  lemma {:induction false} BindingStays(r: Identities, clients: seq<DnsClient>, k: nat, address: string)
    requires Sound(r) && k < |clients| && address in clients[k].addresses
    requires forall j | k < j < |clients| :: address !in clients[j].addresses
    ensures var later := ObservedAll(r, clients);
            address in later.byAddress && later.byAddress[address] == AssignedId(r, clients, k)
  {
    var front, last := clients[..|clients| - 1], clients[|clients| - 1];
    ClientLeaves(ObservedAll(r, front), last);
    if k < |clients| - 1 {
      assert front[..k] == clients[..k] && front[k] == clients[k];
      BindingStays(r, front, k, address);
    }
  }

  lemma {:induction false} AbsorbingKeepsBinding(m: Memory, entries: seq<QueryLogEntry>, z: Zone, address: string)
    requires Sound(m.registry) && address in m.registry.byAddress
    ensures var later := Absorbed(m, entries, z).registry;
            address in later.byAddress && later.byAddress[address] == m.registry.byAddress[address]
  {
    if entries != [] {
      var front, e := entries[..|entries| - 1], entries[|entries| - 1];
      AbsorbingKeepsBinding(m, front, z, address);
      AddressLeaves(Absorbed(m, front, z).registry, e.clientAddress, e.time);
    }
  }

  // The clients of a poll are observed before its queries are credited: a query goes to the device of the last
  // client that lists its address.
  lemma {:induction false} QueriesGoToTheirClients(m: Memory, a: Answer, z: Zone, i: nat, k: nat)
    requires Sound(m.registry) && i < |a.entries| && k < |a.clients|
    requires a.entries[i].clientAddress in a.clients[k].addresses
    requires forall j | k < j < |a.clients| :: a.entries[i].clientAddress !in a.clients[j].addresses
    ensures PollCredits(m, a, z)[i].device == AssignedId(m.registry, a.clients, k)
  {
    var address := a.entries[i].clientAddress;
    var observed := m.(registry := ObservedAll(m.registry, a.clients));
    BindingStays(m.registry, a.clients, k, address);
    AbsorbingKeepsBinding(observed, a.entries[..i], z, address);
    CreditIs(observed, a.entries, z, i);
  }

  lemma {:induction false} CreditIs(m: Memory, entries: seq<QueryLogEntry>, z: Zone, i: nat)
    requires Sound(m.registry) && i < |entries|
    ensures CreditsOf(m, entries, z)[i] ==
            Credit(ResolvedId(Absorbed(m, entries[..i], z).registry, entries[i].clientAddress), entries[i])
  {
    var front := entries[..|entries| - 1];
    LastCredit(m, entries, z);
    if i < |front| {
      CreditIs(m, front, z, i);
      assert front[..i] == entries[..i] && front[i] == entries[i];
    } else {
      assert entries[..i] == front;
    }
  }

  lemma {:induction false} LastCredit(m: Memory, entries: seq<QueryLogEntry>, z: Zone)
    requires Sound(m.registry) && entries != []
    ensures var front, e := entries[..|entries| - 1], entries[|entries| - 1];
            CreditsOf(m, entries, z) ==
            CreditsOf(m, front, z) + [Credit(ResolvedId(Absorbed(m, front, z).registry, e.clientAddress), e)]
  {
  }

  // The queries of one address go to one device within a poll, listed or not.
  lemma {:induction false} OneAddressOneDevice(m: Memory, a: Answer, z: Zone, i: nat, j: nat)
    requires Sound(m.registry) && i < j < |a.entries|
    requires a.entries[i].clientAddress == a.entries[j].clientAddress
    ensures PollCredits(m, a, z)[i].device == PollCredits(m, a, z)[j].device
  {
    var address := a.entries[i].clientAddress;
    var observed := m.(registry := ObservedAll(m.registry, a.clients));
    var at := Absorbed(observed, a.entries[..i], z);
    CreditIs(observed, a.entries, z, i);
    CreditIs(observed, a.entries, z, j);
    AddressLeaves(at.registry, address, a.entries[i].time);
    BoundFromThenOn(observed, a.entries, z, i, j);
  }

  lemma {:induction false} BoundFromThenOn(m: Memory, entries: seq<QueryLogEntry>, z: Zone, i: nat, j: nat)
    requires Sound(m.registry) && i < j <= |entries|
    ensures var address, later := entries[i].clientAddress, Absorbed(m, entries[..j], z).registry;
            address in later.byAddress
            && later.byAddress[address] == ResolvedId(Absorbed(m, entries[..i], z).registry, address)
  {
    var before := Absorbed(m, entries[..j - 1], z).registry;
    assert entries[..j][..j - 1] == entries[..j - 1];
    AddressLeaves(before, entries[j - 1].clientAddress, entries[j - 1].time);
    if i < j - 1 {
      BoundFromThenOn(m, entries, z, i, j - 1);
    }
  }

  // --------------------------------------------------------------- ids lost in a crash

  // Ids are handed out without gaps and never given back.
  ghost predicate Numbered(ids: set<nat>)
  {
    forall i: nat :: i in ids <==> 1 <= i < NextId(ids)
  }

  lemma {:induction false} NextIdIs(ids: set<nat>, n: nat)
    requires forall i: nat :: i in ids <==> 1 <= i < n
    requires n >= 1
    ensures NextId(ids) == n
  {
    var s := Sorted(ids, NatLe);
    if n > 1 {
      var last: nat := n - 1;
      assert last in ids && last in s;
      var i :| 0 <= i < |s| && s[i] == last;
      assert s[|s| - 1] in ids && NatLe(last, s[|s| - 1]);
    }
  }

  lemma {:induction false} StillNumbered(ids: set<nat>, id: nat)
    requires Numbered(ids) && (id in ids || id == NextId(ids))
    ensures Numbered(ids + {id})
  {
    var more := ids + {id};
    if id in ids {
      assert more == ids;
    } else {
      assert forall i: nat :: i in more <==> i in ids || i == id;
      NextIdIs(more, id + 1);
    }
  }

  lemma {:induction false} EnteredIds(r: Identities, c: DnsClient)
    requires Sound(r)
    ensures Entered(r, c).devices.Keys == r.devices.Keys + {ObservedId(r, c)}
    ensures ObservedId(r, c) in r.devices.Keys || ObservedId(r, c) == NextId(r.devices.Keys)
  {
    HolderIsKnown(r, c.addresses, c.mac);
  }

  lemma {:induction false} RefinedIds(r: Identities, id: nat, mac: Option<string>, hostname: Option<string>)
    requires id in r.devices
    ensures Named(Claimed(r, id, mac), id, hostname).devices.Keys == r.devices.Keys
  {
  }

  lemma {:induction false} BoundIds(r: Identities, addresses: seq<string>, id: nat, seen: int)
    ensures BoundAll(r, addresses, id, seen).devices == r.devices
  {
    if addresses != [] {
      BoundIds(r, addresses[..|addresses| - 1], id, seen);
    }
  }

  lemma {:induction false} ObservedIds(r: Identities, c: DnsClient)
    requires Sound(r)
    ensures Observed(r, c).devices.Keys == r.devices.Keys + {ObservedId(r, c)}
  {
    var id := ObservedId(r, c);
    EnteredKeeps(r, c);
    EnteredIds(r, c);
    RefinedIds(Entered(r, c), id, c.mac, c.hostname);
    BoundIds(Named(Claimed(Entered(r, c), id, c.mac), id, c.hostname), c.addresses, id, c.lastSeen);
  }

  lemma {:induction false} ObservedAllNumbered(r: Identities, clients: seq<DnsClient>)
    requires Sound(r) && Numbered(r.devices.Keys)
    ensures Numbered(ObservedAll(r, clients).devices.Keys)
  {
    if clients != [] {
      var before, c := ObservedAll(r, clients[..|clients| - 1]), clients[|clients| - 1];
      ObservedAllNumbered(r, clients[..|clients| - 1]);
      ObservedIds(before, c);
      EnteredIds(before, c);
      StillNumbered(before.devices.Keys, ObservedId(before, c));
    }
  }

  lemma {:induction false} RefreshedIds(r: Identities, address: string, id: nat, seen: int)
    requires id in r.devices
    ensures Bound(Refreshed(r, id, seen), address, id, seen).devices.Keys == r.devices.Keys
  {
  }

  lemma {:induction false} ResolvedIds(r: Identities, address: string, seen: int)
    requires Sound(r)
    ensures Resolved(r, address, seen).devices.Keys == r.devices.Keys + {ResolvedId(r, address)}
  {
    var id := ResolvedId(r, address);
    if address in r.byAddress {
      RefreshedIds(r, address, id, seen);
    } else {
      RefreshedIds(Updated(r, id, Device(None, None, seen, seen)), address, id, seen);
    }
  }

  lemma {:induction false} ResolvedNumbered(r: Identities, address: string, seen: int)
    requires Sound(r) && Numbered(r.devices.Keys)
    ensures Numbered(Resolved(r, address, seen).devices.Keys)
  {
    ResolvedIds(r, address, seen);
    StillNumbered(r.devices.Keys, ResolvedId(r, address));
  }

  lemma {:induction false} AbsorbedNumbered(m: Memory, entries: seq<QueryLogEntry>, z: Zone)
    requires Sound(m.registry) && Numbered(m.registry.devices.Keys)
    ensures Numbered(Absorbed(m, entries, z).registry.devices.Keys)
  {
    if entries != [] {
      AbsorbedNumbered(m, entries[..|entries| - 1], z);
      var before, e := Absorbed(m, entries[..|entries| - 1], z), entries[|entries| - 1];
      ResolvedNumbered(before.registry, e.clientAddress, e.time);
    }
  }

  ghost predicate AllNumbered(w: World)
  {
    Numbered(w.memory.registry.devices.Keys) && Numbered(w.db.devices.Keys)
  }

  lemma {:induction false} PolledNumbered(m: Memory, now: int, answer: Option<Answer>, z: Zone)
    requires Sound(m.registry) && Numbered(m.registry.devices.Keys)
    ensures Numbered(Polled(m, now, answer, z).registry.devices.Keys)
  {
    if Reads(m, now, answer) {
      ObservedAllNumbered(m.registry, answer.value.clients);
      AbsorbedNumbered(m.(registry := ObservedAll(m.registry, answer.value.clients)), answer.value.entries, z);
    }
  }

  lemma {:induction false} CommitIds(w: World, e: Event, s: Settings)
    requires Safe(w) && Commits(w, e, s)
    ensures Next(w, e, s).db.devices.Keys == w.memory.registry.devices.Keys
  {
    BatchIsFlush(w, e.now, s);
    CommitLeaves(w, BatchOf(w.memory, e.now, s), Commit(w.db, BatchOf(w.memory, e.now, s)).value);
  }

  lemma {:induction false} StepNumbered(w: World, e: Event, s: Settings)
    requires Safe(w) && AllNumbered(w)
    ensures AllNumbered(Next(w, e, s))
  {
    if e.PollEvent? {
      PolledNumbered(w.memory, e.now, e.answer, s.zone);
    } else if Commits(w, e, s) {
      CommitIds(w, e, s);
    } else {
      OtherIds(w, e, s);
    }
  }

  lemma {:induction false} LoadedIds(db: Database)
    ensures Loaded(db).devices.Keys == db.devices.Keys
  {
  }

  lemma {:induction false} OwnedIds(db: Database, id: nat, row: DeviceRow)
    requires id in db.devices
    ensures Owned(db, id, row).devices.Keys == db.devices.Keys
  {
  }

  lemma {:induction false} OtherIds(w: World, e: Event, s: Settings)
    requires Safe(w) && !e.PollEvent? && !Commits(w, e, s)
    ensures Next(w, e, s).db.devices.Keys == w.db.devices.Keys
    ensures Next(w, e, s).memory.registry.devices.Keys ==
            if e.RestartEvent? then w.db.devices.Keys else w.memory.registry.devices.Keys
  {
    LoadedIds(w.db);
    if e.EditEvent? && e.id in w.db.devices {
      OwnedIds(w.db, e.id, w.db.devices[e.id].(customName := e.customName, groupId := e.groupId));
    }
  }

  lemma {:induction false} EveryRunIsNumbered(es: seq<Event>, s: Settings)
    ensures AllNumbered(Run(es, s))
  {
    if es == [] {
      NextIdIs({}, 1);
      assert START.memory.registry.devices.Keys == {} && START.db.devices.Keys == {};
    } else {
      EveryRunIsNumbered(es[..|es| - 1], s);
      StepNumbered(Run(es[..|es| - 1], s), es[|es| - 1], s);
    }
  }

  // A crash gives an id to two devices exactly when it loses one: the next client the store does not
  // know gets an id that was in use before the crash if and only if some device was not stored. Nothing
  // stored refers to that id.
  lemma {:induction false} CrashReusesAnIdIff(es: seq<Event>, s: Settings, c: DnsClient)
    requires Known(Loaded(Run(es, s).db), c).None?
    ensures var w := Run(es, s);
            var id := ObservedId(Loaded(w.db), c);
            && (id in w.memory.registry.devices <==> exists d :: d in w.memory.registry.devices && d !in w.db.devices)
            && id !in w.db.devices
            && (forall a | a in w.db.addresses :: w.db.addresses[a].device != id)
            && (forall k | k in w.db.rollups :: k.device != id)
  {
    EveryRunIsNumbered(es, s);
    var w := Run(es, s);
    assert Loaded(w.db).devices.Keys == w.db.devices.Keys;
    CrashReuses(w, NextId(w.db.devices.Keys));
  }

  lemma {:induction false} CrashReuses(w: World, id: nat)
    requires Safe(w) && AllNumbered(w) && id == NextId(w.db.devices.Keys)
    ensures id in w.memory.registry.devices <==> exists d :: d in w.memory.registry.devices && d !in w.db.devices
    ensures id !in w.db.devices
  {
    if d :| d in w.memory.registry.devices.Keys && d !in w.db.devices.Keys {
      assert id <= d;
    }
  }
}
