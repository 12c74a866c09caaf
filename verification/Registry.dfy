/**
 Device identities (collector.py, DeviceRegistry): the in-memory map from MACs and addresses to
 devices, what of it is not stored yet, and what the store must hold for the next flush to succeed.
 A MAC is never the empty string (core/models.py:79-81).
 */
module Registry {
  import opened Wrappers
  import opened Strings
  import opened SortedSets
  import opened Metrics
  import opened Dashboard

  datatype Device = Device(mac: Option<string>, hostname: Option<string>, firstSeen: int, lastSeen: int)

  // What the provider reports: IPv4 addresses first, then IPv6 addresses.
  datatype DnsClient = DnsClient(
    mac: Option<string>, hostname: Option<string>, addresses: seq<string>, firstSeen: int, lastSeen: int)

  datatype Identities = Identities(
    devices: map<nat, Device>, byMac: map<string, nat>, byAddress: map<string, nat>,
    dirtyDevices: set<nat>, dirtyAddresses: map<string, int>)

  // ------------------------------------------------------------------------ operations

  predicate NatLe(a: nat, b: nat) { a <= b }

  function NextId(ids: set<nat>): (r: nat)
    ensures forall i | i in ids :: i < r
  {
    var s := Sorted(ids, NatLe);
    if s == [] then 1 else s[|s| - 1] + 1
  }

  // A device entered or changed; its row is dirty from then on.
  function Updated(r: Identities, id: nat, d: Device): Identities
  {
    Identities(r.devices[id := d], if d.mac.Some? then r.byMac[d.mac.value := id] else r.byMac, r.byAddress,
               r.dirtyDevices + {id}, r.dirtyAddresses)
  }

  function Seen(dirty: map<string, int>, address: string, seen: int): int
  {
    if address in dirty then Max(dirty[address], seen) else seen
  }

  function Bound(r: Identities, address: string, id: nat, seen: int): Identities
  {
    r.(byAddress := r.byAddress[address := id],
       dirtyAddresses := r.dirtyAddresses[address := Seen(r.dirtyAddresses, address, seen)])
  }

  function BoundAll(r: Identities, addresses: seq<string>, id: nat, seen: int): Identities
  {
    if addresses == [] then r
    else Bound(BoundAll(r, addresses[..|addresses| - 1], id, seen), addresses[|addresses| - 1], id, seen)
  }

  // The device bound to an address may be taken to be the client: it has no MAC, or the client's.
  predicate MayBe(r: Identities, address: string, mac: Option<string>)
  {
    && address in r.byAddress && r.byAddress[address] in r.devices
    && (r.devices[r.byAddress[address]].mac.None? || r.devices[r.byAddress[address]].mac == mac)
  }

  // The device of the first address that may be the client's.
  function Holder(r: Identities, addresses: seq<string>, mac: Option<string>): Option<nat>
  {
    if addresses == [] then None
    else
      var earlier := Holder(r, addresses[..|addresses| - 1], mac);
      var a := addresses[|addresses| - 1];
      if earlier.Some? then earlier else if MayBe(r, a, mac) then Some(r.byAddress[a]) else None
  }

  function Known(r: Identities, c: DnsClient): Option<nat>
  {
    if c.mac.Some? && c.mac.value in r.byMac then Some(r.byMac[c.mac.value]) else Holder(r, c.addresses, c.mac)
  }

  function Claimed(r: Identities, id: nat, mac: Option<string>): Identities
    requires id in r.devices
  {
    if mac.Some? && r.devices[id].mac.None? then
      r.(devices := r.devices[id := r.devices[id].(mac := mac)], byMac := r.byMac[mac.value := id],
         dirtyDevices := r.dirtyDevices + {id})
    else r
  }

  function Named(r: Identities, id: nat, hostname: Option<string>): Identities
    requires id in r.devices
  {
    if hostname.Some? && hostname.value != "" && hostname != r.devices[id].hostname then
      r.(devices := r.devices[id := r.devices[id].(hostname := hostname)], dirtyDevices := r.dirtyDevices + {id})
    else r
  }

  function Refreshed(r: Identities, id: nat, seen: int): Identities
    requires id in r.devices
  {
    if seen > r.devices[id].lastSeen then
      r.(devices := r.devices[id := r.devices[id].(lastSeen := seen)], dirtyDevices := r.dirtyDevices + {id})
    else r
  }

  function ObservedId(r: Identities, c: DnsClient): nat
  {
    var known := Known(r, c);
    if known.Some? then known.value else NextId(r.devices.Keys)
  }

  function Entered(r: Identities, c: DnsClient): Identities
  {
    if Known(r, c).Some? then r
    else Updated(r, NextId(r.devices.Keys), Device(c.mac, c.hostname, c.firstSeen, c.lastSeen))
  }

  function Observed(r: Identities, c: DnsClient): Identities
    requires Sound(r)
  {
    EnteredKeeps(r, c);
    var id := ObservedId(r, c);
    BoundAll(Named(Claimed(Entered(r, c), id, c.mac), id, c.hostname), c.addresses, id, c.lastSeen)
  }

  function ResolvedId(r: Identities, address: string): nat
  {
    if address in r.byAddress then r.byAddress[address] else NextId(r.devices.Keys)
  }

  function Resolved(r: Identities, address: string, seen: int): Identities
    requires Sound(r)
  {
    var id := ResolvedId(r, address);
    var r1 := if address in r.byAddress then r else Updated(r, id, Device(None, None, seen, seen));
    Bound(Refreshed(r1, id, seen), address, id, seen)
  }

  function Flushed(r: Identities): Identities
  {
    r.(dirtyDevices := {}, dirtyAddresses := map[])
  }

  // ------------------------------------------------------------------------ invariants

  ghost predicate Sound(r: Identities)
  {
    && (forall m | m in r.byMac :: r.byMac[m] in r.devices && r.devices[r.byMac[m]].mac == Some(m))
    && (forall d | d in r.devices && r.devices[d].mac.Some? ::
          r.devices[d].mac.value in r.byMac && r.byMac[r.devices[d].mac.value] == d)
    && (forall a | a in r.byAddress :: r.byAddress[a] in r.devices)
    && r.dirtyDevices <= r.devices.Keys
    && r.dirtyAddresses.Keys <= r.byAddress.Keys
  }

  // What never changes for a device once it is there.
  ghost predicate Extends(later: Identities, r: Identities)
  {
    forall d | d in r.devices ::
      && d in later.devices
      && (r.devices[d].mac.Some? ==> later.devices[d].mac == r.devices[d].mac)
      && later.devices[d].firstSeen == r.devices[d].firstSeen
      && later.devices[d].lastSeen >= r.devices[d].lastSeen
  }

  ghost predicate RowMatches(row: DeviceRow, d: Device, clean: bool)
  {
    && (row.mac.Some? ==> row.mac == d.mac)
    && (row.hostname.Some? ==> d.hostname.Some?)
    && row.firstSeen == d.firstSeen
    && row.lastSeen <= d.lastSeen
    && (clean ==> row.mac == d.mac && row.hostname == d.hostname && row.lastSeen == d.lastSeen)
  }

  // The store holds everything the registry does not mark dirty.
  ghost predicate DevicesInStep(r: Identities, rows: map<nat, DeviceRow>)
  {
    && (forall d | d in rows :: d in r.devices && RowMatches(rows[d], r.devices[d], d !in r.dirtyDevices))
    && (forall d | d in r.devices && d !in r.dirtyDevices :: d in rows)
  }

  ghost predicate AddressesInStep(r: Identities, rows: map<string, AddressRow>)
  {
    forall a | a in rows :: a in r.byAddress && (a !in r.dirtyAddresses ==> rows[a].device == r.byAddress[a])
  }

  ghost predicate InStep(r: Identities, db: Database)
  {
    && Sound(r) && Consistent(db)
    && DevicesInStep(r, db.devices)
    && AddressesInStep(r, db.addresses)
  }

  // ------------------------------------------------------------- what each operation keeps

  // The part of the invariants that an operation on the registry alone must keep.
  ghost predicate Keeps(later: Identities, r: Identities)
  {
    && Sound(later)
    && Extends(later, r)
    && r.dirtyDevices <= later.dirtyDevices
    && r.dirtyAddresses.Keys <= later.dirtyAddresses.Keys
    && (forall d | d in later.devices && d !in later.dirtyDevices :: d in r.devices && later.devices[d] == r.devices[d])
    && (forall d | d in r.devices && r.devices[d].hostname.Some? :: later.devices[d].hostname.Some?)
    && (forall a | a in r.byAddress :: a in later.byAddress)
    && (forall a | a in r.byAddress && a !in later.dirtyAddresses :: later.byAddress[a] == r.byAddress[a])
  }

  lemma {:induction false} KeepsIsTransitive(a: Identities, b: Identities, c: Identities)
    requires Keeps(b, a) && Keeps(c, b)
    ensures Keeps(c, a)
  {
  }

  lemma {:induction false} KeepsKeepsStep(later: Identities, r: Identities, db: Database)
    requires Keeps(later, r) && InStep(r, db)
    ensures InStep(later, db)
  {
    forall d | d in db.devices
      ensures d in later.devices && RowMatches(db.devices[d], later.devices[d], d !in later.dirtyDevices)
    {
      assert RowMatches(db.devices[d], r.devices[d], d !in r.dirtyDevices);
    }
  }

  lemma {:induction false} AddedKeeps(r: Identities, id: nat, d: Device)
    requires Sound(r)
    requires id !in r.devices
    requires d.mac.Some? ==> d.mac.value !in r.byMac
    ensures Keeps(Updated(r, id, d), r)
  {
  }

  lemma {:induction false} BoundKeeps(r: Identities, address: string, id: nat, seen: int)
    requires Sound(r) && id in r.devices
    ensures Keeps(Bound(r, address, id, seen), r)
  {
  }

  lemma {:induction false} BoundAllKeeps(r: Identities, addresses: seq<string>, id: nat, seen: int)
    requires Sound(r) && id in r.devices
    ensures var later := BoundAll(r, addresses, id, seen);
            && Keeps(later, r) && later.devices == r.devices
            && (forall a | a in addresses :: a in later.byAddress && later.byAddress[a] == id)
  {
    if addresses != [] {
      var front := addresses[..|addresses| - 1];
      BoundAllKeeps(r, front, id, seen);
      BoundKeeps(BoundAll(r, front, id, seen), addresses[|addresses| - 1], id, seen);
      KeepsIsTransitive(r, BoundAll(r, front, id, seen), BoundAll(r, addresses, id, seen));
    }
  }

  lemma {:induction false} UpdatedKeeps(r: Identities, id: nat, d: Device)
    requires Sound(r) && id in r.devices
    requires r.devices[id].mac.Some? ==> d.mac == r.devices[id].mac
    requires r.devices[id].mac.None? && d.mac.Some? && d.mac.value in r.byMac ==> r.byMac[d.mac.value] == id
    requires r.devices[id].hostname.Some? ==> d.hostname.Some?
    requires d.firstSeen == r.devices[id].firstSeen && d.lastSeen >= r.devices[id].lastSeen
    ensures Keeps(Updated(r, id, d), r)
  {
    var later := Updated(r, id, d);
    forall e | e in later.devices && later.devices[e].mac.Some?
      ensures later.devices[e].mac.value in later.byMac && later.byMac[later.devices[e].mac.value] == e
    {
      assert e != id ==> r.byMac[r.devices[e].mac.value] == e;
    }
  }

  lemma {:induction false} ClaimedKeeps(r: Identities, id: nat, mac: Option<string>)
    requires Sound(r) && id in r.devices
    requires mac.Some? && mac.value in r.byMac ==> r.byMac[mac.value] == id
    ensures Keeps(Claimed(r, id, mac), r)
  {
    if mac.Some? && r.devices[id].mac.None? {
      UpdatedKeeps(r, id, r.devices[id].(mac := mac));
      assert Claimed(r, id, mac) == Updated(r, id, r.devices[id].(mac := mac));
    }
  }

  lemma {:induction false} NamedKeeps(r: Identities, id: nat, hostname: Option<string>)
    requires Sound(r) && id in r.devices
    ensures Keeps(Named(r, id, hostname), r)
  {
    if Named(r, id, hostname) != r {
      UpdatedKeeps(r, id, r.devices[id].(hostname := hostname));
      assert Named(r, id, hostname) == Updated(r, id, r.devices[id].(hostname := hostname));
    }
  }

  lemma {:induction false} RefreshedKeeps(r: Identities, id: nat, seen: int)
    requires Sound(r) && id in r.devices
    ensures Keeps(Refreshed(r, id, seen), r)
  {
    if seen > r.devices[id].lastSeen {
      UpdatedKeeps(r, id, r.devices[id].(lastSeen := seen));
    }
  }

  lemma {:induction false} HolderIsKnown(r: Identities, addresses: seq<string>, mac: Option<string>)
    ensures var h := Holder(r, addresses, mac);
            && (h.Some? <==> exists a :: a in addresses && MayBe(r, a, mac))
            && (h.Some? ==> h.value in r.devices && (r.devices[h.value].mac.None? || r.devices[h.value].mac == mac))
  {
    if addresses != [] {
      HolderIsKnown(r, addresses[..|addresses| - 1], mac);
      assert addresses == addresses[..|addresses| - 1] + [addresses[|addresses| - 1]];
    }
  }

  lemma {:induction false} EnteredKeeps(r: Identities, c: DnsClient)
    requires Sound(r)
    ensures var e, id := Entered(r, c), ObservedId(r, c);
            && Keeps(e, r) && id in e.devices
            && (c.mac.Some? && c.mac.value in e.byMac ==> e.byMac[c.mac.value] == id)
            && (c.mac.Some? && e.devices[id].mac.Some? ==> e.devices[id].mac == c.mac)
  {
    HolderIsKnown(r, c.addresses, c.mac);
    if Known(r, c).None? {
      AddedKeeps(r, NextId(r.devices.Keys), Device(c.mac, c.hostname, c.firstSeen, c.lastSeen));
    }
  }

  // An observed client ends up on one device that carries its MAC, with all its addresses bound to
  // it; nothing known before is lost, and no MAC moves.
  lemma {:induction false} ObservedKeeps(r: Identities, c: DnsClient)
    requires Sound(r)
    ensures var later, id := Observed(r, c), ObservedId(r, c);
            && Keeps(later, r) && id in later.devices
            && (c.mac.Some? ==> later.devices[id].mac == c.mac)
            && (c.mac.Some? && c.mac.value in r.byMac ==> id == r.byMac[c.mac.value])
            && (forall a | a in c.addresses :: a in later.byAddress && later.byAddress[a] == id)
  {
    var id := ObservedId(r, c);
    var e := Entered(r, c);
    EnteredKeeps(r, c);
    ClaimedKeeps(e, id, c.mac);
    var claimed := Claimed(e, id, c.mac);
    NamedKeeps(claimed, id, c.hostname);
    var named := Named(claimed, id, c.hostname);
    BoundAllKeeps(named, c.addresses, id, c.lastSeen);
    KeepsIsTransitive(r, e, claimed);
    KeepsIsTransitive(r, claimed, named);
    KeepsIsTransitive(r, named, Observed(r, c));
  }

  // An address already bound resolves to its device; a new one to a new device.
  lemma {:induction false} ResolvedKeeps(r: Identities, address: string, seen: int)
    requires Sound(r)
    ensures var later, id := Resolved(r, address, seen), ResolvedId(r, address);
            && Keeps(later, r) && id in later.devices
            && address in later.byAddress && later.byAddress[address] == id
            && later.devices[id].lastSeen >= seen
            && (address in r.byAddress ==> id == r.byAddress[address])
            && (address !in r.byAddress ==> id !in r.devices)
  {
    var id := ResolvedId(r, address);
    var r1 := if address in r.byAddress then r else Updated(r, id, Device(None, None, seen, seen));
    if address !in r.byAddress {
      AddedKeeps(r, id, Device(None, None, seen, seen));
    }
    RefreshedKeeps(r1, id, seen);
    BoundKeeps(Refreshed(r1, id, seen), address, id, seen);
    KeepsIsTransitive(r, r1, Refreshed(r1, id, seen));
    KeepsIsTransitive(r, Refreshed(r1, id, seen), Resolved(r, address, seen));
  }

  // A device that has a MAC is never taken for a client with another one.
  lemma {:induction false} MacsNeverShareADevice(r: Identities, id: nat, c: DnsClient)
    requires Sound(r) && id in r.devices && r.devices[id].mac.Some?
    requires c.mac.Some? && c.mac != r.devices[id].mac
    ensures ObservedId(r, c) != id
  {
    ObservedKeeps(r, c);
  }

  // ----------------------------------------------------------------------------- flush

  function RowOf(r: Identities, id: nat): DeviceUpsert
    requires id in r.devices
  {
    var d := r.devices[id];
    DeviceUpsert(id, d.mac, d.hostname, d.firstSeen, d.lastSeen)
  }

  function RowsOf(r: Identities, ids: seq<nat>): seq<DeviceUpsert>
    requires forall id | id in ids :: id in r.devices
  {
    seq(|ids|, i requires 0 <= i < |ids| => RowOf(r, ids[i]))
  }

  function BindingsOf(r: Identities, addresses: seq<string>): seq<AddressUpsert>
    requires forall a | a in addresses :: a in r.byAddress && a in r.dirtyAddresses
  {
    seq(|addresses|, i requires 0 <= i < |addresses| =>
      AddressUpsert(addresses[i], r.byAddress[addresses[i]], r.dirtyAddresses[addresses[i]]))
  }

  function PendingDevices(r: Identities): seq<DeviceUpsert>
    requires Sound(r)
  {
    RowsOf(r, Sorted(r.dirtyDevices, NatLe))
  }

  function PendingAddresses(r: Identities): seq<AddressUpsert>
    requires Sound(r)
  {
    StringOrder();
    BindingsOf(r, Sorted(r.dirtyAddresses.Keys, StringLe))
  }

  // One row for each dirty device, in ascending order of the ids, with the device as it is now.
  ghost predicate AreDueDevices(ds: seq<DeviceUpsert>, r: Identities)
  {
    && (forall i, j | 0 <= i < j < |ds| :: ds[i].id < ds[j].id)
    && (forall id :: id in r.dirtyDevices <==> exists u :: u in ds && u.id == id)
    && (forall u | u in ds :: u.id in r.devices &&
          Device(u.mac, u.hostname, u.firstSeen, u.lastSeen) == r.devices[u.id])
  }

  // One row for each dirty address, in ascending order, with its device and its latest sighting.
  ghost predicate AreDueAddresses(us: seq<AddressUpsert>, r: Identities)
  {
    && (forall i, j | 0 <= i < j < |us| :: StringLe(us[i].address, us[j].address) && us[i].address != us[j].address)
    && (forall a :: a in r.dirtyAddresses <==> exists u :: u in us && u.address == a)
    && (forall u | u in us :: u.address in r.byAddress && u.address in r.dirtyAddresses
          && u.device == r.byAddress[u.address] && u.lastSeen == r.dirtyAddresses[u.address])
  }

  lemma {:induction false} PendingDevicesAreDue(r: Identities)
    requires Sound(r)
    ensures AreDueDevices(PendingDevices(r), r)
  {
    RowsAreDue(r, Sorted(r.dirtyDevices, NatLe));
  }

  lemma {:induction false} RowsAreDue(r: Identities, ids: seq<nat>)
    requires Sound(r) && Ascending(ids, NatLe) && forall id :: id in ids <==> id in r.dirtyDevices
    ensures AreDueDevices(RowsOf(r, ids), r)
  {
    var ds := RowsOf(r, ids);
    forall id | id in ids
      ensures exists u :: u in ds && u.id == id
    {
      var i :| 0 <= i < |ids| && ids[i] == id;
      assert ds[i] in ds && ds[i].id == id;
    }
  }

  lemma {:induction false} PendingAddressesAreDue(r: Identities)
    requires Sound(r)
    ensures AreDueAddresses(PendingAddresses(r), r)
  {
    StringOrder();
    BindingsAreDue(r, Sorted(r.dirtyAddresses.Keys, StringLe));
  }

  lemma {:induction false} BindingsAreDue(r: Identities, bound: seq<string>)
    requires Sound(r) && Ascending(bound, StringLe) && forall a :: a in bound <==> a in r.dirtyAddresses
    ensures AreDueAddresses(BindingsOf(r, bound), r)
  {
    var us := BindingsOf(r, bound);
    forall a | a in bound
      ensures exists u :: u in us && u.address == a
    {
      var i :| 0 <= i < |bound| && bound[i] == a;
      assert us[i] in us && us[i].address == a;
    }
  }

  // A store whose rows match the registry accepts any of its rows.
  ghost predicate RowsMatch(r: Identities, rows: map<nat, DeviceRow>)
  {
    forall d | d in rows :: d in r.devices && RowMatches(rows[d], r.devices[d], false)
  }

  lemma {:induction false} UpsertMatches(r: Identities, rows: map<nat, DeviceRow>, id: nat)
    requires Sound(r) && RowsMatch(r, rows) && id in r.devices
    ensures var next := UpsertDevice(rows, RowOf(r, id));
            && next.Some?
            && next.value.Keys == rows.Keys + {id}
            && RowMatches(next.value[id], r.devices[id], true)
            && (forall d | d in rows && d != id :: next.value[d] == rows[d])
            && RowsMatch(r, next.value)
  {
    var row := UpsertedRow(rows, RowOf(r, id));
    if id in rows {
      assert RowMatches(rows[id], r.devices[id], false);
    }
    assert row.mac == r.devices[id].mac;
    forall d | d in rows && d != id && row.mac.Some?
      ensures rows[d].mac != row.mac
    {
      assert RowMatches(rows[d], r.devices[d], false);
    }
  }

  // UNIQUE(mac) holds at every device statement of a flush, and the rows written are exact.
  lemma {:induction false} FlushDevices(r: Identities, rows: map<nat, DeviceRow>, ids: seq<nat>)
    requires Sound(r) && RowsMatch(r, rows)
    requires forall id | id in ids :: id in r.devices
    ensures var next := UpsertDevices(rows, RowsOf(r, ids));
            && next.Some?
            && RowsMatch(r, next.value)
            && (forall d :: d in next.value <==> d in rows || d in ids)
            && (forall d | d in ids :: RowMatches(next.value[d], r.devices[d], true))
            && (forall d | d in rows && d !in ids :: next.value[d] == rows[d])
  {
    if ids == [] {
    } else {
      var front, id := ids[..|ids| - 1], ids[|ids| - 1];
      assert RowsOf(r, ids)[..|ids| - 1] == RowsOf(r, front);
      FlushDevices(r, rows, front);
      var before := UpsertDevices(rows, RowsOf(r, front)).value;
      UpsertMatches(r, before, id);
      assert forall d | d in ids :: d in front || d == id;
      UpsertedAgainMatches(r, rows, before, UpsertDevice(before, RowOf(r, id)).value, front, id);
    }
  }

  lemma {:induction false} UpsertedAgainMatches(
    r: Identities, rows: map<nat, DeviceRow>, before: map<nat, DeviceRow>, next: map<nat, DeviceRow>, front: seq<nat>,
    id: nat)
    requires id in r.devices
    requires forall d | d in front :: d in before && d in r.devices && RowMatches(before[d], r.devices[d], true)
    requires id in next && RowMatches(next[id], r.devices[id], true)
    requires next.Keys == before.Keys + {id}
    requires forall d | d in before && d != id :: next[d] == before[d]
    requires forall d :: d in before <==> d in rows || d in front
    requires forall d | d in rows && d !in front :: before[d] == rows[d]
    ensures forall d | d in front + [id] :: RowMatches(next[d], r.devices[d], true)
    ensures forall d | d in rows && d !in front + [id] :: next[d] == rows[d]
  {
    forall d | d in front + [id]
      ensures RowMatches(next[d], r.devices[d], true)
    {
      assert d != id ==> next[d] == before[d];
    }
  }

  // The foreign key holds at every address statement; each binding and its latest sighting are stored.
  lemma {:induction false} FlushAddresses(
    r: Identities, rows: map<string, AddressRow>, devices: set<nat>, addresses: seq<string>)
    requires forall a | a in addresses :: a in r.byAddress && a in r.dirtyAddresses && r.byAddress[a] in devices
    requires forall i, j | 0 <= i < j < |addresses| :: addresses[i] != addresses[j]
    ensures var next := UpsertAddresses(rows, devices, BindingsOf(r, addresses));
            && next.Some?
            && (forall a :: a in next.value <==> a in rows || a in addresses)
            && (forall a | a in addresses ::
                  && next.value[a].device == r.byAddress[a]
                  && next.value[a].lastSeen ==
                     if a in rows then Max(rows[a].lastSeen, r.dirtyAddresses[a]) else r.dirtyAddresses[a])
            && (forall a | a in rows && a !in addresses :: next.value[a] == rows[a])
  {
    if addresses != [] {
      var front, last := addresses[..|addresses| - 1], addresses[|addresses| - 1];
      assert BindingsOf(r, addresses)[..|addresses| - 1] == BindingsOf(r, front);
      FlushAddresses(r, rows, devices, front);
      assert forall a | a in addresses :: a in front || a == last;
      assert last !in front;
    }
  }

  lemma {:induction false} MergeSucceeds(rollups: map<RollupKey, Counts>, devices: set<nat>, ds: seq<RollupDelta>)
    requires forall i | 0 <= i < |ds| :: ds[i].key.device in devices
    ensures MergeRollups(rollups, devices, ds).Some?
  {
    if ds != [] {
      MergeSucceeds(rollups, devices, ds[..|ds| - 1]);
    }
  }

  // A batch made of what the registry has pending, and of rollups of its devices.
  ghost predicate IsFlushOf(b: FlushBatch, r: Identities)
    requires Sound(r)
  {
    && b.devices == PendingDevices(r)
    && b.addresses == PendingAddresses(r)
    && forall i | 0 <= i < |b.rollups| :: b.rollups[i].key.device in r.devices
  }

  lemma {:induction false} FlushedDevices(r: Identities, rows: map<nat, DeviceRow>)
    requires Sound(r) && DevicesInStep(r, rows)
    ensures var next := UpsertDevices(rows, PendingDevices(r));
            && next.Some? && next.value.Keys == r.devices.Keys
            && DevicesInStep(Flushed(r), next.value)
  {
    var ids := Sorted(r.dirtyDevices, NatLe);
    FlushDevices(r, rows, ids);
    var next := UpsertDevices(rows, PendingDevices(r)).value;
    forall d
      ensures d in next <==> d in r.devices
      ensures d in next ==> RowMatches(next[d], r.devices[d], true)
    {
      assert d in ids <==> d in r.dirtyDevices;
      assert d in rows ==> RowMatches(rows[d], r.devices[d], d !in r.dirtyDevices);
    }
  }

  // The last sighting of an address, as the store will have it after the flush.
  function LatestSighting(r: Identities, db: Database, a: string): Option<int>
  {
    if a in r.dirtyAddresses then
      Some(if a in db.addresses then Max(db.addresses[a].lastSeen, r.dirtyAddresses[a]) else r.dirtyAddresses[a])
    else if a in db.addresses then Some(db.addresses[a].lastSeen)
    else None
  }

  lemma {:induction false} FlushedAddresses(r: Identities, db: Database, cutoff: int)
    requires InStep(r, db)
    ensures var next := UpsertAddresses(db.addresses, r.devices.Keys, PendingAddresses(r));
            && next.Some?
            && (forall a :: a in KeepAddresses(next.value, cutoff) <==>
                  LatestSighting(r, db, a).Some? && LatestSighting(r, db, a).value >= cutoff)
            && AddressesInStep(Flushed(r), KeepAddresses(next.value, cutoff))
  {
    StringOrder();
    var addresses := Sorted(r.dirtyAddresses.Keys, StringLe);
    FlushAddresses(r, db.addresses, r.devices.Keys, addresses);
    var next := UpsertAddresses(db.addresses, r.devices.Keys, PendingAddresses(r)).value;
    forall a
      ensures a in next <==> LatestSighting(r, db, a).Some?
      ensures a in next ==> next[a].lastSeen == LatestSighting(r, db, a).value
      ensures a in next ==> a in r.byAddress && next[a].device == r.byAddress[a]
    {
      assert a in addresses <==> a in r.dirtyAddresses;
    }
  }

  // Every flush of a registry in step with the store commits: no statement violates a constraint.
  // Afterwards the registry, with nothing dirty, is in step with the new contents.
  lemma {:induction false} FlushAlwaysCommits(r: Identities, db: Database, b: FlushBatch)
    requires InStep(r, db) && IsFlushOf(b, r)
    ensures Commit(db, b).Some? && InStep(Flushed(r), Commit(db, b).value)
  {
    FlushLeaves(r, db, b);
    CommitKeepsConsistency(db, b);
  }

  lemma {:induction false} FlushLeaves(r: Identities, db: Database, b: FlushBatch)
    requires InStep(r, db) && IsFlushOf(b, r)
    ensures Commit(db, b).Some? && Sound(Flushed(r))
    ensures DevicesInStep(Flushed(r), Commit(db, b).value.devices)
    ensures AddressesInStep(Flushed(r), Commit(db, b).value.addresses)
    ensures forall a :: a in Commit(db, b).value.addresses <==>
                        LatestSighting(r, db, a).Some? && LatestSighting(r, db, a).value >= b.cutoffs.day
  {
    FlushedDevices(r, db.devices);
    FlushedAddresses(r, db, b.cutoffs.day);
    MergeSucceeds(db.rollups, r.devices.Keys, b.rollups);
    FlushedIsSound(r);
  }

  lemma {:induction false} FlushedIsSound(r: Identities)
    requires Sound(r)
    ensures Sound(Flushed(r))
  {
  }

  // ---------------------------------------------------------------------------- reload

  // MACs to devices, entered in the order of the rows.
  function MacIndex(rows: map<nat, DeviceRow>, ids: seq<nat>): map<string, nat>
    requires forall id | id in ids :: id in rows
  {
    if ids == [] then map[]
    else
      var front, last := MacIndex(rows, ids[..|ids| - 1]), ids[|ids| - 1];
      if rows[last].mac.Some? then front[rows[last].mac.value := last] else front
  }

  function DeviceOf(row: DeviceRow): Device
  {
    Device(row.mac, row.hostname, row.firstSeen, row.lastSeen)
  }

  function DevicesOf(rows: map<nat, DeviceRow>): map<nat, Device>
  {
    map id | id in rows :: DeviceOf(rows[id])
  }

  function AddressBindings(rows: map<string, AddressRow>): map<string, nat>
  {
    map a | a in rows :: rows[a].device
  }

  // The registry a start of the collector builds from the store.
  function Loaded(db: Database): Identities
  {
    Identities(DevicesOf(db.devices), MacIndex(db.devices, Sorted(db.devices.Keys, NatLe)),
               AddressBindings(db.addresses), {}, map[])
  }

  lemma {:induction false} MacIndexHolds(rows: map<nat, DeviceRow>, ids: seq<nat>, m: string)
    requires forall id | id in ids :: id in rows
    requires m in MacIndex(rows, ids)
    ensures MacIndex(rows, ids)[m] in ids && rows[MacIndex(rows, ids)[m]].mac == Some(m)
  {
    var front, last := ids[..|ids| - 1], ids[|ids| - 1];
    assert ids == front + [last];
    if rows[last].mac != Some(m) {
      MacIndexHolds(rows, front, m);
    }
  }

  lemma {:induction false} MacIndexFinds(rows: map<nat, DeviceRow>, ids: seq<nat>, id: nat)
    requires MacsUnique(rows)
    requires forall id | id in ids :: id in rows
    requires id in ids && rows[id].mac.Some?
    ensures rows[id].mac.value in MacIndex(rows, ids) && MacIndex(rows, ids)[rows[id].mac.value] == id
  {
    var front, last := ids[..|ids| - 1], ids[|ids| - 1];
    assert ids == front + [last];
    if id != last {
      MacIndexFinds(rows, front, id);
    }
  }

  lemma {:induction false} LoadedMacs(db: Database)
    requires Consistent(db)
    ensures var l := Loaded(db);
            && (forall m | m in l.byMac :: l.byMac[m] in l.devices && l.devices[l.byMac[m]].mac == Some(m))
            && (forall d | d in l.devices && l.devices[d].mac.Some? ::
                  l.devices[d].mac.value in l.byMac && l.byMac[l.devices[d].mac.value] == d)
  {
    var rows, ids := db.devices, Sorted(db.devices.Keys, NatLe);
    var index := MacIndex(rows, ids);
    forall m | m in index
      ensures index[m] in rows && rows[index[m]].mac == Some(m)
    {
      MacIndexHolds(rows, ids, m);
    }
    forall d | d in rows && rows[d].mac.Some?
      ensures rows[d].mac.value in index && index[rows[d].mac.value] == d
    {
      MacIndexFinds(rows, ids, d);
    }
  }

  lemma {:induction false} LoadedIsSound(db: Database)
    requires Consistent(db)
    ensures Sound(Loaded(db))
  {
    LoadedMacs(db);
    forall a | a in Loaded(db).byAddress
      ensures Loaded(db).byAddress[a] in Loaded(db).devices
    {
      assert db.addresses[a].device in db.devices;
    }
  }

  lemma {:induction false} LoadedIsInStep(db: Database)
    requires Consistent(db)
    ensures InStep(Loaded(db), db)
  {
    LoadedIsSound(db);
    var l := Loaded(db);
    forall d | d in db.devices
      ensures d in l.devices && RowMatches(db.devices[d], l.devices[d], true)
    {
    }
  }

  lemma {:induction false} SameDevicesSameMacs(r: Identities, s: Identities)
    requires Sound(r) && Sound(s) && r.devices == s.devices
    ensures r.byMac == s.byMac
  {
    forall m
      ensures m in r.byMac <==> m in s.byMac
      ensures m in r.byMac ==> r.byMac[m] == s.byMac[m]
    {
      assert m in r.byMac ==> r.devices[r.byMac[m]].mac == Some(m);
      assert m in s.byMac ==> s.devices[s.byMac[m]].mac == Some(m);
    }
  }

  // A restart after a committed flush rebuilds the registry, minus the bindings of addresses not
  // seen since the retention cutoff.
  lemma {:induction false} ReloadAfterFlush(r: Identities, db: Database, b: FlushBatch)
    requires InStep(r, db) && IsFlushOf(b, r)
    ensures Commit(db, b).Some?
    ensures var l := Loaded(Commit(db, b).value);
            && l.devices == r.devices && l.byMac == r.byMac
            && (forall a :: a in l.byAddress <==>
                  LatestSighting(r, db, a).Some? && LatestSighting(r, db, a).value >= b.cutoffs.day)
            && (forall a | a in l.byAddress :: a in r.byAddress && l.byAddress[a] == r.byAddress[a])
  {
    FlushAlwaysCommits(r, db, b);
    var after := Commit(db, b).value;
    LoadedIsSound(after);
    ReloadedDevices(Flushed(r), after.devices);
    SameDevicesSameMacs(Loaded(after), r);
    FlushLeaves(r, db, b);
  }

  lemma {:induction false} ReloadedDevices(r: Identities, rows: map<nat, DeviceRow>)
    requires DevicesInStep(r, rows) && r.dirtyDevices == {}
    ensures DevicesOf(rows) == r.devices
  {
    forall d
      ensures d in rows <==> d in r.devices
      ensures d in rows ==> DeviceOf(rows[d]) == r.devices[d]
    {
      assert d in rows ==> RowMatches(rows[d], r.devices[d], true);
    }
  }

  // ----------------------------------------------------------------- the registry itself

  method LoadRows(rows: map<nat, DeviceRow>, ids: seq<nat>) returns (devices: map<nat, Device>, byMac: map<string, nat>)
    requires forall id :: id in ids <==> id in rows
    ensures devices == DevicesOf(rows)
    ensures byMac == MacIndex(rows, ids)
  {
    devices, byMac := map[], map[];
    for i := 0 to |ids|
      invariant forall id :: id in devices <==> id in ids[..i]
      invariant forall id | id in devices :: id in rows && devices[id] == DeviceOf(rows[id])
      invariant byMac == MacIndex(rows, ids[..i])
    {
      var id := ids[i];
      assert ids[..i + 1][..i] == ids[..i];
      devices := devices[id := DeviceOf(rows[id])];
      if rows[id].mac.Some? {
        byMac := byMac[rows[id].mac.value := id];
      }
    }
    assert ids[..|ids|] == ids;
  }

  class DeviceRegistry {
    var devices: map<nat, Device>
    var byMac: map<string, nat>
    var byAddress: map<string, nat>
    var dirtyDevices: set<nat>
    var dirtyAddresses: map<string, int>

    function Value(): Identities
      reads this
    {
      Identities(devices, byMac, byAddress, dirtyDevices, dirtyAddresses)
    }

    constructor (store: DashboardStore)
      ensures Value() == Loaded(store.db)
    {
      var ids := Sorted(store.db.devices.Keys, NatLe);
      var ds, index := LoadRows(store.db.devices, ids);
      devices, byMac, dirtyDevices, dirtyAddresses := ds, index, {}, map[];
      byAddress := AddressBindings(store.db.addresses);
    }

    method New(mac: Option<string>, hostname: Option<string>, first: int, last: int) returns (id: nat)
      modifies this
      ensures id == NextId(old(devices).Keys)
      ensures Value() == Updated(old(Value()), id, Device(mac, hostname, first, last))
    {
      id := NextId(devices.Keys);
      devices := devices[id := Device(mac, hostname, first, last)];
      if mac.Some? {
        byMac := byMac[mac.value := id];
      }
      dirtyDevices := dirtyDevices + {id};
    }

    method Bind(address: string, id: nat, seen: int)
      modifies this`byAddress, this`dirtyAddresses
      ensures Value() == Bound(old(Value()), address, id, seen)
    {
      byAddress := byAddress[address := id];
      dirtyAddresses := dirtyAddresses[address := Seen(dirtyAddresses, address, seen)];
    }

    method FindHolder(addresses: seq<string>, mac: Option<string>) returns (found: Option<nat>)
      requires Sound(Value())
      ensures found == Holder(Value(), addresses, mac)
    {
      for i := 0 to |addresses|
        invariant Holder(Value(), addresses[..i], mac) == None
      {
        assert addresses[..i + 1][..i] == addresses[..i];
        var address := addresses[i];
        if address in byAddress && (devices[byAddress[address]].mac.None? || devices[byAddress[address]].mac == mac) {
          HolderStays(Value(), addresses, i, mac);
          return Some(byAddress[address]);
        }
      }
      assert addresses[..|addresses|] == addresses;
      return None;
    }

    // MAC first, then an address held by a device without a different MAC, else a new device.
    method ObserveClient(c: DnsClient) returns (id: nat)
      requires Sound(Value())
      modifies this
      ensures id == ObservedId(old(Value()), c)
      ensures Value() == Observed(old(Value()), c)
    {
      ghost var r := Value();
      EnteredKeeps(r, c);
      var known: Option<nat> := None;
      if c.mac.Some? && c.mac.value in byMac {
        known := Some(byMac[c.mac.value]);
      }
      if known.None? {
        known := FindHolder(c.addresses, c.mac);
      }
      if known.Some? {
        id := known.value;
      } else {
        id := New(c.mac, c.hostname, c.firstSeen, c.lastSeen);
      }
      assert Value() == Entered(r, c) && id == ObservedId(r, c);
      Refine(id, c.mac, c.hostname);
      BindAll(c.addresses, id, c.lastSeen);
    }

    // The MAC of a device that had none, and a new host name.
    method Refine(id: nat, mac: Option<string>, hostname: Option<string>)
      requires id in devices
      modifies this`devices, this`byMac, this`dirtyDevices
      ensures Value() == Named(Claimed(old(Value()), id, mac), id, hostname)
    {
      if mac.Some? && devices[id].mac.None? {
        devices := devices[id := devices[id].(mac := mac)];
        byMac := byMac[mac.value := id];
        dirtyDevices := dirtyDevices + {id};
      }
      if hostname.Some? && hostname.value != "" && hostname != devices[id].hostname {
        devices := devices[id := devices[id].(hostname := hostname)];
        dirtyDevices := dirtyDevices + {id};
      }
    }

    method BindAll(addresses: seq<string>, id: nat, seen: int)
      modifies this`byAddress, this`dirtyAddresses
      ensures Value() == BoundAll(old(Value()), addresses, id, seen)
    {
      for i := 0 to |addresses|
        invariant Value() == BoundAll(old(Value()), addresses[..i], id, seen)
      {
        assert addresses[..i + 1][..i] == addresses[..i];
        Bind(addresses[i], id, seen);
      }
      assert addresses[..|addresses|] == addresses;
    }

    method ResolveAddress(address: string, seen: int) returns (id: nat)
      requires Sound(Value())
      modifies this
      ensures id == ResolvedId(old(Value()), address)
      ensures Value() == Resolved(old(Value()), address, seen)
    {
      if address in byAddress {
        id := byAddress[address];
      } else {
        id := New(None, None, seen, seen);
      }
      if seen > devices[id].lastSeen {
        devices := devices[id := devices[id].(lastSeen := seen)];
        dirtyDevices := dirtyDevices + {id};
      }
      Bind(address, id, seen);
    }

    // The rows a flush has to write: each dirty device and each dirty address once, in ascending
    // order, with what the registry now says of it.
    method Pending() returns (ds: seq<DeviceUpsert>, addresses: seq<AddressUpsert>)
      requires Sound(Value())
      ensures ds == PendingDevices(Value()) && addresses == PendingAddresses(Value())
      ensures AreDueDevices(ds, Value()) && AreDueAddresses(addresses, Value())
    {
      StringOrder();
      ds := RowsFor(Sorted(dirtyDevices, NatLe));
      addresses := BindingsFor(Sorted(dirtyAddresses.Keys, StringLe));
      PendingDevicesAreDue(Value());
      PendingAddressesAreDue(Value());
    }

    method RowsFor(ids: seq<nat>) returns (ds: seq<DeviceUpsert>)
      requires forall id | id in ids :: id in devices
      ensures ds == RowsOf(Value(), ids)
    {
      ds := [];
      for i := 0 to |ids|
        invariant ds == RowsOf(Value(), ids[..i])
      {
        var d := devices[ids[i]];
        ds := ds + [DeviceUpsert(ids[i], d.mac, d.hostname, d.firstSeen, d.lastSeen)];
      }
      assert ids[..|ids|] == ids;
    }

    method BindingsFor(bound: seq<string>) returns (us: seq<AddressUpsert>)
      requires forall a | a in bound :: a in byAddress && a in dirtyAddresses
      ensures us == BindingsOf(Value(), bound)
    {
      us := [];
      for i := 0 to |bound|
        invariant us == BindingsOf(Value(), bound[..i])
      {
        us := us + [AddressUpsert(bound[i], byAddress[bound[i]], dirtyAddresses[bound[i]])];
      }
      assert bound[..|bound|] == bound;
    }

    method MarkFlushed()
      modifies this`dirtyDevices, this`dirtyAddresses
      ensures Value() == Flushed(old(Value()))
    {
      dirtyDevices, dirtyAddresses := {}, map[];
    }
  }

  lemma {:induction false} HolderStays(r: Identities, addresses: seq<string>, i: nat, mac: Option<string>)
    requires i < |addresses| && Holder(r, addresses[..i], mac) == None && MayBe(r, addresses[i], mac)
    ensures Holder(r, addresses, mac) == Some(r.byAddress[addresses[i]])
  {
    if i == |addresses| - 1 {
      assert addresses[..|addresses| - 1] == addresses[..i];
    } else {
      assert addresses[..|addresses| - 1][..i] == addresses[..i];
      HolderStays(r, addresses[..|addresses| - 1], i, mac);
    }
  }
}
