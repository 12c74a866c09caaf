/**
 What an observed client and a resolved address leave in the registry (collector.py, observe_client and
 resolve_address): every field, said by the client and the registry before.
 */
module Sightings {
  import opened Wrappers
  import opened Dashboard
  import opened SortedSets
  import opened Registry

  // --------------------------------------------------------------------- who the client is

  // The k-th address of the client is bound to a device that has no MAC, or the client's.
  predicate MayBeAt(r: Identities, c: DnsClient, k: int)
  {
    && 0 <= k < |c.addresses| && c.addresses[k] in r.byAddress && r.byAddress[c.addresses[k]] in r.devices
    && var mac := r.devices[r.byAddress[c.addresses[k]]].mac; mac.Some? ==> mac == c.mac
  }

  predicate OwnsMac(r: Identities, c: DnsClient, id: nat)
  {
    c.mac.Some? && id in r.devices && r.devices[id].mac == c.mac
  }

  // One more than the largest id, or 1.
  ghost predicate IsNextId(ids: set<nat>, id: nat)
  {
    (forall d | d in ids :: d < id) && if ids == {} then id == 1 else id > 0 && id - 1 in ids
  }

  lemma {:induction false} NextIdIsNext(ids: set<nat>)
    ensures IsNextId(ids, NextId(ids))
  {
    var s := Sorted(ids, NatLe);
    if s != [] {
      var last := s[|s| - 1];
      assert last in s && last in ids;
    }
  }

  lemma {:induction false} HolderIsFirst(r: Identities, c: DnsClient, n: nat)
    requires n <= |c.addresses|
    ensures var h := Holder(r, c.addresses[..n], c.mac);
            && (h.None? <==> forall k | 0 <= k < n :: !MayBeAt(r, c, k))
            && (forall k | 0 <= k < n && MayBeAt(r, c, k) && (forall j | 0 <= j < k :: !MayBeAt(r, c, j)) ::
                  h == Some(r.byAddress[c.addresses[k]]))
  {
    if n > 0 {
      HolderIsFirst(r, c, n - 1);
      assert c.addresses[..n][..n - 1] == c.addresses[..n - 1];
      assert MayBe(r, c.addresses[n - 1], c.mac) <==> MayBeAt(r, c, n - 1);
    }
  }

  // The device that has the client's MAC; else the one of the first address that may be the client's; else a
  // new one, with the next id.
  lemma {:induction false} ClientIs(r: Identities, c: DnsClient)
    requires Sound(r)
    ensures var id := ObservedId(r, c);
            && (forall d | OwnsMac(r, c, d) :: id == d)
            && ((forall d :: !OwnsMac(r, c, d)) ==>
                  forall k | MayBeAt(r, c, k) && (forall j | 0 <= j < k :: !MayBeAt(r, c, j)) ::
                    id == r.byAddress[c.addresses[k]])
            && ((forall d :: !OwnsMac(r, c, d)) && (forall k :: !MayBeAt(r, c, k)) ==> IsNextId(r.devices.Keys, id))
            && (id !in r.devices ==> (forall d :: !OwnsMac(r, c, d)) && (forall k :: !MayBeAt(r, c, k)))
  {
    NextIdIsNext(r.devices.Keys);
    HolderIsFirst(r, c, |c.addresses|);
    HolderIsKnown(r, c.addresses, c.mac);
    assert c.addresses[..|c.addresses|] == c.addresses;
    if c.mac.Some? && c.mac.value in r.byMac {
      assert OwnsMac(r, c, r.byMac[c.mac.value]);
    }
  }

  // ---------------------------------------------------------------------- what it leaves

  // The last sighting that is pending for an address.
  function Latest(dirty: map<string, int>, a: string, seen: int): int
  {
    if a in dirty && dirty[a] > seen then dirty[a] else seen
  }

  ghost predicate BindsExactly(later: Identities, r: Identities, addresses: seq<string>, id: nat, seen: int)
  {
    && (forall a :: a in later.byAddress <==> a in r.byAddress || a in addresses)
    && (forall a | a in later.byAddress :: later.byAddress[a] == if a in addresses then id else r.byAddress[a])
    && (forall a :: a in later.dirtyAddresses <==> a in r.dirtyAddresses || a in addresses)
    && (forall a | a in later.dirtyAddresses ::
          later.dirtyAddresses[a] == if a in addresses then Latest(r.dirtyAddresses, a, seen) else r.dirtyAddresses[a])
  }

  lemma {:induction false} BoundAllIs(r: Identities, addresses: seq<string>, id: nat, seen: int)
    ensures var later := BoundAll(r, addresses, id, seen);
            && BindsExactly(later, r, addresses, id, seen)
            && later.devices == r.devices && later.dirtyDevices == r.dirtyDevices && later.byMac == r.byMac
  {
    if addresses != [] {
      var front, last := addresses[..|addresses| - 1], addresses[|addresses| - 1];
      BoundAllIs(r, front, id, seen);
      assert forall a :: a in addresses <==> a in front || a == last;
    }
  }

  // One device differs, and is dirty from then on when it does.
  ghost predicate ChangesOnly(later: Identities, r: Identities, id: nat, d: Device)
  {
    && later.devices == r.devices[id := d]
    && later.dirtyDevices == r.dirtyDevices + (if id in r.devices && r.devices[id] == d then {} else {id})
  }

  // The device of the client afterwards: its MAC stays or is the client's, its host name is the client's
  // when that has one; its dates are the client's when it is new and do not change otherwise.
  function DeviceAfter(r: Identities, c: DnsClient, id: nat): Device
  {
    if id in r.devices then
      var d := r.devices[id];
      Device(if d.mac.None? then c.mac else d.mac,
             if c.hostname.Some? && c.hostname.value != "" then c.hostname else d.hostname,
             d.firstSeen, d.lastSeen)
    else Device(c.mac, c.hostname, c.firstSeen, c.lastSeen)
  }

  // An observed client changes its device and binds its addresses, and nothing else.
  lemma {:induction false} ClientLeaves(r: Identities, c: DnsClient)
    requires Sound(r)
    ensures var later, id := Observed(r, c), ObservedId(r, c);
            && ChangesOnly(later, r, id, DeviceAfter(r, c, id))
            && BindsExactly(later, r, c.addresses, id, c.lastSeen)
  {
    var id, e := ObservedId(r, c), Entered(r, c);
    EnteredKeeps(r, c);
    EnteredIs(r, c);
    RefinedIs(e, id, c.mac, c.hostname);
    var refined := Named(Claimed(e, id, c.mac), id, c.hostname);
    BoundAllIs(refined, c.addresses, id, c.lastSeen);
    ClientDevice(r, e, refined, c, id);
  }

  lemma {:induction false} EnteredIs(r: Identities, c: DnsClient)
    requires Sound(r)
    ensures var e, id := Entered(r, c), ObservedId(r, c);
            && e.byAddress == r.byAddress && e.dirtyAddresses == r.dirtyAddresses
            && if id in r.devices then e == r
               else ChangesOnly(e, r, id, Device(c.mac, c.hostname, c.firstSeen, c.lastSeen))
  {
    HolderIsKnown(r, c.addresses, c.mac);
  }

  lemma {:induction false} RefinedIs(r: Identities, id: nat, mac: Option<string>, hostname: Option<string>)
    requires id in r.devices
    ensures var later, d := Named(Claimed(r, id, mac), id, hostname), r.devices[id];
            && later.byAddress == r.byAddress && later.dirtyAddresses == r.dirtyAddresses
            && ChangesOnly(later, r, id,
                 Device(if d.mac.None? then mac else d.mac,
                        if hostname.Some? && hostname.value != "" then hostname else d.hostname, d.firstSeen, d.lastSeen))
  {
  }

  lemma {:induction false} ClientDevice(r: Identities, e: Identities, refined: Identities, c: DnsClient, id: nat)
    requires id in e.devices
    requires if id in r.devices then e == r else ChangesOnly(e, r, id, Device(c.mac, c.hostname, c.firstSeen, c.lastSeen))
    requires var d := e.devices[id];
             ChangesOnly(refined, e, id,
               Device(if d.mac.None? then c.mac else d.mac,
                      if c.hostname.Some? && c.hostname.value != "" then c.hostname else d.hostname, d.firstSeen, d.lastSeen))
    ensures ChangesOnly(refined, r, id, DeviceAfter(r, c, id))
  {
  }

  // A resolved address is bound to its device, which was last seen no earlier than the query; a new device
  // was first and last seen then. Nothing else changes.
  lemma {:induction false} AddressLeaves(r: Identities, address: string, seen: int)
    requires Sound(r)
    ensures var later, id := Resolved(r, address, seen), ResolvedId(r, address);
            && (if address in r.byAddress then id == r.byAddress[address] else IsNextId(r.devices.Keys, id))
            && ChangesOnly(later, r, id,
                 if id in r.devices then r.devices[id].(lastSeen := Max(r.devices[id].lastSeen, seen))
                 else Device(None, None, seen, seen))
            && BindsExactly(later, r, [address], id, seen)
  {
    NextIdIsNext(r.devices.Keys);
    var id := ResolvedId(r, address);
    if address in r.byAddress {
      RefreshedIs(r, id, seen);
    } else {
      NewIs(r, id, seen);
    }
    OneBound(BeforeBinding(r, address, id, seen), address, id, seen);
  }

  function BeforeBinding(r: Identities, address: string, id: nat, seen: int): Identities
    requires address in r.byAddress ==> id in r.devices
  {
    Refreshed(if address in r.byAddress then r else Updated(r, id, Device(None, None, seen, seen)), id, seen)
  }

  lemma {:induction false} RefreshedIs(r: Identities, id: nat, seen: int)
    requires id in r.devices
    ensures var later := Refreshed(r, id, seen);
            && later.byAddress == r.byAddress && later.dirtyAddresses == r.dirtyAddresses
            && ChangesOnly(later, r, id, r.devices[id].(lastSeen := Max(r.devices[id].lastSeen, seen)))
  {
    if seen <= r.devices[id].lastSeen {
      assert r.devices == r.devices[id := r.devices[id]];
    }
  }

  lemma {:induction false} NewIs(r: Identities, id: nat, seen: int)
    requires id !in r.devices
    ensures var later := Refreshed(Updated(r, id, Device(None, None, seen, seen)), id, seen);
            && later.byAddress == r.byAddress && later.dirtyAddresses == r.dirtyAddresses
            && ChangesOnly(later, r, id, Device(None, None, seen, seen))
  {
  }

  lemma {:induction false} OneBound(r: Identities, address: string, id: nat, seen: int)
    ensures var later := Bound(r, address, id, seen);
            && BindsExactly(later, r, [address], id, seen)
            && later.devices == r.devices && later.dirtyDevices == r.dirtyDevices
  {
    assert [address][..0] == [] && BoundAll(r, [], id, seen) == r;
    assert BoundAll(r, [address], id, seen) == Bound(r, address, id, seen);
    BoundAllIs(r, [address], id, seen);
  }
}
