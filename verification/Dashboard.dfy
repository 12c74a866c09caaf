/**
 The dashboard database (storage/dashboard.py): the tables the collector writes, their constraints,
 and the one transaction that writes them.
 */
module Dashboard {
  import opened Wrappers
  import opened Metrics
  import opened Buckets

  datatype DeviceRow = DeviceRow(
    mac: Option<string>, hostname: Option<string>, customName: Option<string>, groupId: string,
    firstSeen: int, lastSeen: int)

  datatype AddressRow = AddressRow(device: nat, lastSeen: int)

  datatype RollupKey = RollupKey(resolution: Resolution, start: int, device: nat)

  datatype Database = Database(
    devices: map<nat, DeviceRow>, addresses: map<string, AddressRow>, rollups: map<RollupKey, Counts>,
    watermark: Option<int>)

  const EMPTY_DATABASE := Database(map[], map[], map[], None)

  datatype DeviceUpsert = DeviceUpsert(
    id: nat, mac: Option<string>, hostname: Option<string>, firstSeen: int, lastSeen: int)

  datatype AddressUpsert = AddressUpsert(address: string, device: nat, lastSeen: int)

  datatype RollupDelta = RollupDelta(key: RollupKey, delta: Counts)

  datatype Cutoffs = Cutoffs(minute: int, hour: int, day: int)
  {
    function At(r: Resolution): int
    {
      match r
      case Minute => minute
      case Hour => hour
      case Day => day
    }
  }

  datatype FlushBatch = FlushBatch(
    watermark: int, devices: seq<DeviceUpsert>, addresses: seq<AddressUpsert>, rollups: seq<RollupDelta>,
    cutoffs: Cutoffs)

  // ----------------------------------------------------------------------- constraints

  // UNIQUE(mac)
  ghost predicate MacsUnique(devices: map<nat, DeviceRow>)
  {
    forall d, e | d in devices && e in devices && devices[d].mac.Some? && devices[d].mac == devices[e].mac :: d == e
  }

  // REFERENCES devices(device_id), in both tables
  ghost predicate KeysExist(db: Database)
  {
    && (forall a | a in db.addresses :: db.addresses[a].device in db.devices)
    && (forall k | k in db.rollups :: k.device in db.devices)
  }

  ghost predicate Consistent(db: Database)
  {
    MacsUnique(db.devices) && KeysExist(db)
  }

  // ------------------------------------------------------------------------ statements

  function Coalesce(a: Option<string>, b: Option<string>): Option<string>
  {
    if a.Some? then a else b
  }

  function Min(a: int, b: int): int { if a <= b then a else b }

  function Max(a: int, b: int): int { if a >= b then a else b }

  function UpsertedRow(devices: map<nat, DeviceRow>, u: DeviceUpsert): DeviceRow
  {
    if u.id in devices then
      var row := devices[u.id];
      DeviceRow(Coalesce(u.mac, row.mac), Coalesce(u.hostname, row.hostname), row.customName, row.groupId,
                Min(row.firstSeen, u.firstSeen), Max(row.lastSeen, u.lastSeen))
    else DeviceRow(u.mac, u.hostname, None, "DEFAULT", u.firstSeen, u.lastSeen)
  }

  predicate MacTaken(devices: map<nat, DeviceRow>, id: nat, mac: Option<string>)
  {
    mac.Some? && exists d :: d in devices && d != id && devices[d].mac == mac
  }

  // None: the statement violates UNIQUE(mac) and the transaction is rolled back.
  function UpsertDevice(devices: map<nat, DeviceRow>, u: DeviceUpsert): Option<map<nat, DeviceRow>>
  {
    var row := UpsertedRow(devices, u);
    if MacTaken(devices, u.id, row.mac) then None else Some(devices[u.id := row])
  }

  function UpsertDevices(devices: map<nat, DeviceRow>, us: seq<DeviceUpsert>): Option<map<nat, DeviceRow>>
  {
    if us == [] then Some(devices)
    else
      match UpsertDevices(devices, us[..|us| - 1])
      case None => None
      case Some(d) => UpsertDevice(d, us[|us| - 1])
  }

  function UpsertedAddress(addresses: map<string, AddressRow>, u: AddressUpsert): AddressRow
  {
    AddressRow(u.device,
               if u.address in addresses then Max(addresses[u.address].lastSeen, u.lastSeen) else u.lastSeen)
  }

  // None: the statement violates the foreign key.
  function UpsertAddresses(addresses: map<string, AddressRow>, devices: set<nat>, us: seq<AddressUpsert>)
    : Option<map<string, AddressRow>>
  {
    if us == [] then Some(addresses)
    else
      match UpsertAddresses(addresses, devices, us[..|us| - 1])
      case None => None
      case Some(a) =>
        var u := us[|us| - 1];
        if u.device in devices then Some(a[u.address := UpsertedAddress(a, u)]) else None
  }

  function CountsAt(rollups: map<RollupKey, Counts>, key: RollupKey): Counts
  {
    if key in rollups then rollups[key] else ZERO
  }

  // None: the statement violates the foreign key.
  function MergeRollups(rollups: map<RollupKey, Counts>, devices: set<nat>, ds: seq<RollupDelta>)
    : Option<map<RollupKey, Counts>>
  {
    if ds == [] then Some(rollups)
    else
      match MergeRollups(rollups, devices, ds[..|ds| - 1])
      case None => None
      case Some(r) =>
        var d := ds[|ds| - 1];
        if d.key.device in devices then Some(r[d.key := Merge(CountsAt(r, d.key), d.delta)]) else None
  }

  function KeepRollups(rollups: map<RollupKey, Counts>, cutoffs: Cutoffs): map<RollupKey, Counts>
  {
    map k | k in rollups && k.start >= cutoffs.At(k.resolution) :: rollups[k]
  }

  function KeepAddresses(addresses: map<string, AddressRow>, cutoff: int): map<string, AddressRow>
  {
    map a | a in addresses && addresses[a].lastSeen >= cutoff :: addresses[a]
  }

  // The database after the transaction; None when a statement violates a constraint.
  function Commit(db: Database, b: FlushBatch): Option<Database>
  {
    var devices := UpsertDevices(db.devices, b.devices);
    if devices.None? then None
    else
      var addresses := UpsertAddresses(db.addresses, devices.value.Keys, b.addresses);
      var rollups := MergeRollups(db.rollups, devices.value.Keys, b.rollups);
      if addresses.None? || rollups.None? then None
      else Some(Database(devices.value, KeepAddresses(addresses.value, b.cutoffs.day),
                         KeepRollups(rollups.value, b.cutoffs), Some(b.watermark)))
  }

  // ----------------------------------------------------------------------------- store

  class DashboardStore {
    var db: Database   // what is committed

    constructor ()
      ensures db == EMPTY_DATABASE
    {
      db := EMPTY_DATABASE;
    }

    // Everything in one transaction, all or nothing. `fails` stands for an error of the database
    // itself, at any statement or at the commit.
    method Flush(b: FlushBatch, fails: bool) returns (ok: bool)
      modifies this
      ensures ok <==> !fails && Commit(old(db), b).Some?
      ensures db == if ok then Commit(old(db), b).value else old(db)
    {
      var devices := ApplyDevices(db.devices, b.devices);
      if devices.None? {
        return false;
      }
      var addresses := ApplyAddresses(db.addresses, devices.value.Keys, b.addresses);
      if addresses.None? {
        return false;
      }
      var rollups := ApplyRollups(db.rollups, devices.value.Keys, b.rollups);
      if rollups.None? || fails {
        return false;
      }
      db := Database(devices.value, KeepAddresses(addresses.value, b.cutoffs.day),
                     KeepRollups(rollups.value, b.cutoffs), Some(b.watermark));
      return true;
    }

    method RenameDevice(id: nat, customName: Option<string>) returns (ok: bool)
      modifies this
      ensures ok <==> id in old(db).devices
      ensures db == if ok then Owned(old(db), id, old(db).devices[id].(customName := customName)) else old(db)
    {
      if id in db.devices {
        db := db.(devices := db.devices[id := db.devices[id].(customName := customName)]);
        return true;
      }
      return false;
    }

    method AssignGroup(id: nat, groupId: string) returns (ok: bool)
      modifies this
      ensures ok <==> id in old(db).devices
      ensures db == if ok then Owned(old(db), id, old(db).devices[id].(groupId := groupId)) else old(db)
    {
      if id in db.devices {
        db := db.(devices := db.devices[id := db.devices[id].(groupId := groupId)]);
        return true;
      }
      return false;
    }
  }

  // The row of a device replaced by one that differs in the owner's fields.
  function Owned(db: Database, id: nat, row: DeviceRow): Database
  {
    db.(devices := db.devices[id := row])
  }

  method ApplyDevices(devices: map<nat, DeviceRow>, us: seq<DeviceUpsert>) returns (r: Option<map<nat, DeviceRow>>)
    ensures r == UpsertDevices(devices, us)
  {
    r := Some(devices);
    for i := 0 to |us|
      invariant r == UpsertDevices(devices, us[..i])
    {
      assert us[..i + 1][..i] == us[..i];
      if r.Some? {
        r := UpsertDevice(r.value, us[i]);
      }
    }
    assert us[..|us|] == us;
  }

  method ApplyAddresses(addresses: map<string, AddressRow>, devices: set<nat>, us: seq<AddressUpsert>)
    returns (r: Option<map<string, AddressRow>>)
    ensures r == UpsertAddresses(addresses, devices, us)
  {
    r := Some(addresses);
    for i := 0 to |us|
      invariant r == UpsertAddresses(addresses, devices, us[..i])
    {
      assert us[..i + 1][..i] == us[..i];
      if r.Some? {
        r := if us[i].device in devices then Some(r.value[us[i].address := UpsertedAddress(r.value, us[i])]) else None;
      }
    }
    assert us[..|us|] == us;
  }

  method ApplyRollups(rollups: map<RollupKey, Counts>, devices: set<nat>, ds: seq<RollupDelta>)
    returns (r: Option<map<RollupKey, Counts>>)
    ensures r == MergeRollups(rollups, devices, ds)
  {
    r := Some(rollups);
    for i := 0 to |ds|
      invariant r == MergeRollups(rollups, devices, ds[..i])
    {
      assert ds[..i + 1][..i] == ds[..i];
      if r.Some? {
        r := if ds[i].key.device in devices
             then Some(r.value[ds[i].key := Merge(CountsAt(r.value, ds[i].key), ds[i].delta)]) else None;
      }
    }
    assert ds[..|ds|] == ds;
  }

  // --------------------------------------------------------------- what a commit keeps

  lemma {:induction false} UpsertDevicesKeep(devices: map<nat, DeviceRow>, us: seq<DeviceUpsert>, id: nat)
    ensures var r := UpsertDevices(devices, us);
            r.Some? ==>
              && (id in r.value <==> id in devices || exists i :: 0 <= i < |us| && us[i].id == id)
              && (MacsUnique(devices) ==> MacsUnique(r.value))
              && (id in devices ==>
                    && r.value[id].customName == devices[id].customName
                    && r.value[id].groupId == devices[id].groupId
                    && r.value[id].firstSeen <= devices[id].firstSeen
                    && r.value[id].lastSeen >= devices[id].lastSeen)
  {
    if us != [] && UpsertDevices(devices, us).Some? {
      UpsertDevicesKeep(devices, us[..|us| - 1], id);
      if MacsUnique(devices) {
        UpsertKeepsUnique(UpsertDevices(devices, us[..|us| - 1]).value, us[|us| - 1]);
      }
    }
  }

  // A device that is not stored yet enters without a name of its own, in the DEFAULT group; of one that is, a
  // MAC and a host name are overwritten but never erased.
  lemma {:induction false} UpsertLeaves(devices: map<nat, DeviceRow>, u: DeviceUpsert)
    ensures UpsertDevice(devices, u).Some? ==>
              var row := UpsertDevice(devices, u).value[u.id];
              if u.id !in devices then row == DeviceRow(u.mac, u.hostname, None, "DEFAULT", u.firstSeen, u.lastSeen)
              else
                && row.mac == (if u.mac == None then devices[u.id].mac else u.mac)
                && row.hostname == (if u.hostname == None then devices[u.id].hostname else u.hostname)
                && row.firstSeen <= u.firstSeen && row.firstSeen <= devices[u.id].firstSeen
                && row.firstSeen in {u.firstSeen, devices[u.id].firstSeen}
                && row.lastSeen >= u.lastSeen && row.lastSeen >= devices[u.id].lastSeen
                && row.lastSeen in {u.lastSeen, devices[u.id].lastSeen}
    ensures UpsertDevice(devices, u).None? <==>
              exists d :: d in devices && d != u.id && devices[d].mac.Some?
                          && devices[d].mac == (if u.mac == None && u.id in devices then devices[u.id].mac else u.mac)
  {
  }

  lemma {:induction false} UpsertKeepsUnique(devices: map<nat, DeviceRow>, u: DeviceUpsert)
    requires MacsUnique(devices)
    ensures UpsertDevice(devices, u).Some? ==> MacsUnique(UpsertDevice(devices, u).value)
  {
  }

  lemma {:induction false} UpsertAddressesKeep(addresses: map<string, AddressRow>, devices: set<nat>, us: seq<AddressUpsert>)
    requires forall a | a in addresses :: addresses[a].device in devices
    ensures UpsertAddresses(addresses, devices, us).Some? ==>
              forall a | a in UpsertAddresses(addresses, devices, us).value ::
                UpsertAddresses(addresses, devices, us).value[a].device in devices
  {
    if us != [] {
      UpsertAddressesKeep(addresses, devices, us[..|us| - 1]);
    }
  }

  lemma {:induction false} MergeRollupsKeep(rollups: map<RollupKey, Counts>, devices: set<nat>, ds: seq<RollupDelta>)
    requires forall k | k in rollups :: k.device in devices
    ensures MergeRollups(rollups, devices, ds).Some? ==>
              forall k | k in MergeRollups(rollups, devices, ds).value :: k.device in devices
  {
    if ds != [] {
      MergeRollupsKeep(rollups, devices, ds[..|ds| - 1]);
    }
  }

  lemma {:induction false} ExpiryKeepsKeys(
    addresses: map<string, AddressRow>, rollups: map<RollupKey, Counts>, devices: map<nat, DeviceRow>,
    cutoffs: Cutoffs, db: Database)
    requires forall a | a in addresses :: addresses[a].device in devices.Keys
    requires forall k | k in rollups :: k.device in devices.Keys
    requires db.devices == devices && db.addresses == KeepAddresses(addresses, cutoffs.day)
    requires db.rollups == KeepRollups(rollups, cutoffs)
    ensures KeysExist(db)
  {
    forall a | a in db.addresses ensures db.addresses[a].device in db.devices {
      assert a in addresses;
    }
    forall k | k in db.rollups ensures k.device in db.devices {
      assert k in rollups;
    }
  }

  // Every committed transaction keeps the constraints, stores its watermark, and leaves the names
  // and groups that people gave to devices alone.
  lemma {:induction false} CommitKeepsConsistency(db: Database, b: FlushBatch)
    requires Consistent(db)
    ensures Commit(db, b).Some? ==>
              && Consistent(Commit(db, b).value)
              && Commit(db, b).value.watermark == Some(b.watermark)
              && forall id | id in db.devices ::
                   && id in Commit(db, b).value.devices
                   && Commit(db, b).value.devices[id].customName == db.devices[id].customName
                   && Commit(db, b).value.devices[id].groupId == db.devices[id].groupId
  {
    if Commit(db, b).Some? {
      var devices := UpsertDevices(db.devices, b.devices).value;
      forall id: nat
        ensures id in db.devices ==>
                  id in devices && devices[id].customName == db.devices[id].customName
                  && devices[id].groupId == db.devices[id].groupId
        ensures MacsUnique(devices)
      {
        UpsertDevicesKeep(db.devices, b.devices, id);
      }
      assert forall id | id in db.devices :: id in devices.Keys;
      UpsertAddressesKeep(db.addresses, devices.Keys, b.addresses);
      MergeRollupsKeep(db.rollups, devices.Keys, b.rollups);
      UpsertDevicesKeep(db.devices, b.devices, 0);
      var addresses := UpsertAddresses(db.addresses, devices.Keys, b.addresses);
      var rollups := MergeRollups(db.rollups, devices.Keys, b.rollups);
      ExpiryKeepsKeys(addresses.value, rollups.value, devices, b.cutoffs, Commit(db, b).value);
    }
  }
}
