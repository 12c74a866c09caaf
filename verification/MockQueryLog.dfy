/**
 The query log of the mock provider (providers/mock.py): queries regenerated minute by minute from
 a seed, ids ordered like time, pages cut at an id.
 */
module MockQueryLog {
  import opened Wrappers
  import opened Metrics
  import opened Paging

  const DEVICES: nat := 16
  const MAX_QUERIES_PER_DEVICE_MINUTE: nat := 19
  const IPV4_BASE: int := 3221225994   // 192.0.2.10
  const IPV6_BASE: int := 42540766411282592856903984951653826576   // 2001:db8::10

  type Offset = s: int | 0 <= s < 60

  // What the seeded generator draws for one query of a device in a minute.
  datatype Draw = Draw(
    offset: Offset, useIpv6: bool, domain: string, outcome: QueryOutcome, blockedBy: Option<string>, latencyMs: real)

  // Drawn anew, with the same result, on every call.
  type Generator = (int, nat) -> seq<Draw>

  datatype Raw = Raw(id: int, second: int, device: nat, draw: Draw)

  datatype Address = V4(n: int) | V6(n: int)

  datatype QueryFilter = QueryFilter(
    since: int, until: int, clientAddress: Option<Address>, domain: Option<string>, outcome: Option<QueryOutcome>)

  function QueryId(second: int, device: nat, sequence: nat): int
  {
    second * 1000 + device * 20 + sequence
  }

  function DeviceRaws(draws: seq<Draw>, minute: int, device: nat, n: nat): seq<Raw>
    requires n <= |draws|
  {
    if n == 0 then []
    else
      var second := minute * 60 + draws[n - 1].offset;
      DeviceRaws(draws, minute, device, n - 1) + [Raw(QueryId(second, device, n - 1), second, device, draws[n - 1])]
  }

  function DeviceMinute(gen: Generator, minute: int, device: nat): seq<Raw>
  {
    var draws := gen(minute, device);
    DeviceRaws(draws, minute, device,
               if |draws| < MAX_QUERIES_PER_DEVICE_MINUTE then |draws| else MAX_QUERIES_PER_DEVICE_MINUTE)
  }

  function MinuteQueries(gen: Generator, minute: int, devices: seq<nat>): seq<Raw>
  {
    if devices == [] then [] else DeviceMinute(gen, minute, devices[0]) + MinuteQueries(gen, minute, devices[1..])
  }

  function Ipv6ForDay(device: nat, day: int): Address
  {
    V6(IPV6_BASE + day * 65536 + device)
  }

  function AddressOf(raw: Raw): Address
  {
    if raw.draw.useIpv6 then Ipv6ForDay(raw.device, raw.second / 86400) else V4(IPV4_BASE + raw.device)
  }

  function AllDevices(): seq<nat>
  {
    seq(DEVICES, i requires 0 <= i < DEVICES => i)
  }

  // Only the device an address can belong to.
  function DevicesFor(address: Option<Address>): seq<nat>
  {
    match address
    case None => AllDevices()
    case Some(V4(n)) => if 0 <= n - IPV4_BASE < DEVICES then [n - IPV4_BASE] else []
    case Some(V6(n)) => if (n - IPV6_BASE) % 65536 < DEVICES then [(n - IPV6_BASE) % 65536] else []
  }

  predicate Keeps(q: QueryFilter, raw: Raw)
  {
    && q.since <= raw.second < q.until
    && (q.clientAddress.None? || AddressOf(raw) == q.clientAddress.value)
    && (q.domain.None? || raw.draw.domain == q.domain.value)
    && (q.outcome.None? || raw.draw.outcome == q.outcome.value)
  }

  predicate IsBelow(cursor: Option<int>, raw: Raw)
  {
    cursor.None? || raw.id < cursor.value
  }

  // ------------------------------------------------------------- sorting by falling id

  function Insert(x: Raw, s: seq<Raw>): seq<Raw>
  {
    if s == [] || x.id >= s[0].id then [x] + s else [s[0]] + Insert(x, s[1..])
  }

  function SortFalling(s: seq<Raw>): seq<Raw>
  {
    if s == [] then [] else Insert(s[0], SortFalling(s[1..]))
  }

  ghost predicate Falling(s: seq<Raw>)
  {
    forall i, j | 0 <= i < j < |s| :: s[i].id > s[j].id
  }

  ghost predicate DistinctIds(s: seq<Raw>)
  {
    forall i, j | 0 <= i < j < |s| :: s[i].id != s[j].id
  }

  lemma {:induction false} InsertFalling(x: Raw, s: seq<Raw>)
    requires Falling(s) && forall y | y in s :: y.id != x.id
    ensures Falling(Insert(x, s))
    ensures forall y :: y in Insert(x, s) <==> y == x || y in s
  {
    if s != [] && x.id < s[0].id {
      InsertFalling(x, s[1..]);
      assert s == [s[0]] + s[1..];
      forall k | 0 <= k < |Insert(x, s[1..])|
        ensures s[0].id > Insert(x, s[1..])[k].id
      {
        assert Insert(x, s[1..])[k] in Insert(x, s[1..]);
      }
    } else if s != [] {
      assert s[0] in s;
    }
  }

  lemma {:induction false} SortFallingSorts(s: seq<Raw>)
    requires DistinctIds(s)
    ensures Falling(SortFalling(s))
    ensures forall y :: y in SortFalling(s) <==> y in s
  {
    if s != [] {
      SortFallingSorts(s[1..]);
      assert s == [s[0]] + s[1..];
      InsertFalling(s[0], SortFalling(s[1..]));
    }
  }

  // --------------------------------------------------------------------------- unique ids

  ghost predicate OfDevice(raw: Raw, minute: int, device: nat, sequence: nat)
  {
    && raw.device == device && raw.id == raw.second * 1000 + device * 20 + sequence
    && minute * 60 <= raw.second < minute * 60 + 60
  }

  lemma {:induction false} DeviceRawAt(draws: seq<Draw>, minute: int, device: nat, n: nat, k: nat)
    requires k < n <= |draws|
    ensures |DeviceRaws(draws, minute, device, n)| == n
    ensures OfDevice(DeviceRaws(draws, minute, device, n)[k], minute, device, k)
  {
    if k < n - 1 {
      DeviceRawAt(draws, minute, device, n - 1, k);
    } else if n > 1 {
      DeviceRawAt(draws, minute, device, n - 1, 0);
    }
  }

  // A device makes at most 19 queries in a minute: the first ones drawn, each at its offset.
  lemma {:induction false} DeviceMinuteIs(gen: Generator, minute: int, device: nat, k: nat)
    ensures |DeviceMinute(gen, minute, device)| == if |gen(minute, device)| <= 19 then |gen(minute, device)| else 19
    ensures k < |DeviceMinute(gen, minute, device)| ==>
              var raw, draw := DeviceMinute(gen, minute, device)[k], gen(minute, device)[k];
              && raw.draw == draw && raw.second == minute * 60 + draw.offset
              && raw.device == device && raw.id == raw.second * 1000 + device * 20 + k
  {
    var draws := gen(minute, device);
    DeviceRawsAre(draws, minute, device, if |draws| < 19 then |draws| else 19, k);
  }

  lemma {:induction false} DeviceRawsAre(draws: seq<Draw>, minute: int, device: nat, n: nat, k: nat)
    requires n <= |draws|
    ensures |DeviceRaws(draws, minute, device, n)| == n
    ensures k < n ==>
              var raw := DeviceRaws(draws, minute, device, n)[k];
              && raw.draw == draws[k] && raw.second == minute * 60 + draws[k].offset
              && raw.device == device && raw.id == raw.second * 1000 + device * 20 + k
  {
    if n > 0 {
      DeviceRawsAre(draws, minute, device, n - 1, k);
    }
  }

  lemma {:induction false} SameIdSameQuery(s: int, i: nat, a: nat, t: int, j: nat, b: nat)
    requires i < DEVICES && j < DEVICES && a < MAX_QUERIES_PER_DEVICE_MINUTE && b < MAX_QUERIES_PER_DEVICE_MINUTE
    ensures QueryId(s, i, a) == QueryId(t, j, b) ==> s == t && i == j && a == b
    ensures s < t ==> QueryId(s, i, a) < QueryId(t, j, b)
  {
  }

  lemma {:induction false} DeviceMinuteAt(gen: Generator, minute: int, device: nat, k: nat)
    requires k < |DeviceMinute(gen, minute, device)|
    ensures k < MAX_QUERIES_PER_DEVICE_MINUTE
    ensures OfDevice(DeviceMinute(gen, minute, device)[k], minute, device, k)
  {
    var draws := gen(minute, device);
    var n := if |draws| < MAX_QUERIES_PER_DEVICE_MINUTE then |draws| else MAX_QUERIES_PER_DEVICE_MINUTE;
    if n > 0 {
      DeviceRawAt(draws, minute, device, n, 0);
      DeviceRawAt(draws, minute, device, n, k);
    }
  }

  ghost predicate RisingDevices(devices: seq<nat>)
  {
    (forall d | d in devices :: d < DEVICES) && forall i, j | 0 <= i < j < |devices| :: devices[i] < devices[j]
  }

  lemma {:induction false} MinuteQueryMember(gen: Generator, minute: int, devices: seq<nat>, raw: Raw)
    ensures raw in MinuteQueries(gen, minute, devices) <==>
            raw.device in devices && raw in DeviceMinute(gen, minute, raw.device)
  {
    if devices != [] {
      MinuteQueryMember(gen, minute, devices[1..], raw);
      assert devices == [devices[0]] + devices[1..];
      if raw in DeviceMinute(gen, minute, devices[0]) {
        var k :| 0 <= k < |DeviceMinute(gen, minute, devices[0])| && DeviceMinute(gen, minute, devices[0])[k] == raw;
        DeviceMinuteAt(gen, minute, devices[0], k);
      }
    }
  }

  lemma {:induction false} MinuteIdsAreDistinct(gen: Generator, minute: int, devices: seq<nat>)
    requires RisingDevices(devices)
    ensures DistinctIds(MinuteQueries(gen, minute, devices))
  {
    if devices != [] {
      var first, rest := DeviceMinute(gen, minute, devices[0]), MinuteQueries(gen, minute, devices[1..]);
      assert devices[0] in devices && forall d | d in devices[1..] :: d in devices;
      MinuteIdsAreDistinct(gen, minute, devices[1..]);
      forall i, j | 0 <= i < j < |first|
        ensures first[i].id != first[j].id
      {
        DeviceMinuteAt(gen, minute, devices[0], i);
        DeviceMinuteAt(gen, minute, devices[0], j);
        SameIdSameQuery(first[i].second, devices[0], i, first[j].second, devices[0], j);
      }
      forall i, j | 0 <= i < |first| && 0 <= j < |rest|
        ensures first[i].id != rest[j].id
      {
        DevicesNeverShareIds(gen, minute, devices, i, rest[j]);
      }
    }
  }

  lemma {:induction false} DevicesNeverShareIds(gen: Generator, minute: int, devices: seq<nat>, i: nat, other: Raw)
    requires devices != [] && RisingDevices(devices)
    requires i < |DeviceMinute(gen, minute, devices[0])|
    requires other in MinuteQueries(gen, minute, devices[1..])
    ensures DeviceMinute(gen, minute, devices[0])[i].id != other.id
  {
    var raw := DeviceMinute(gen, minute, devices[0])[i];
    MinuteQueryMember(gen, minute, devices[1..], other);
    var k :| 0 <= k < |DeviceMinute(gen, minute, other.device)| && DeviceMinute(gen, minute, other.device)[k] == other;
    DeviceMinuteAt(gen, minute, devices[0], i);
    DeviceMinuteAt(gen, minute, other.device, k);
    assert devices[0] in devices && other.device in devices;
    var j :| 0 <= j < |devices[1..]| && devices[1..][j] == other.device;
    assert devices[0] < devices[j + 1];
    SameIdSameQuery(raw.second, devices[0], i, other.second, other.device, k);
  }

  // ------------------------------------------------------------------- the filtered log

  function Filter(q: QueryFilter, cursor: Option<int>, raws: seq<Raw>): seq<Raw>
  {
    if raws == [] then []
    else
      Filter(q, cursor, raws[..|raws| - 1])
      + (if Keeps(q, raws[|raws| - 1]) && IsBelow(cursor, raws[|raws| - 1]) then [raws[|raws| - 1]] else [])
  }

  function MinutePage(gen: Generator, q: QueryFilter, cursor: Option<int>, minute: int, devices: seq<nat>): seq<Raw>
  {
    Filter(q, cursor, SortFalling(MinuteQueries(gen, minute, devices)))
  }

  // Newest first: all kept queries below the cursor from `minute` back to the start of the window.
  function Walk(gen: Generator, q: QueryFilter, cursor: Option<int>, minute: int, devices: seq<nat>): seq<Raw>
    decreases minute * 60 + 60 - q.since
  {
    if minute * 60 + 59 < q.since then []
    else MinutePage(gen, q, cursor, minute, devices) + Walk(gen, q, cursor, minute - 1, devices)
  }

  function LastMinute(q: QueryFilter): int
  {
    (q.until - 1) / 60
  }

  // The whole log of a filter, by definition over every device.
  function FullLog(gen: Generator, q: QueryFilter): seq<Raw>
  {
    Walk(gen, q, None, LastMinute(q), AllDevices())
  }

  function Below(log: seq<Raw>, cursor: Option<int>): seq<Raw>
  {
    if log == [] then []
    else Below(log[..|log| - 1], cursor) + (if IsBelow(cursor, log[|log| - 1]) then [log[|log| - 1]] else [])
  }

  // A strictly falling sequence is determined by its members.
  lemma {:induction false} FallingIsUnique(a: seq<Raw>, b: seq<Raw>)
    requires Falling(a) && Falling(b)
    requires forall x :: x in a <==> x in b
    ensures a == b
  {
    assert |b| > 0 ==> b[0] in b;
    if a != [] {
      assert a[0] in a && a[0] in b;
      assert b[0] in b && b[0] in a;
      assert a[0] == b[0];
      forall x
        ensures x in a[1..] <==> x in b[1..]
      {
        TailMember(a, x);
        TailMember(b, x);
      }
      FallingIsUnique(a[1..], b[1..]);
    }
  }

  lemma {:induction false} TailMember(s: seq<Raw>, x: Raw)
    requires s != [] && Falling(s)
    ensures x in s[1..] <==> x in s && x != s[0]
  {
    assert s == [s[0]] + s[1..];
  }

  lemma {:induction false} FilterMember(q: QueryFilter, cursor: Option<int>, raws: seq<Raw>, x: Raw)
    ensures x in Filter(q, cursor, raws) <==> x in raws && Keeps(q, x) && IsBelow(cursor, x)
  {
    if raws != [] {
      FilterMember(q, cursor, raws[..|raws| - 1], x);
      assert raws == raws[..|raws| - 1] + [raws[|raws| - 1]];
    }
  }

  lemma {:induction false} FilterFalling(q: QueryFilter, cursor: Option<int>, raws: seq<Raw>)
    requires Falling(raws)
    ensures Falling(Filter(q, cursor, raws))
  {
    if raws != [] {
      var n := |raws| - 1;
      FilterFalling(q, cursor, raws[..n]);
      var before := Filter(q, cursor, raws[..n]);
      forall i | 0 <= i < |before|
        ensures before[i].id > raws[n].id
      {
        assert before[i] in before;
        FilterMember(q, cursor, raws[..n], before[i]);
      }
    }
  }

  // What a page takes from one minute: every kept query of the minute, newest first.
  lemma {:induction false} MinutePageIs(gen: Generator, q: QueryFilter, cursor: Option<int>, minute: int, devices: seq<nat>)
    requires RisingDevices(devices)
    ensures Falling(MinutePage(gen, q, cursor, minute, devices))
    ensures forall x :: x in MinutePage(gen, q, cursor, minute, devices) <==>
              x in MinuteQueries(gen, minute, devices) && Keeps(q, x) && IsBelow(cursor, x)
  {
    MinuteIdsAreDistinct(gen, minute, devices);
    var sorted := SortFalling(MinuteQueries(gen, minute, devices));
    SortFallingSorts(MinuteQueries(gen, minute, devices));
    FilterFalling(q, cursor, sorted);
    forall x
      ensures x in MinutePage(gen, q, cursor, minute, devices) <==> x in sorted && Keeps(q, x) && IsBelow(cursor, x)
    {
      FilterMember(q, cursor, sorted, x);
    }
  }

  lemma {:induction false} DevicesForRises(address: Option<Address>)
    ensures RisingDevices(DevicesFor(address)) && RisingDevices(AllDevices())
    ensures forall d: nat :: d in AllDevices() <==> d < DEVICES
  {
    forall d: nat | d < DEVICES
      ensures d in AllDevices()
    {
      assert AllDevices()[d] == d;
    }
    forall d | d in AllDevices()
      ensures d < DEVICES
    {
      var i :| 0 <= i < DEVICES && AllDevices()[i] == d;
    }
  }

  // The address filter stays exact although only one device is generated.
  lemma {:induction false} KeptDeviceIsGenerated(q: QueryFilter, raw: Raw)
    requires Keeps(q, raw)
    ensures raw.device in AllDevices() ==> raw.device in DevicesFor(q.clientAddress)
    ensures raw.device in DevicesFor(q.clientAddress) ==> raw.device in AllDevices()
  {
    DevicesForRises(q.clientAddress);
    if q.clientAddress.Some? && raw.draw.useIpv6 && raw.device < DEVICES {
      var day := raw.second / 86400;
      assert (day * 65536 + raw.device) % 65536 == raw.device;
    }
  }

  lemma {:induction false} OneDeviceIsEnough(gen: Generator, q: QueryFilter, cursor: Option<int>, minute: int)
    ensures MinutePage(gen, q, cursor, minute, DevicesFor(q.clientAddress)) ==
            MinutePage(gen, q, cursor, minute, AllDevices())
  {
    DevicesForRises(q.clientAddress);
    var a := MinutePage(gen, q, cursor, minute, DevicesFor(q.clientAddress));
    var b := MinutePage(gen, q, cursor, minute, AllDevices());
    MinutePageIs(gen, q, cursor, minute, DevicesFor(q.clientAddress));
    MinutePageIs(gen, q, cursor, minute, AllDevices());
    forall x
      ensures x in a <==> x in b
    {
      MinuteQueryMember(gen, minute, DevicesFor(q.clientAddress), x);
      MinuteQueryMember(gen, minute, AllDevices(), x);
      if Keeps(q, x) {
        KeptDeviceIsGenerated(q, x);
      }
    }
    FallingIsUnique(a, b);
  }

  lemma {:induction false} WalkStep(gen: Generator, q: QueryFilter, cursor: Option<int>, minute: int, devices: seq<nat>)
    requires minute * 60 + 59 >= q.since
    ensures Walk(gen, q, cursor, minute, devices) ==
            MinutePage(gen, q, cursor, minute, devices) + Walk(gen, q, cursor, minute - 1, devices)
  {
  }

  lemma {:induction false} WalkOneDevice(gen: Generator, q: QueryFilter, cursor: Option<int>, minute: int)
    ensures Walk(gen, q, cursor, minute, DevicesFor(q.clientAddress)) == Walk(gen, q, cursor, minute, AllDevices())
    decreases minute * 60 + 60 - q.since
  {
    if minute * 60 + 59 >= q.since {
      OneDeviceIsEnough(gen, q, cursor, minute);
      WalkOneDevice(gen, q, cursor, minute - 1);
      WalkStep(gen, q, cursor, minute, DevicesFor(q.clientAddress));
      WalkStep(gen, q, cursor, minute, AllDevices());
    }
  }

  // ------------------------------------------------------------------ order of the log

  lemma {:induction false} MinuteQueryTime(gen: Generator, minute: int, raw: Raw)
    requires raw in MinuteQueries(gen, minute, AllDevices())
    ensures minute * 60 <= raw.second < minute * 60 + 60
    ensures raw.second * 1000 <= raw.id < raw.second * 1000 + 1000
    ensures minute * 60000 <= raw.id < (minute + 1) * 60000
    ensures minute == raw.second / 60
  {
    MinuteQueryMember(gen, minute, AllDevices(), raw);
    DevicesForRises(None);
    var k :| 0 <= k < |DeviceMinute(gen, minute, raw.device)| && DeviceMinute(gen, minute, raw.device)[k] == raw;
    DeviceMinuteAt(gen, minute, raw.device, k);
  }

  // Minute by minute, newest first: a query is in a walk when the walk visits its minute.
  lemma {:induction false} WalkMember(gen: Generator, q: QueryFilter, cursor: Option<int>, minute: int, x: Raw)
    ensures x in Walk(gen, q, cursor, minute, AllDevices()) <==>
            && Keeps(q, x) && IsBelow(cursor, x)
            && x.second / 60 <= minute && x in MinuteQueries(gen, x.second / 60, AllDevices())
    decreases minute * 60 + 60 - q.since
  {
    if minute * 60 + 59 >= q.since {
      DevicesForRises(None);
      MinutePageIs(gen, q, cursor, minute, AllDevices());
      WalkMember(gen, q, cursor, minute - 1, x);
      assert x in Walk(gen, q, cursor, minute, AllDevices()) <==>
             x in MinutePage(gen, q, cursor, minute, AllDevices()) || x in Walk(gen, q, cursor, minute - 1, AllDevices());
      if x in MinuteQueries(gen, minute, AllDevices()) {
        MinuteQueryTime(gen, minute, x);
      }
    } else {
      NothingBeforeWindow(q, minute, x);
    }
  }

  lemma {:induction false} NothingBeforeWindow(q: QueryFilter, minute: int, x: Raw)
    requires minute * 60 + 59 < q.since
    ensures !(Keeps(q, x) && x.second / 60 <= minute)
  {
  }

  lemma {:induction false} NewerMinuteIsAbove(
    gen: Generator, q: QueryFilter, cursor: Option<int>, minute: int, x: Raw, y: Raw)
    requires x in MinuteQueries(gen, minute, AllDevices())
    requires y in Walk(gen, q, cursor, minute - 1, AllDevices())
    ensures x.id > y.id
  {
    MinuteQueryTime(gen, minute, x);
    WalkMember(gen, q, cursor, minute - 1, y);
    MinuteQueryTime(gen, y.second / 60, y);
  }

  lemma {:induction false} FallingJoin(a: seq<Raw>, b: seq<Raw>)
    requires Falling(a) && Falling(b)
    requires forall x, y | x in a && y in b :: x.id > y.id
    ensures Falling(a + b)
  {
  }

  lemma {:induction false} WalkFalls(gen: Generator, q: QueryFilter, cursor: Option<int>, minute: int)
    ensures Falling(Walk(gen, q, cursor, minute, AllDevices()))
    decreases minute * 60 + 60 - q.since
  {
    if minute * 60 + 59 >= q.since {
      WalkFalls(gen, q, cursor, minute - 1);
      PageOnWalk(gen, q, cursor, minute, Walk(gen, q, cursor, minute - 1, AllDevices()));
      WalkStep(gen, q, cursor, minute, AllDevices());
    }
  }

  lemma {:induction false} PageOnWalk(gen: Generator, q: QueryFilter, cursor: Option<int>, minute: int, rest: seq<Raw>)
    requires rest == Walk(gen, q, cursor, minute - 1, AllDevices()) && Falling(rest)
    ensures Falling(MinutePage(gen, q, cursor, minute, AllDevices()) + rest)
  {
    var page := MinutePage(gen, q, cursor, minute, AllDevices());
    DevicesForRises(None);
    MinutePageIs(gen, q, cursor, minute, AllDevices());
    PageIsAbove(gen, q, cursor, minute, page, rest);
    FallingJoin(page, rest);
  }

  lemma {:induction false} PageIsAbove(
    gen: Generator, q: QueryFilter, cursor: Option<int>, minute: int, page: seq<Raw>, rest: seq<Raw>)
    requires forall x | x in page :: x in MinuteQueries(gen, minute, AllDevices())
    requires rest == Walk(gen, q, cursor, minute - 1, AllDevices())
    ensures forall x, y | x in page && y in rest :: x.id > y.id
  {
    forall x, y | x in page && y in rest
      ensures x.id > y.id
    {
      NewerMinuteIsAbove(gen, q, cursor, minute, x, y);
    }
  }

  // What a filter asks for: the moment within the window, and the address, the name and the outcome when it
  // gives them.
  predicate AsksFor(q: QueryFilter, raw: Raw)
  {
    && q.since <= raw.second && raw.second < q.until
    && (q.clientAddress.Some? ==> q.clientAddress == Some(AddressOf(raw)))
    && (q.domain.Some? ==> q.domain == Some(raw.draw.domain))
    && (q.outcome.Some? ==> q.outcome == Some(raw.draw.outcome))
  }

  // The log of a filter holds exactly the queries of every device and minute that it asks for, strictly
  // falling by id.
  lemma {:induction false} FullLogIsExact(gen: Generator, q: QueryFilter, x: Raw)
    ensures Falling(FullLog(gen, q))
    ensures x in FullLog(gen, q) <==> AsksFor(q, x) && x in MinuteQueries(gen, x.second / 60, AllDevices())
  {
    WalkFalls(gen, q, None, LastMinute(q));
    WalkMember(gen, q, None, LastMinute(q), x);
  }

  // Two adjacent windows: the later one first, their logs are the log of the whole.
  lemma {:induction false} AdjacentLogs(gen: Generator, q: QueryFilter, b: int)
    requires q.since <= b <= q.until
    ensures FullLog(gen, q.(since := b)) + FullLog(gen, q.(until := b)) == FullLog(gen, q)
  {
    var later, earlier := FullLog(gen, q.(since := b)), FullLog(gen, q.(until := b));
    WalkFalls(gen, q.(since := b), None, LastMinute(q.(since := b)));
    WalkFalls(gen, q.(until := b), None, LastMinute(q.(until := b)));
    WalkFalls(gen, q, None, LastMinute(q));
    forall x, y | x in later && y in earlier
      ensures x.id > y.id
    {
      LaterIsAbove(gen, q, b, x, y);
    }
    FallingJoin(later, earlier);
    forall x
      ensures x in later + earlier <==> x in FullLog(gen, q)
    {
      FullLogIsExact(gen, q.(since := b), x);
      FullLogIsExact(gen, q.(until := b), x);
      FullLogIsExact(gen, q, x);
    }
    FallingIsUnique(later + earlier, FullLog(gen, q));
  }

  lemma {:induction false} LaterIsAbove(gen: Generator, q: QueryFilter, b: int, x: Raw, y: Raw)
    requires x in FullLog(gen, q.(since := b)) && y in FullLog(gen, q.(until := b))
    ensures x.id > y.id
  {
    FullLogIsExact(gen, q.(since := b), x);
    FullLogIsExact(gen, q.(until := b), y);
    MinuteQueryTime(gen, x.second / 60, x);
    MinuteQueryTime(gen, y.second / 60, y);
  }

  // ------------------------------------------------------------------ cutting at a cursor

  lemma {:induction false} BelowMember(log: seq<Raw>, cursor: Option<int>, x: Raw)
    ensures x in Below(log, cursor) <==> x in log && IsBelow(cursor, x)
  {
    if log != [] {
      BelowMember(log[..|log| - 1], cursor, x);
      assert log == log[..|log| - 1] + [log[|log| - 1]];
    }
  }

  // In a falling log, what lies below a cursor is the end of the log.
  lemma {:induction false} BelowIsSuffix(log: seq<Raw>, cursor: Option<int>, k: nat)
    requires Falling(log) && k <= |log|
    requires forall i | 0 <= i < |log| :: IsBelow(cursor, log[i]) <==> i >= k
    ensures Below(log, cursor) == log[k..]
  {
    if log != [] {
      var n := |log| - 1;
      if k <= n {
        BelowIsSuffix(log[..n], cursor, k);
        assert log[k..] == log[..n][k..] + [log[n]];
      } else {
        BelowIsSuffix(log[..n], cursor, n);
      }
    }
  }

  function Position(log: seq<Raw>, cursor: Option<int>): nat
  {
    if log == [] || IsBelow(cursor, log[0]) then 0 else 1 + Position(log[1..], cursor)
  }

  lemma {:induction false} PositionCuts(log: seq<Raw>, cursor: Option<int>)
    requires Falling(log)
    ensures Position(log, cursor) <= |log|
    ensures forall i | 0 <= i < |log| :: IsBelow(cursor, log[i]) <==> i >= Position(log, cursor)
    ensures Below(log, cursor) == log[Position(log, cursor)..]
  {
    if log != [] && !IsBelow(cursor, log[0]) {
      PositionCuts(log[1..], cursor);
      forall i | 0 <= i < |log|
        ensures IsBelow(cursor, log[i]) <==> i >= Position(log, cursor)
      {
        if i > 0 {
          assert log[i] == log[1..][i - 1];
        }
      }
    }
    BelowIsSuffix(log, cursor, Position(log, cursor));
  }

  // Walking back from the minute of the cursor loses nothing.
  lemma {:induction false} CursorWalk(gen: Generator, q: QueryFilter, cursor: Option<int>, minute: int)
    requires minute <= LastMinute(q)
    requires cursor.Some? ==>
               forall x: Raw | x.id < cursor.value && x.second * 1000 <= x.id && x.second < q.until ::
                 x.second / 60 <= minute
    requires cursor.None? ==> minute == LastMinute(q)
    ensures Walk(gen, q, cursor, minute, AllDevices()) == Below(FullLog(gen, q), cursor)
  {
    var log := FullLog(gen, q);
    var a, b := Walk(gen, q, cursor, minute, AllDevices()), Below(log, cursor);
    WalkFalls(gen, q, cursor, minute);
    WalkFalls(gen, q, None, LastMinute(q));
    PositionCuts(log, cursor);
    forall x
      ensures x in a <==> x in b
    {
      WalkedIff(gen, q, cursor, minute, x);
    }
    FallingIsUnique(a, b);
  }

  lemma {:induction false} WalkedIff(gen: Generator, q: QueryFilter, cursor: Option<int>, minute: int, x: Raw)
    requires minute <= LastMinute(q)
    requires cursor.Some? && x.id < cursor.value && x.second * 1000 <= x.id && x.second < q.until ==> x.second / 60 <= minute
    requires cursor.None? ==> minute == LastMinute(q)
    ensures x in Walk(gen, q, cursor, minute, AllDevices()) <==> x in Below(FullLog(gen, q), cursor)
  {
    WalkMember(gen, q, cursor, minute, x);
    BelowMember(FullLog(gen, q), cursor, x);
    WalkMember(gen, q, None, LastMinute(q), x);
    if x in MinuteQueries(gen, x.second / 60, AllDevices()) {
      MinuteQueryTime(gen, x.second / 60, x);
    }
  }

  // ------------------------------------------------------------------------------ pages

  const MAX_PAGE := 1000

  function PageOf(rest: seq<Raw>, limit: nat): Page<Raw>
    requires limit >= 1
  {
    if |rest| <= limit then Page(rest, None) else Page(rest[..limit], Some(rest[limit - 1].id))
  }

  // The page behind a cursor: at most `limit` queries of the log below it, and where to go on.
  function MockPage(gen: Generator, q: QueryFilter, limit: nat, cursor: Option<int>): Page<Raw>
    requires limit >= 1
  {
    PageOf(Below(FullLog(gen, q), cursor), limit)
  }

  method GenerateMinute(gen: Generator, minute: int, devices: seq<nat>) returns (raws: seq<Raw>)
    ensures raws == MinuteQueries(gen, minute, devices)
  {
    raws := [];
    for i := 0 to |devices|
      invariant raws + MinuteQueries(gen, minute, devices[i..]) == MinuteQueries(gen, minute, devices)
    {
      assert devices[i..][0] == devices[i] && devices[i..][1..] == devices[i + 1..];
      var draws := gen(minute, devices[i]);
      var count := if |draws| < MAX_QUERIES_PER_DEVICE_MINUTE then |draws| else MAX_QUERIES_PER_DEVICE_MINUTE;
      var own: seq<Raw> := [];
      for sequence := 0 to count
        invariant own == DeviceRaws(draws, minute, devices[i], sequence)
      {
        var second := minute * 60 + draws[sequence].offset;
        own := own + [Raw(QueryId(second, devices[i], sequence), second, devices[i], draws[sequence])];
      }
      raws := raws + own;
    }
  }

  method Collect(q: QueryFilter, cursor: Option<int>, raws: seq<Raw>) returns (found: seq<Raw>)
    ensures found == Filter(q, cursor, raws)
  {
    found := [];
    for i := 0 to |raws|
      invariant found == Filter(q, cursor, raws[..i])
    {
      assert raws[..i + 1][..i] == raws[..i];
      if Keeps(q, raws[i]) && IsBelow(cursor, raws[i]) {
        found := found + [raws[i]];
      }
    }
    assert raws[..|raws|] == raws;
  }

  function TopSecond(q: QueryFilter, cursor: Option<int>): int
  {
    if cursor.None? || q.until - 1 <= cursor.value / 1000 then q.until - 1 else cursor.value / 1000
  }

  lemma {:induction false} TopSecondBounds(q: QueryFilter, cursor: Option<int>, x: Raw)
    requires IsBelow(cursor, x) && x.second * 1000 <= x.id && x.second < q.until
    ensures x.second <= TopSecond(q, cursor)
  {
  }

  lemma {:induction false} WalkFromTop(gen: Generator, q: QueryFilter, cursor: Option<int>)
    ensures Walk(gen, q, cursor, TopSecond(q, cursor) / 60, DevicesFor(q.clientAddress)) == Below(FullLog(gen, q), cursor)
    ensures TopSecond(q, cursor) < q.since ==> Below(FullLog(gen, q), cursor) == []
  {
    var minute := TopSecond(q, cursor) / 60;
    var log := FullLog(gen, q);
    WalkOneDevice(gen, q, cursor, minute);
    forall x: Raw | IsBelow(cursor, x) && x.second * 1000 <= x.id && x.second < q.until
      ensures x.second / 60 <= minute
    {
      TopSecondBounds(q, cursor, x);
    }
    CursorWalk(gen, q, cursor, minute);
    var rest := Below(log, cursor);
    if rest != [] {
      var x := rest[0];
      BelowMember(log, cursor, x);
      FullLogIsExact(gen, q, x);
      MinuteQueryTime(gen, x.second / 60, x);
      TopSecondBounds(q, cursor, x);
    }
  }

  method OneMinute(gen: Generator, q: QueryFilter, cursor: Option<int>, minute: int, devices: seq<nat>)
    returns (page: seq<Raw>)
    ensures page == MinutePage(gen, q, cursor, minute, devices)
  {
    var raws := GenerateMinute(gen, minute, devices);
    page := Collect(q, cursor, SortFalling(raws));
  }

  lemma {:induction false} WalkOneMinute(
    gen: Generator, q: QueryFilter, cursor: Option<int>, minute: int, devices: seq<nat>, found: seq<Raw>)
    requires minute * 60 + 59 >= q.since
    ensures found + Walk(gen, q, cursor, minute, devices) ==
            (found + MinutePage(gen, q, cursor, minute, devices)) + Walk(gen, q, cursor, minute - 1, devices)
  {
  }

  // The loop over minutes: it stops behind the start of the window, or with more than a page.
  method WalkMinutes(gen: Generator, q: QueryFilter, limit: nat, cursor: Option<int>, top: int, devices: seq<nat>)
    returns (found: seq<Raw>)
    ensures found <= Walk(gen, q, cursor, top, devices)
    ensures |found| <= limit ==> found == Walk(gen, q, cursor, top, devices)
  {
    found := [];
    var minute := top;
    ghost var all := Walk(gen, q, cursor, top, devices);
    ghost var rest := all;
    while minute * 60 + 59 >= q.since && |found| <= limit
      invariant rest == Walk(gen, q, cursor, minute, devices)
      invariant found + rest == all
      decreases minute * 60 + 60 - q.since
    {
      WalkOneMinute(gen, q, cursor, minute, devices, found);
      var page := OneMinute(gen, q, cursor, minute, devices);
      found := found + page;
      minute := minute - 1;
      rest := Walk(gen, q, cursor, minute, devices);
    }
  }

  // Everything below the cursor, or more of it than a page holds.
  method FindBelow(gen: Generator, q: QueryFilter, limit: nat, cursor: Option<int>) returns (found: seq<Raw>)
    ensures found <= Below(FullLog(gen, q), cursor)
    ensures |found| <= limit ==> found == Below(FullLog(gen, q), cursor)
  {
    WalkFromTop(gen, q, cursor);
    if TopSecond(q, cursor) < q.since {
      return [];
    }
    found := WalkMinutes(gen, q, limit, cursor, TopSecond(q, cursor) / 60, DevicesFor(q.clientAddress));
  }

  // None where the limit is refused.
  method QueryLog(gen: Generator, q: QueryFilter, limit: int, cursor: Option<int>) returns (r: Option<Page<Raw>>)
    ensures r == if 1 <= limit <= 1000 then Some(MockPage(gen, q, limit, cursor)) else None
  {
    if !(1 <= limit <= MAX_PAGE) {
      return None;
    }
    var found := FindBelow(gen, q, limit, cursor);
    r := Some(PageOf(found, limit));
    EnoughForAPage(found, Below(FullLog(gen, q), cursor), limit);
  }

  lemma {:induction false} EnoughForAPage(found: seq<Raw>, rest: seq<Raw>, limit: nat)
    requires limit >= 1 && found <= rest && (|found| <= limit ==> found == rest)
    ensures PageOf(found, limit) == PageOf(rest, limit)
  {
    if |found| > limit {
      assert found[..limit] == rest[..limit];
    }
  }

  function FetchFrom(log: seq<Raw>, limit: nat): Option<int> -> Page<Raw>
    requires limit >= 1
  {
    cursor => PageOf(Below(log, cursor), limit)
  }

  function PositionIn(log: seq<Raw>): Option<int> -> nat
  {
    cursor => Position(log, cursor)
  }

  lemma {:induction false} PageOfPosition(log: seq<Raw>, c: Option<int>, limit: nat)
    requires Falling(log) && limit >= 1
    ensures var rest, p := Below(log, c), Position(log, c);
            && p <= |log| && rest == log[p..]
            && (|rest| > limit ==> Position(log, Some(rest[limit - 1].id)) == p + limit)
  {
    PositionCuts(log, c);
    var p := Position(log, c);
    if |log| - p > limit {
      var cursor := Some(log[p + limit - 1].id);
      PositionCuts(log, cursor);
      assert !IsBelow(cursor, log[p + limit - 1]) && IsBelow(cursor, log[p + limit]);
    }
  }

  lemma {:induction false} PagesOfFallingLog(log: seq<Raw>, limit: nat)
    requires Falling(log) && limit >= 1
    ensures PagesOf(FetchFrom(log, limit), PositionIn(log), log)
  {
    forall c
      ensures PageIs(FetchFrom(log, limit)(c), PositionIn(log)(c), PositionIn(log), log)
    {
      PageOfPosition(log, c, limit);
    }
  }

  // Cursor by cursor the mock serves its whole filtered log, without gaps or repeats.
  lemma {:induction false} MockPagesTheLog(gen: Generator, q: QueryFilter, limit: nat)
    requires 1 <= limit <= MAX_PAGE
    ensures PagesOf(FetchFrom(FullLog(gen, q), limit), PositionIn(FullLog(gen, q)), FullLog(gen, q))
    ensures forall c :: FetchFrom(FullLog(gen, q), limit)(c) == MockPage(gen, q, limit, c)
  {
    WalkFalls(gen, q, None, LastMinute(q));
    PagesOfFallingLog(FullLog(gen, q), limit);
  }

  // Hence the reading loop of the collector returns exactly the window.
  method ReadMockWindow(gen: Generator, q: QueryFilter) returns (entries: seq<Raw>)
    ensures entries == FullLog(gen, q)
  {
    MockPagesTheLog(gen, q, MAX_PAGE);
    entries := ReadWindow(FetchFrom(FullLog(gen, q), MAX_PAGE), PositionIn(FullLog(gen, q)), FullLog(gen, q));
  }
}
