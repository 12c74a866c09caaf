/**
 Paging of the Pi-hole adapter (query_log in providers/pihole_v6.py): an offset cursor over the
 list the server holds for one window, with the outcome filtered on the client.
 */
module PiholeQueryLog {
  import opened Wrappers
  import opened Metrics
  import opened Paging

  const MAX_PAGE := 1000
  const FETCH_CHUNK: nat := 1000

  predicate Wanted(outcome: Option<QueryOutcome>, e: QueryLogEntry)
  {
    outcome.None? || e.outcome == outcome.value
  }

  // The wanted part of the server's list: the log of the filter.
  function WantedOf(outcome: Option<QueryOutcome>, server: seq<QueryLogEntry>): seq<QueryLogEntry>
  {
    if server == [] then []
    else
      WantedOf(outcome, server[..|server| - 1])
      + (if Wanted(outcome, server[|server| - 1]) then [server[|server| - 1]] else [])
  }

  // The entries of one outcome, or all of them, each as often as the server lists it.
  lemma {:induction false} WantedCounts(outcome: Option<QueryOutcome>, server: seq<QueryLogEntry>, e: QueryLogEntry)
    ensures multiset(WantedOf(outcome, server))[e] ==
            if outcome == None || outcome == Some(e.outcome) then multiset(server)[e] else 0
  {
    if server != [] {
      WantedCounts(outcome, server[..|server| - 1], e);
      assert server == server[..|server| - 1] + [server[|server| - 1]];
    }
  }

  // Scanning item by item from an offset until `need` entries are found or the list ends.
  function Scan(outcome: Option<QueryOutcome>, server: seq<QueryLogEntry>, need: nat, offset: nat)
    : (r: (seq<QueryLogEntry>, nat))
    decreases |server| - offset
  {
    if need == 0 || offset >= |server| then ([], offset)
    else if Wanted(outcome, server[offset]) then
      var rest := Scan(outcome, server, need - 1, offset + 1);
      ([server[offset]] + rest.0, rest.1)
    else Scan(outcome, server, need, offset + 1)
  }

  function PiholePage(outcome: Option<QueryOutcome>, server: seq<QueryLogEntry>, limit: nat, cursor: Option<int>)
    : Page<QueryLogEntry>
  {
    var start: nat := if cursor.Some? && cursor.value > 0 then cursor.value else 0;
    var r := Scan(outcome, server, limit, start);
    Page(r.0, if r.1 >= |server| then None else Some(r.1))
  }

  // One request: the next chunk of the list.
  function Chunk(server: seq<QueryLogEntry>, start: nat): seq<QueryLogEntry>
  {
    if start >= |server| then []
    else if start + FETCH_CHUNK >= |server| then server[start..]
    else server[start..start + FETCH_CHUNK]
  }

  // None where the limit or the cursor is refused.
  method QueryLog(outcome: Option<QueryOutcome>, server: seq<QueryLogEntry>, limit: int, cursor: Option<int>)
    returns (r: Option<Page<QueryLogEntry>>)
    ensures r == if 1 <= limit <= 1000 && (cursor.Some? ==> cursor.value >= 0)
                 then Some(PiholePage(outcome, server, limit, cursor)) else None
  {
    if !(1 <= limit <= MAX_PAGE) {
      return None;
    }
    if cursor.Some? && cursor.value < 0 {
      return None;
    }
    var start: nat := if cursor.Some? then cursor.value else 0;
    var found: seq<QueryLogEntry> := [];
    var offset := start;
    var totalMatching: Option<nat> := None;
    while |found| < limit
      invariant start <= offset && |found| <= limit
      invariant totalMatching.Some? ==> totalMatching.value == |server|
      invariant totalMatching.None? ==> offset == start && found == []
      invariant Continues(Scan(outcome, server, limit, start), found, Scan(outcome, server, limit - |found|, offset))
      decreases if totalMatching.None? then 1 else 0, if offset < |server| then |server| - offset else 0
    {
      if totalMatching.Some? && offset >= totalMatching.value {
        break;
      }
      var raw := Chunk(server, offset);
      totalMatching := Some(|server|);
      if raw == [] {
        break;
      }
      found, offset := TakeChunk(outcome, server, raw, limit, start, found, offset);
    }
    assert found + [] == found;
    var exhausted := totalMatching.Some? && offset >= totalMatching.value;
    return Some(Page(found, if exhausted then None else Some(offset)));
  }

  ghost predicate Continues(
    whole: (seq<QueryLogEntry>, nat), found: seq<QueryLogEntry>, rest: (seq<QueryLogEntry>, nat))
  {
    whole.0 == found + rest.0 && whole.1 == rest.1
  }

  // The inner loop over one chunk.
  method TakeChunk(
    outcome: Option<QueryOutcome>, server: seq<QueryLogEntry>, raw: seq<QueryLogEntry>, limit: nat, ghost start: nat,
    before: seq<QueryLogEntry>, from: nat)
    returns (found: seq<QueryLogEntry>, offset: nat)
    requires raw == Chunk(server, from) && raw != [] && |before| < limit
    requires Continues(Scan(outcome, server, limit, start), before, Scan(outcome, server, limit - |before|, from))
    ensures from < offset <= |server| && |found| <= limit
    ensures Continues(Scan(outcome, server, limit, start), found, Scan(outcome, server, limit - |found|, offset))
  {
    found, offset := before, from;
    for i := 0 to |raw|
      invariant offset == from + i && |found| < limit
      invariant Continues(Scan(outcome, server, limit, start), found, Scan(outcome, server, limit - |found|, offset))
    {
      offset := offset + 1;
      if Wanted(outcome, raw[i]) {
        found := found + [raw[i]];
      }
      if |found| >= limit {
        return;
      }
    }
  }

  // ------------------------------------------------------------------------- correctness

  function CountWanted(outcome: Option<QueryOutcome>, server: seq<QueryLogEntry>, offset: nat): nat
  {
    |WantedOf(outcome, if offset <= |server| then server[..offset] else server)|
  }

  lemma {:induction false} WantedOfPrefix(outcome: Option<QueryOutcome>, server: seq<QueryLogEntry>, offset: nat)
    requires offset <= |server|
    ensures WantedOf(outcome, server[..offset]) <= WantedOf(outcome, server)
    decreases |server| - offset
  {
    if offset < |server| {
      WantedOfPrefix(outcome, server, offset + 1);
      assert server[..offset + 1][..offset] == server[..offset];
    } else {
      assert server[..offset] == server;
    }
  }

  // A scan reads the wanted entries between its two offsets; it stops at the end or with `need`.
  lemma {:induction false} ScanReads(outcome: Option<QueryOutcome>, server: seq<QueryLogEntry>, need: nat, offset: nat)
    requires offset <= |server|
    ensures var r := Scan(outcome, server, need, offset);
            && offset <= r.1 <= |server|
            && WantedOf(outcome, server[..offset]) + r.0 == WantedOf(outcome, server[..r.1])
            && (r.1 < |server| ==> |r.0| == need)
    decreases |server| - offset
  {
    if need > 0 && offset < |server| {
      var before, e := WantedOf(outcome, server[..offset]), server[offset];
      OneMoreWanted(outcome, server, offset);
      if Wanted(outcome, e) {
        ScanReads(outcome, server, need - 1, offset + 1);
        var rest := Scan(outcome, server, need - 1, offset + 1);
        JoinOne(before, e, rest.0);
        assert Scan(outcome, server, need, offset) == ([e] + rest.0, rest.1);
      } else {
        ScanReads(outcome, server, need, offset + 1);
        assert before + [] == before;
      }
    } else {
      assert WantedOf(outcome, server[..offset]) + [] == WantedOf(outcome, server[..offset]);
    }
  }

  lemma {:induction false} JoinOne(before: seq<QueryLogEntry>, e: QueryLogEntry, rest: seq<QueryLogEntry>)
    ensures before + ([e] + rest) == before + [e] + rest
  {
  }

  lemma {:induction false} OneMoreWanted(outcome: Option<QueryOutcome>, server: seq<QueryLogEntry>, offset: nat)
    requires offset < |server|
    ensures WantedOf(outcome, server[..offset + 1]) ==
            WantedOf(outcome, server[..offset]) + (if Wanted(outcome, server[offset]) then [server[offset]] else [])
  {
    assert server[..offset + 1][..offset] == server[..offset];
  }

  function PiholeFetch(outcome: Option<QueryOutcome>, server: seq<QueryLogEntry>, limit: nat): Option<int> -> Page<QueryLogEntry>
  {
    cursor => PiholePage(outcome, server, limit, cursor)
  }

  function StartOf(cursor: Option<int>): nat
  {
    if cursor.Some? && cursor.value > 0 then cursor.value else 0
  }

  function PiholePosition(outcome: Option<QueryOutcome>, server: seq<QueryLogEntry>): Option<int> -> nat
  {
    cursor => CountWanted(outcome, server, StartOf(cursor))
  }

  // Cursor by cursor the adapter serves all wanted entries of a list that does not change.
  lemma {:induction false} PiholePagesTheLog(outcome: Option<QueryOutcome>, server: seq<QueryLogEntry>, limit: nat)
    requires 1 <= limit <= MAX_PAGE
    ensures PagesOf(PiholeFetch(outcome, server, limit), PiholePosition(outcome, server), WantedOf(outcome, server))
  {
    assert server[..0] == [];
    forall c
      ensures PageIs(PiholePage(outcome, server, limit, c), CountWanted(outcome, server, StartOf(c)),
                     PiholePosition(outcome, server), WantedOf(outcome, server))
    {
      PiholePageIs(outcome, server, limit, c);
    }
  }

  lemma {:induction false} PiholePageIs(
    outcome: Option<QueryOutcome>, server: seq<QueryLogEntry>, limit: nat, c: Option<int>)
    requires limit >= 1
    ensures PageIs(PiholePage(outcome, server, limit, c), CountWanted(outcome, server, StartOf(c)),
                   PiholePosition(outcome, server), WantedOf(outcome, server))
  {
    var start := StartOf(c);
    if start <= |server| {
      var r := Scan(outcome, server, limit, start);
      ScanReads(outcome, server, limit, start);
      WantedOfPrefix(outcome, server, r.1);
      assert server[..|server|] == server;
    }
  }

  method ReadPiholeWindow(outcome: Option<QueryOutcome>, server: seq<QueryLogEntry>) returns (entries: seq<QueryLogEntry>)
    ensures entries == WantedOf(outcome, server)
  {
    PiholePagesTheLog(outcome, server, MAX_PAGE);
    entries := ReadWindow(PiholeFetch(outcome, server, MAX_PAGE), PiholePosition(outcome, server), WantedOf(outcome, server));
  }

  // ----------------------------------------------------------------------- window edges

  // Which ends of a window the server counts in: its documentation leaves both open.
  datatype Edges = Edges(startIncluded: bool, endIncluded: bool)

  const HALF_OPEN := Edges(true, false)

  // Exactly one end counts.
  type OneEnd = e: Edges | e.startIncluded != e.endIncluded witness HALF_OPEN

  predicate IsWithin(t: int, since: int, until: int, edges: Edges)
  {
    && (since < t || (edges.startIncluded && t == since))
    && (t < until || (edges.endIncluded && t == until))
  }

  // The list the server holds for a window: the adapter passes both ends on and does not filter the
  // times itself, so the server decides which ends belong to the window.
  function ServerWindow(log: seq<QueryLogEntry>, since: int, until: int, edges: Edges): seq<QueryLogEntry>
  {
    if log == [] then []
    else
      var front, e := ServerWindow(log[..|log| - 1], since, until, edges), log[|log| - 1];
      if IsWithin(e.time, since, until, edges) then front + [e] else front
  }

  function At(log: seq<QueryLogEntry>, time: int): seq<QueryLogEntry>
  {
    if log == [] then []
    else
      var front, e := At(log[..|log| - 1], time), log[|log| - 1];
      if e.time == time then front + [e] else front
  }

  lemma {:induction false} WindowCounts(log: seq<QueryLogEntry>, since: int, until: int, edges: Edges, x: QueryLogEntry)
    ensures multiset(ServerWindow(log, since, until, edges))[x] ==
            if IsWithin(x.time, since, until, edges) then multiset(log)[x] else 0
  {
    if log != [] {
      WindowCounts(log[..|log| - 1], since, until, edges, x);
      assert log == log[..|log| - 1] + [log[|log| - 1]];
    }
  }

  lemma {:induction false} NothingWithin(log: seq<QueryLogEntry>, since: int, until: int, edges: OneEnd)
    requires until <= since
    ensures ServerWindow(log, since, until, edges) == []
  {
    if log != [] {
      NothingWithin(log[..|log| - 1], since, until, edges);
    }
  }

  lemma {:induction false} AtCounts(log: seq<QueryLogEntry>, time: int, x: QueryLogEntry)
    ensures multiset(At(log, time))[x] == if x.time == time then multiset(log)[x] else 0
  {
    if log != [] {
      AtCounts(log[..|log| - 1], time, x);
      assert log == log[..|log| - 1] + [log[|log| - 1]];
    }
  }

  lemma {:induction false} AtHolds(log: seq<QueryLogEntry>, time: int) returns (x: QueryLogEntry)
    requires At(log, time) != []
    ensures x.time == time && multiset(log)[x] > 0 && multiset(At(log, time))[x] > 0
  {
    x := At(log, time)[0];
    assert x in multiset(At(log, time));
    AtCounts(log, time, x);
  }

  // Two adjacent windows against the whole: the entries at their common edge are read twice when the
  // server counts both ends in, and not at all when it leaves both out.
  lemma {:induction false} AdjacentWindows(log: seq<QueryLogEntry>, a: int, b: int, c: int, edges: Edges)
    requires a < b < c
    ensures var parts := multiset(ServerWindow(log, a, b, edges)) + multiset(ServerWindow(log, b, c, edges));
            var whole := multiset(ServerWindow(log, a, c, edges));
            && (edges == Edges(true, true) ==> parts == whole + multiset(At(log, b)))
            && (edges == Edges(false, false) ==> parts + multiset(At(log, b)) == whole)
            && (edges.startIncluded != edges.endIncluded ==> parts == whole)
  {
    forall x: QueryLogEntry
      ensures var parts := multiset(ServerWindow(log, a, b, edges))[x] + multiset(ServerWindow(log, b, c, edges))[x];
              var whole, edge := multiset(ServerWindow(log, a, c, edges))[x], multiset(At(log, b))[x];
              && (edges == Edges(true, true) ==> parts == whole + edge)
              && (edges == Edges(false, false) ==> parts + edge == whole)
              && (edges.startIncluded != edges.endIncluded ==> parts == whole)
    {
      WindowCounts(log, a, b, edges, x);
      WindowCounts(log, b, c, edges, x);
      WindowCounts(log, a, c, edges, x);
      AtCounts(log, b, x);
    }
  }

  // So every entry is read once exactly when the server counts one end in and leaves the other out, or
  // nothing is at the edge.
  lemma {:induction false} ReadsEachEntryOnceIff(log: seq<QueryLogEntry>, a: int, b: int, c: int, edges: Edges)
    requires a < b < c
    ensures multiset(ServerWindow(log, a, b, edges)) + multiset(ServerWindow(log, b, c, edges)) ==
            multiset(ServerWindow(log, a, c, edges))
            <==> edges.startIncluded != edges.endIncluded || At(log, b) == []
  {
    AdjacentWindows(log, a, b, c, edges);
    if edges.startIncluded == edges.endIncluded && At(log, b) != [] {
      var x := AtHolds(log, b);
      WindowCounts(log, a, b, edges, x);
      WindowCounts(log, b, c, edges, x);
      WindowCounts(log, a, c, edges, x);
    }
  }

  // And an answer is the window meant exactly when the server treats each end as meant, or nothing was
  // logged then.
  lemma {:induction false} AnswersTheWindowIff(log: seq<QueryLogEntry>, a: int, b: int, edges: Edges, meant: Edges)
    requires a < b
    ensures multiset(ServerWindow(log, a, b, edges)) == multiset(ServerWindow(log, a, b, meant))
            <==> (edges.startIncluded == meant.startIncluded || At(log, a) == [])
                 && (edges.endIncluded == meant.endIncluded || At(log, b) == [])
  {
    forall x: QueryLogEntry
      ensures (edges.startIncluded == meant.startIncluded || multiset(At(log, a))[x] == 0)
              && (edges.endIncluded == meant.endIncluded || multiset(At(log, b))[x] == 0) ==>
                multiset(ServerWindow(log, a, b, edges))[x] == multiset(ServerWindow(log, a, b, meant))[x]
    {
      WindowCounts(log, a, b, edges, x);
      WindowCounts(log, a, b, meant, x);
      AtCounts(log, a, x);
      AtCounts(log, b, x);
    }
    if edges.startIncluded != meant.startIncluded && At(log, a) != [] {
      var x := AtHolds(log, a);
      WindowCounts(log, a, b, edges, x);
      WindowCounts(log, a, b, meant, x);
    }
    if edges.endIncluded != meant.endIncluded && At(log, b) != [] {
      var x := AtHolds(log, b);
      WindowCounts(log, a, b, edges, x);
      WindowCounts(log, a, b, meant, x);
    }
  }
}
