/**
 The heartbeat strip of the dashboard (dashboard/frontend/src/lib/heartbeat.ts): one pass over the
 recorded openings and recoveries gives a severity to every day. Moments are whole seconds, days are
 numbers of days since the epoch, in UTC.
 */
module Heartbeat {
  datatype Severity = Ok | Warning | Critical | Unknown

  // A null severity of an opening counts as a warning.
  datatype IncidentEvent = IncidentEvent(checkName: string, opening: bool, occurredAt: int, critical: bool)

  datatype HeartbeatDay = HeartbeatDay(date: int, severity: Severity)

  function DayOf(moment: int): int
  {
    moment / 86400
  }

  // Days begin at midnight, UTC.
  lemma {:induction false} DayHolds(moment: int)
    ensures 24 * 3600 * DayOf(moment) <= moment < 24 * 3600 * (DayOf(moment) + 1)
  {
  }

  // ------------------------------------------------------------------------ stable sort

  // x after everything that is not later.
  function Insert(x: IncidentEvent, s: seq<IncidentEvent>): seq<IncidentEvent>
  {
    if s == [] then [x]
    else if s[|s| - 1].occurredAt <= x.occurredAt then s + [x]
    else Insert(x, s[..|s| - 1]) + [s[|s| - 1]]
  }

  function SortByTime(s: seq<IncidentEvent>): (r: seq<IncidentEvent>)
    ensures |r| == |s|
  {
    if s == [] then [] else InsertLength(s[|s| - 1], SortByTime(s[..|s| - 1])); Insert(s[|s| - 1], SortByTime(s[..|s| - 1]))
  }

  lemma {:induction false} InsertLength(x: IncidentEvent, s: seq<IncidentEvent>)
    ensures |Insert(x, s)| == |s| + 1
  {
    if s != [] {
      InsertLength(x, s[..|s| - 1]);
    }
  }

  ghost predicate Sorted(s: seq<IncidentEvent>)
  {
    forall i, j | 0 <= i < j < |s| :: s[i].occurredAt <= s[j].occurredAt
  }

  lemma {:induction false} InsertKeeps(x: IncidentEvent, s: seq<IncidentEvent>)
    ensures multiset(Insert(x, s)) == multiset(s) + multiset{x}
  {
    if s != [] {
      InsertKeeps(x, s[..|s| - 1]);
      assert s == s[..|s| - 1] + [s[|s| - 1]];
    }
  }

  lemma {:induction false} InsertSorts(x: IncidentEvent, s: seq<IncidentEvent>)
    requires Sorted(s)
    ensures Sorted(Insert(x, s))
  {
    if s != [] && s[|s| - 1].occurredAt > x.occurredAt {
      var front := s[..|s| - 1];
      InsertSorts(x, front);
      InsertKeeps(x, front);
      NoneLater(front, x, Insert(x, front), s[|s| - 1].occurredAt);
    }
  }

  lemma {:induction false} NoneLater(s: seq<IncidentEvent>, x: IncidentEvent, t: seq<IncidentEvent>, moment: int)
    requires multiset(t) == multiset(s) + multiset{x} && x.occurredAt <= moment
    requires forall i | 0 <= i < |s| :: s[i].occurredAt <= moment
    ensures forall i | 0 <= i < |t| :: t[i].occurredAt <= moment
  {
    forall i | 0 <= i < |t| ensures t[i].occurredAt <= moment {
      assert t[i] in multiset(t);
      assert t[i] in s || t[i] == x;
    }
  }

  lemma {:induction false} LastJoins(s: seq<IncidentEvent>)
    requires s != []
    ensures multiset(s) == multiset(s[..|s| - 1]) + multiset{s[|s| - 1]}
  {
    assert s == s[..|s| - 1] + [s[|s| - 1]];
  }

  lemma {:induction false} SortByTimeSorts(s: seq<IncidentEvent>)
    ensures Sorted(SortByTime(s)) && multiset(SortByTime(s)) == multiset(s)
  {
    if s != [] {
      var front, last := s[..|s| - 1], s[|s| - 1];
      SortByTimeSorts(front);
      InsertSorts(last, SortByTime(front));
      InsertKeeps(last, SortByTime(front));
      LastJoins(s);
    }
  }

  // ------------------------------------------------------------------------- the sweep

  // The open checks after some events, and their severities.
  function OpenAfter(s: seq<IncidentEvent>): map<string, Severity>
  {
    if s == [] then map[] else Applied(OpenAfter(s[..|s| - 1]), s[|s| - 1])
  }

  function Applied(open: map<string, Severity>, e: IncidentEvent): map<string, Severity>
  {
    if e.opening then open[e.checkName := if e.critical then Critical else Warning] else open - {e.checkName}
  }

  // The number of leading events up to the end of a day.
  function UpTo(s: seq<IncidentEvent>, day: int): (n: nat)
    ensures n <= |s|
    ensures forall i | 0 <= i < n :: DayOf(s[i].occurredAt) <= day
    ensures n < |s| ==> DayOf(s[n].occurredAt) > day
  {
    if s == [] then 0
    else
      var n := UpTo(s[..|s| - 1], day);
      if n == |s| - 1 && DayOf(s[n].occurredAt) <= day then |s| else n
  }

  predicate Shows(open: map<string, Severity>, severity: Severity)
  {
    exists c :: c in open && open[c] == severity
  }

  function SeverityOf(open: map<string, Severity>): Severity
  {
    if open == map[] then Ok else if Shows(open, Critical) then Critical else Warning
  }

  function DaySeverity(sorted: seq<IncidentEvent>, day: int): Severity
  {
    if sorted == [] || day < DayOf(sorted[0].occurredAt) then Unknown
    else SeverityOf(OpenAfter(sorted[..UpTo(sorted, day)]))
  }

  method Sort(events: seq<IncidentEvent>) returns (sorted: seq<IncidentEvent>)
    ensures sorted == SortByTime(events)
  {
    sorted := SortByTime(events);
  }

  // `days` days, the last of them the day of `now`.
  method BuildHeartbeat(events: seq<IncidentEvent>, days: nat, now: int) returns (timeline: seq<HeartbeatDay>)
    ensures |timeline| == days
    ensures forall i | 0 <= i < days ::
              var date := DayOf(now) - (days - 1) + i;
              timeline[i] == HeartbeatDay(date, DaySeverity(SortByTime(events), date))
  {
    timeline := seq(days, i requires 0 <= i < days => HeartbeatDay(DayOf(now) - (days - 1) + i, Unknown));
    var sorted := Sort(events);
    if |sorted| == 0 {
      return;
    }
    var firstEventDay := DayOf(sorted[0].occurredAt);
    var openSeverity: map<string, Severity> := map[];
    var eventIndex := 0;
    for d := 0 to days
      invariant |timeline| == days && eventIndex <= |sorted|
      invariant openSeverity == OpenAfter(sorted[..eventIndex])
      invariant forall k | 0 <= k < eventIndex :: d > 0 && DayOf(sorted[k].occurredAt) <= DayOf(now) - (days - 1) + d - 1
      invariant forall i | 0 <= i < days :: timeline[i].date == DayOf(now) - (days - 1) + i
      invariant forall i | 0 <= i < d :: timeline[i].severity == DaySeverity(sorted, timeline[i].date)
    {
      var date := timeline[d].date;
      eventIndex, openSeverity := Advance(sorted, date, eventIndex, openSeverity);
      EndOfDay(sorted, date, eventIndex);
      var severity :=
        if date < firstEventDay then Unknown
        else if openSeverity == map[] then Ok
        else if Shows(openSeverity, Critical) then Critical
        else Warning;
      timeline := timeline[d := HeartbeatDay(date, severity)];
    }
  }

  // The inner loop: every event up to the end of the day.
  method Advance(sorted: seq<IncidentEvent>, date: int, start: nat, open: map<string, Severity>)
    returns (eventIndex: nat, openSeverity: map<string, Severity>)
    requires start <= |sorted| && open == OpenAfter(sorted[..start])
    requires forall k | 0 <= k < start :: DayOf(sorted[k].occurredAt) <= date
    ensures start <= eventIndex <= |sorted| && openSeverity == OpenAfter(sorted[..eventIndex])
    ensures forall k | 0 <= k < eventIndex :: DayOf(sorted[k].occurredAt) <= date
    ensures eventIndex < |sorted| ==> DayOf(sorted[eventIndex].occurredAt) > date
  {
    eventIndex, openSeverity := start, open;
    while eventIndex < |sorted| && DayOf(sorted[eventIndex].occurredAt) <= date
      invariant start <= eventIndex <= |sorted|
      invariant openSeverity == OpenAfter(sorted[..eventIndex])
      invariant forall k | 0 <= k < eventIndex :: DayOf(sorted[k].occurredAt) <= date
    {
      var event := sorted[eventIndex];
      assert sorted[..eventIndex + 1][..eventIndex] == sorted[..eventIndex];
      if event.opening {
        openSeverity := openSeverity[event.checkName := if event.critical then Critical else Warning];
      } else {
        openSeverity := openSeverity - {event.checkName};
      }
      eventIndex := eventIndex + 1;
    }
  }

  lemma {:induction false} EndOfDay(s: seq<IncidentEvent>, day: int, n: nat)
    requires n <= |s|
    requires forall i | 0 <= i < n :: DayOf(s[i].occurredAt) <= day
    requires n < |s| ==> DayOf(s[n].occurredAt) > day
    ensures UpTo(s, day) == n
  {
  }

  // -------------------------------------------------------------------- what a day means

  // The last event of a check among some events.
  ghost predicate IsLatest(s: seq<IncidentEvent>, check: string, i: int)
  {
    0 <= i < |s| && s[i].checkName == check && forall k | i < k < |s| :: s[k].checkName != check
  }

  // A check is open after some events exactly when its latest event is an opening, with that severity.
  lemma {:induction false} LatestEventDecides(s: seq<IncidentEvent>, check: string)
    ensures check in OpenAfter(s) <==> exists i :: IsLatest(s, check, i) && s[i].opening
    ensures forall i | IsLatest(s, check, i) && s[i].opening ::
              check in OpenAfter(s) && OpenAfter(s)[check] == if s[i].critical then Critical else Warning
  {
    if s != [] {
      var front, n := s[..|s| - 1], |s| - 1;
      LatestEventDecides(front, check);
      assert forall k | 0 <= k < n :: front[k] == s[k];
      if s[n].checkName == check {
        assert IsLatest(s, check, n);
      } else {
        assert forall i | 0 <= i < n :: IsLatest(s, check, i) <==> IsLatest(front, check, i);
      }
    }
  }

  // Among the events up to the end of a day, the latest of some check is an opening.
  ghost predicate OpenAt(s: seq<IncidentEvent>, day: int, check: string, critical: bool)
  {
    exists i :: IsLatest(s[..UpTo(s, day)], check, i) && s[i].opening && s[i].critical == critical
  }

  // From the first event on, a day is critical when the latest event of some check up to its end is a
  // critical opening, a warning when it is only other openings, and ok when it is none.
  lemma {:induction false} DayIsTheLatestOfEachCheck(s: seq<IncidentEvent>, day: int)
    requires s != [] && day >= DayOf(s[0].occurredAt)
    ensures DaySeverity(s, day) != Unknown
    ensures DaySeverity(s, day) == Critical <==> exists check :: OpenAt(s, day, check, true)
    ensures DaySeverity(s, day) == Ok <==> forall check :: !OpenAt(s, day, check, true) && !OpenAt(s, day, check, false)
  {
    var prefix := s[..UpTo(s, day)];
    var open := OpenAfter(prefix);
    forall check: string
      ensures check in open && open[check] == Critical <==> OpenAt(s, day, check, true)
      ensures check in open && open[check] != Critical <==> OpenAt(s, day, check, false)
    {
      LatestEventDecides(prefix, check);
    }
    if Shows(open, Critical) {
      var c :| c in open && open[c] == Critical;
      assert OpenAt(s, day, c, true);
    }
    if open != map[] {
      var c :| c in open;
      assert OpenAt(s, day, c, true) || OpenAt(s, day, c, false);
    }
  }
}
