/**
 From check results to the heartbeat strip: the recorded openings and recoveries of any number of
 checks (cli.py, storage/dashboard.py), listed newest first, and what the strip then shows.
 */
module IncidentLog {
  import opened Monitoring
  import opened Heartbeat

  // One result of one check. The severity of a recorded event is chosen by the caller.
  datatype Observation = Observation(check: string, problem: bool, now: int, critical: bool)

  function HistoryOf(obs: seq<Observation>, check: string): seq<Sample>
  {
    if obs == [] then []
    else
      var front, o := HistoryOf(obs[..|obs| - 1], check), obs[|obs| - 1];
      if o.check == check then front + [Sample(o.problem, o.now)] else front
  }

  // What an observation adds to the log: an event when it opens or recovers an incident.
  function Recorded(before: seq<Observation>, o: Observation, policy: IncidentPolicy): seq<IncidentEvent>
  {
    match LastKind(o.check, HistoryOf(before, o.check) + [Sample(o.problem, o.now)], policy)
    case Opened => [IncidentEvent(o.check, true, o.now, o.critical)]
    case Recovered => [IncidentEvent(o.check, false, o.now, o.critical)]
    case NoTransition | Reminder => []
  }

  function LogOf(obs: seq<Observation>, policy: IncidentPolicy): seq<IncidentEvent>
  {
    if obs == [] then []
    else LogOf(obs[..|obs| - 1], policy) + Recorded(obs[..|obs| - 1], obs[|obs| - 1], policy)
  }

  ghost predicate ClockRises(obs: seq<Observation>)
  {
    forall i, j | 0 <= i < j < |obs| :: obs[i].now <= obs[j].now
  }

  // -------------------------------------------------------------------------- selections

  function Filter<T>(s: seq<T>, p: T -> bool): seq<T>
  {
    if s == [] then []
    else if p(s[|s| - 1]) then Filter(s[..|s| - 1], p) + [s[|s| - 1]]
    else Filter(s[..|s| - 1], p)
  }

  // Newest first, as the store lists the events.
  function NewestFirst(log: seq<IncidentEvent>): seq<IncidentEvent>
  {
    if log == [] then [] else NewestFirst(log[1..]) + [log[0]]
  }

  lemma {:induction false} FilterAppend<T>(s: seq<T>, x: T, p: T -> bool)
    ensures Filter(s + [x], p) == if p(x) then Filter(s, p) + [x] else Filter(s, p)
  {
    assert (s + [x])[..|s|] == s;
  }

  lemma {:induction false} FilterJoin<T>(s: seq<T>, t: seq<T>, p: T -> bool)
    ensures Filter(s + t, p) == Filter(s, p) + Filter(t, p)
  {
    if t == [] {
      assert s + t == s;
    } else {
      assert (s + t)[..|s + t| - 1] == s + t[..|t| - 1];
      FilterJoin(s, t[..|t| - 1], p);
    }
  }

  lemma {:induction false} FilterNewestFirst(log: seq<IncidentEvent>, p: IncidentEvent -> bool)
    ensures Filter(NewestFirst(log), p) == NewestFirst(Filter(log, p))
  {
    if log != [] {
      FilterNewestFirst(log[1..], p);
      FilterAppend(NewestFirst(log[1..]), log[0], p);
      assert log == [log[0]] + log[1..] && [log[0]][..0] == [];
      FilterJoin([log[0]], log[1..], p);
      assert Filter([log[0]], p) == if p(log[0]) then [log[0]] else [];
      if p(log[0]) {
        assert ([log[0]] + Filter(log[1..], p))[1..] == Filter(log[1..], p);
      } else {
        assert [] + Filter(log[1..], p) == Filter(log[1..], p);
      }
    }
  }

  lemma {:induction false} FilterMember<T>(s: seq<T>, p: T -> bool, x: T)
    ensures x in Filter(s, p) <==> x in s && p(x)
  {
    if s != [] {
      FilterMember(s[..|s| - 1], p, x);
      assert s == s[..|s| - 1] + [s[|s| - 1]];
    }
  }

  lemma {:induction false} FilterSorted(s: seq<IncidentEvent>, p: IncidentEvent -> bool)
    requires Sorted(s)
    ensures Sorted(Filter(s, p))
  {
    if s != [] {
      var front, last := s[..|s| - 1], s[|s| - 1];
      FilterSorted(front, p);
      forall i | 0 <= i < |Filter(front, p)| ensures Filter(front, p)[i].occurredAt <= last.occurredAt {
        FilterMember(front, p, Filter(front, p)[i]);
      }
    }
  }

  lemma {:induction false} FilterInsert(x: IncidentEvent, s: seq<IncidentEvent>, p: IncidentEvent -> bool)
    requires Sorted(s)
    ensures Filter(Insert(x, s), p) == if p(x) then Insert(x, Filter(s, p)) else Filter(s, p)
  {
    if s == [] {
      FilterAppend([], x, p);
      assert [] + [x] == [x];
    } else if s[|s| - 1].occurredAt <= x.occurredAt {
      FilterAppend(s, x, p);
      InsertLast(x, Filter(s, p), p, s);
    } else {
      var front, last := s[..|s| - 1], s[|s| - 1];
      FilterInsert(x, front, p);
      FilterAppend(Insert(x, front), last, p);
      InsertBefore(x, Filter(front, p), last);
    }
  }

  lemma {:induction false} InsertBefore(x: IncidentEvent, t: seq<IncidentEvent>, last: IncidentEvent)
    requires last.occurredAt > x.occurredAt
    ensures Insert(x, t + [last]) == Insert(x, t) + [last]
  {
    assert (t + [last])[..|t|] == t;
  }

  lemma {:induction false} InsertLast(x: IncidentEvent, t: seq<IncidentEvent>, p: IncidentEvent -> bool, s: seq<IncidentEvent>)
    requires t == Filter(s, p) && forall i | 0 <= i < |s| :: s[i].occurredAt <= x.occurredAt
    ensures Insert(x, t) == t + [x]
  {
    if t != [] {
      FilterMember(s, p, t[|t| - 1]);
    }
  }

  // Sorting a selection is selecting from the sorted.
  lemma {:induction false} FilterSort(s: seq<IncidentEvent>, p: IncidentEvent -> bool)
    ensures Filter(SortByTime(s), p) == SortByTime(Filter(s, p))
  {
    if s != [] {
      var front, last := s[..|s| - 1], s[|s| - 1];
      FilterSort(front, p);
      SortByTimeSorts(front);
      FilterInsert(last, SortByTime(front), p);
      SortLast(Filter(front, p), last);
    }
  }

  lemma {:induction false} SortLast(t: seq<IncidentEvent>, last: IncidentEvent)
    ensures SortByTime(t + [last]) == Insert(last, SortByTime(t))
  {
    assert (t + [last])[..|t|] == t;
  }

  // --------------------------------------------------------------------------- one check

  function UpToDay(day: int): IncidentEvent -> bool
  {
    (e: IncidentEvent) => DayOf(e.occurredAt) <= day
  }

  function OfCheck(check: string): IncidentEvent -> bool
  {
    (e: IncidentEvent) => e.checkName == check
  }

  function Both<T>(p: T -> bool, q: T -> bool): T -> bool
  {
    (x: T) => p(x) && q(x)
  }

  lemma {:induction false} FilterTwice<T>(s: seq<T>, p: T -> bool, q: T -> bool)
    ensures Filter(Filter(s, p), q) == Filter(s, Both(p, q))
  {
    if s != [] {
      FilterTwice(s[..|s| - 1], p, q);
      if p(s[|s| - 1]) {
        FilterAppend(Filter(s[..|s| - 1], p), s[|s| - 1], q);
      }
    }
  }

  // Whether a check is open after some events depends only on its last one.
  lemma {:induction false} OpenIsLastOfCheck(s: seq<IncidentEvent>, check: string)
    ensures var own := Filter(s, OfCheck(check));
            check in OpenAfter(s) <==> own != [] && own[|own| - 1].opening
  {
    if s != [] {
      OpenIsLastOfCheck(s[..|s| - 1], check);
    }
  }

  // The prefix of a sorted list up to a day is the selection of its events up to that day.
  lemma {:induction false} PrefixIsSelection(s: seq<IncidentEvent>, day: int)
    requires Sorted(s)
    ensures s[..UpTo(s, day)] == Filter(s, UpToDay(day))
  {
    if s != [] {
      var front, last := s[..|s| - 1], s[|s| - 1];
      PrefixIsSelection(front, day);
      if DayOf(last.occurredAt) <= day {
        assert forall i | 0 <= i < |front| :: DayOf(front[i].occurredAt) <= day;
        assert UpTo(front, day) == |front|;
      } else {
        assert s[..UpTo(s, day)] == front[..UpTo(front, day)];
      }
    }
  }

  // The strip shows a check as open at the end of a day.
  ghost predicate ShownOpen(events: seq<IncidentEvent>, day: int, check: string)
  {
    var sorted := SortByTime(events);
    check in OpenAfter(sorted[..UpTo(sorted, day)])
  }

  // The events of a check up to a day, oldest first.
  function Own(log: seq<IncidentEvent>, day: int, check: string): seq<IncidentEvent>
  {
    Filter(log, Both(UpToDay(day), OfCheck(check)))
  }

  // The first of the events that share the moment of the last.
  function FirstOfLastTie(own: seq<IncidentEvent>): IncidentEvent
    requires own != []
  {
    if |own| > 1 && own[0].occurredAt != own[|own| - 1].occurredAt then FirstOfLastTie(own[1..]) else own[0]
  }

  lemma {:induction false} LastOfSorted(own: seq<IncidentEvent>)
    requires own != [] && Sorted(own)
    ensures var sorted := SortByTime(NewestFirst(own));
            sorted != [] && sorted[|sorted| - 1] == FirstOfLastTie(own)
    ensures FirstOfLastTie(own).occurredAt == own[|own| - 1].occurredAt
  {
    var rest := own[1..];
    var newest := NewestFirst(own);
    assert newest == NewestFirst(rest) + [own[0]];
    assert newest[..|newest| - 1] == NewestFirst(rest);
    assert SortByTime(newest) == Insert(own[0], SortByTime(NewestFirst(rest)));
    if rest != [] {
      LastOfSorted(rest);
    }
  }

  // The strip takes, for every check, the first of the events tied at its latest moment.
  lemma {:induction false} ShownIsFirstOfTie(log: seq<IncidentEvent>, day: int, check: string)
    requires Sorted(log)
    ensures var own := Own(log, day, check);
            ShownOpen(NewestFirst(log), day, check) <==> own != [] && FirstOfLastTie(own).opening
  {
    var sorted := SortByTime(NewestFirst(log));
    SortByTimeSorts(NewestFirst(log));
    PrefixIsSelection(sorted, day);
    var prefix := Filter(sorted, UpToDay(day));
    OpenIsLastOfCheck(prefix, check);
    FilterTwice(sorted, UpToDay(day), OfCheck(check));
    FilterSort(NewestFirst(log), Both(UpToDay(day), OfCheck(check)));
    FilterNewestFirst(log, Both(UpToDay(day), OfCheck(check)));
    var own := Own(log, day, check);
    FilterSorted(log, Both(UpToDay(day), OfCheck(check)));
    if own != [] {
      LastOfSorted(own);
    }
  }

  // ------------------------------------------------------------------- the log of the checks

  // The log opens and recovers each check exactly when its incident does.
  lemma {:induction false} LogFollowsIncidents(obs: seq<Observation>, policy: IncidentPolicy, check: string)
    ensures check in OpenAfter(LogOf(obs, policy)) <==> IsOpen(After(check, HistoryOf(obs, check), policy))
  {
    if obs != [] {
      var front, o := obs[..|obs| - 1], obs[|obs| - 1];
      LogFollowsIncidents(front, policy, check);
      LastRecorded(LogOf(front, policy), front, o, policy, check);
      HistoryStep(front, o, obs, policy, check);
    }
  }

  lemma {:induction false} LastRecorded(
    log: seq<IncidentEvent>, before: seq<Observation>, o: Observation, policy: IncidentPolicy, check: string)
    ensures var next := OpenAfter(log + Recorded(before, o, policy));
            var kind := LastKind(o.check, HistoryOf(before, o.check) + [Sample(o.problem, o.now)], policy);
            check in next <==>
              if o.check == check && kind == Opened then true
              else if o.check == check && kind == Recovered then false
              else check in OpenAfter(log)
  {
    var e := Recorded(before, o, policy);
    if e == [] {
      assert log + e == log;
    } else {
      assert (log + e)[..|log|] == log;
    }
  }

  lemma {:induction false} HistoryStep(
    before: seq<Observation>, o: Observation, obs: seq<Observation>, policy: IncidentPolicy, check: string)
    requires obs != [] && before == obs[..|obs| - 1] && o == obs[|obs| - 1]
    ensures var was := IsOpen(After(check, HistoryOf(before, check), policy));
            var kind := LastKind(o.check, HistoryOf(before, o.check) + [Sample(o.problem, o.now)], policy);
            IsOpen(After(check, HistoryOf(obs, check), policy)) <==>
              if o.check == check && kind == Opened then true
              else if o.check == check && kind == Recovered then false
              else was
  {
    if o.check == check {
      var h, s := HistoryOf(before, check), Sample(o.problem, o.now);
      assert (h + [s])[..|h + [s]| - 1] == h;
    }
  }

  function TakenUpTo(day: int): Observation -> bool
  {
    (o: Observation) => DayOf(o.now) <= day
  }

  lemma {:induction false} AllTaken<T>(s: seq<T>, p: T -> bool)
    requires forall x | x in s :: p(x)
    ensures Filter(s, p) == s
  {
    if s != [] {
      AllTaken(s[..|s| - 1], p);
    }
  }

  lemma {:induction false} LogRises(obs: seq<Observation>, policy: IncidentPolicy)
    requires ClockRises(obs)
    ensures forall e | e in LogOf(obs, policy) :: e.occurredAt <= obs[|obs| - 1].now
    ensures Sorted(LogOf(obs, policy))
  {
    if obs != [] {
      var front, o := obs[..|obs| - 1], obs[|obs| - 1];
      LogRises(front, policy);
      RecordedNow(front, o, policy);
      var log := LogOf(front, policy);
      forall i | 0 <= i < |log| ensures log[i].occurredAt <= o.now {
        assert log[i] in log;
      }
    }
  }

  lemma {:induction false} RecordedNow(before: seq<Observation>, o: Observation, policy: IncidentPolicy)
    ensures |Recorded(before, o, policy)| <= 1
    ensures forall e | e in Recorded(before, o, policy) :: e.occurredAt == o.now
  {
  }

  lemma {:induction false} FilterRecorded(e: seq<IncidentEvent>, now: int, day: int)
    requires |e| <= 1 && forall x | x in e :: x.occurredAt == now
    ensures Filter(e, UpToDay(day)) == if DayOf(now) <= day then e else []
  {
    assert e != [] ==> e[..0] == [] && e[0] in e && e == [e[0]];
  }

  // The log up to a day is the log of the observations up to that day.
  lemma {:induction false} LogUpToDay(obs: seq<Observation>, policy: IncidentPolicy, day: int)
    requires ClockRises(obs)
    ensures Filter(LogOf(obs, policy), UpToDay(day)) == LogOf(Filter(obs, TakenUpTo(day)), policy)
  {
    if obs != [] {
      var front, o := obs[..|obs| - 1], obs[|obs| - 1];
      if DayOf(o.now) <= day {
        LogRises(obs, policy);
        AllTaken(obs, TakenUpTo(day));
        AllTaken(LogOf(obs, policy), UpToDay(day));
      } else {
        LogUpToDay(front, policy, day);
        RecordedNow(front, o, policy);
        FilterRecorded(Recorded(front, o, policy), o.now, day);
        FilterJoin(LogOf(front, policy), Recorded(front, o, policy), UpToDay(day));
      }
    }
  }

  // The incident of a check is open at the end of a day.
  ghost predicate OpenAtEnd(obs: seq<Observation>, policy: IncidentPolicy, day: int, check: string)
  {
    IsOpen(After(check, HistoryOf(Filter(obs, TakenUpTo(day)), check), policy))
  }

  lemma {:induction false} OpenAtEndIsLast(obs: seq<Observation>, policy: IncidentPolicy, day: int, check: string)
    requires ClockRises(obs)
    ensures var own := Own(LogOf(obs, policy), day, check);
            OpenAtEnd(obs, policy, day, check) <==> own != [] && own[|own| - 1].opening
  {
    var log := LogOf(obs, policy);
    LogUpToDay(obs, policy, day);
    LogFollowsIncidents(Filter(obs, TakenUpTo(day)), policy, check);
    OpenIsLastOfCheck(Filter(log, UpToDay(day)), check);
    FilterTwice(log, UpToDay(day), OfCheck(check));
  }

  // For one check, the strip is right about a day exactly when the first and the last of the events
  // tied at its latest moment agree. Listed newest first and sorted stably, ties come out reversed.
  lemma {:induction false} StripIsRightIffTiesAgree(obs: seq<Observation>, policy: IncidentPolicy, day: int, check: string)
    requires ClockRises(obs)
    ensures var own := Own(LogOf(obs, policy), day, check);
            (ShownOpen(NewestFirst(LogOf(obs, policy)), day, check) <==> OpenAtEnd(obs, policy, day, check)) <==>
            (own == [] || FirstOfLastTie(own).opening == own[|own| - 1].opening)
  {
    LogRises(obs, policy);
    ShownIsFirstOfTie(LogOf(obs, policy), day, check);
    OpenAtEndIsLast(obs, policy, day, check);
  }

  // An incident opened and recovered in the same second keeps being shown as open.
  lemma {:induction false} TiedRecoveryIsNotShown(check: string, now: int)
    ensures var policy := IncidentPolicy(1, 1, 0.0);
            var obs := [Observation(check, true, now, false), Observation(check, false, now, false)];
            ClockRises(obs)
            && ShownOpen(NewestFirst(LogOf(obs, policy)), DayOf(now), check)
            && !OpenAtEnd(obs, policy, DayOf(now), check)
  {
    var policy := IncidentPolicy(1, 1, 0.0);
    var obs := [Observation(check, true, now, false), Observation(check, false, now, false)];
    TiedLog(check, now);
    ShownIsFirstOfTie(LogOf(obs, policy), DayOf(now), check);
    OpenAtEndIsLast(obs, policy, DayOf(now), check);
  }

  lemma {:induction false} TiedLog(check: string, now: int)
    ensures var obs := [Observation(check, true, now, false), Observation(check, false, now, false)];
            var log := [IncidentEvent(check, true, now, false), IncidentEvent(check, false, now, false)];
            LogOf(obs, IncidentPolicy(1, 1, 0.0)) == log && Own(log, DayOf(now), check) == log
  {
    var policy := IncidentPolicy(1, 1, 0.0);
    var a, b := Observation(check, true, now, false), Observation(check, false, now, false);
    var first, second := IncidentEvent(check, true, now, false), IncidentEvent(check, false, now, false);
    assert [a, b][..1] == [a] && [a][..0] == [] && [first, second][..1] == [first] && [first][..0] == [];
    assert HistoryOf([a], check) == [Sample(true, now)];
    assert [Sample(true, now)][..0] == [] && ([Sample(true, now)] + [Sample(false, now)])[..1] == [Sample(true, now)];
    assert LogOf([a], policy) == [first];
    assert LogOf([a, b], policy) == [first] + [second];
    var p := Both(UpToDay(DayOf(now)), OfCheck(check));
    assert p(first) && p(second);
    FilterAppend([], first, p);
    FilterAppend([first], second, p);
    assert [] + [first] == [first];
  }

  // ----------------------------------------------------------------------- whole days

  // No two recorded events share a moment.
  ghost predicate NoTies(log: seq<IncidentEvent>)
  {
    forall i, j | 0 <= i < j < |log| :: log[i].occurredAt != log[j].occurredAt
  }

  lemma {:induction false} FilterKeepsDistinct(s: seq<IncidentEvent>, p: IncidentEvent -> bool)
    requires NoTies(s)
    ensures NoTies(Filter(s, p))
  {
    if s != [] {
      var front, last := s[..|s| - 1], s[|s| - 1];
      FilterKeepsDistinct(front, p);
      forall i | 0 <= i < |Filter(front, p)| ensures Filter(front, p)[i].occurredAt != last.occurredAt {
        FilterMember(front, p, Filter(front, p)[i]);
      }
    }
  }

  lemma {:induction false} NoTieIsLast(own: seq<IncidentEvent>)
    requires own != [] && NoTies(own)
    ensures FirstOfLastTie(own) == own[|own| - 1]
  {
    if |own| > 1 {
      NoTieIsLast(own[1..]);
    }
  }

  lemma {:induction false} ShownIffOpen(obs: seq<Observation>, policy: IncidentPolicy, day: int, check: string)
    requires ClockRises(obs) && NoTies(LogOf(obs, policy))
    ensures ShownOpen(NewestFirst(LogOf(obs, policy)), day, check) <==> OpenAtEnd(obs, policy, day, check)
  {
    StripIsRightIffTiesAgree(obs, policy, day, check);
    FilterKeepsDistinct(LogOf(obs, policy), Both(UpToDay(day), OfCheck(check)));
    var own := Own(LogOf(obs, policy), day, check);
    if own != [] {
      NoTieIsLast(own);
    }
  }

  lemma {:induction false} NewestFirstKeeps(log: seq<IncidentEvent>)
    ensures multiset(NewestFirst(log)) == multiset(log)
  {
    if log != [] {
      NewestFirstKeeps(log[1..]);
      assert log == [log[0]] + log[1..];
    }
  }

  lemma {:induction false} FirstDay(log: seq<IncidentEvent>)
    requires log != []
    ensures var sorted := SortByTime(NewestFirst(log));
            sorted != [] && sorted[0].occurredAt <= log[0].occurredAt
  {
    var sorted := SortByTime(NewestFirst(log));
    SortByTimeSorts(NewestFirst(log));
    NewestFirstKeeps(log);
    assert log[0] in multiset(log);
    assert log[0] in sorted;
  }

  // From the first recorded event on, when no two events share a moment, a day is not ok exactly when
  // the incident of some check was open at its end.
  lemma {:induction false} DayIsOkIffNothingIsOpen(obs: seq<Observation>, policy: IncidentPolicy, day: int)
    requires ClockRises(obs) && NoTies(LogOf(obs, policy)) && LogOf(obs, policy) != []
    requires day >= DayOf(LogOf(obs, policy)[0].occurredAt)
    ensures DaySeverity(SortByTime(NewestFirst(LogOf(obs, policy))), day) != Ok <==>
            exists check :: OpenAtEnd(obs, policy, day, check)
  {
    var sorted := SortByTime(NewestFirst(LogOf(obs, policy)));
    FirstDay(LogOf(obs, policy));
    var open := OpenAfter(sorted[..UpTo(sorted, day)]);
    forall check: string
      ensures check in open <==> OpenAtEnd(obs, policy, day, check)
    {
      ShownIffOpen(obs, policy, day, check);
    }
    if open != map[] {
      var check :| check in open;
      assert OpenAtEnd(obs, policy, day, check);
    }
  }
}
