/**
 Debounced incidents (core/monitoring.py): one step of the state machine, and what the small state it
 keeps says about the whole history of a check. Moments are whole seconds.
 */
module Monitoring {
  import opened Wrappers

  datatype IncidentState = StateOk | StateSuspect | StateIncident | StateRecovering

  datatype TransitionKind = NoTransition | Opened | Reminder | Recovered

  datatype CheckResult = CheckResult(name: string, problem: bool)

  datatype IncidentPolicy = IncidentPolicy(incidentAfter: int, recoveredAfter: int, cooldownSeconds: real)

  // The bounds the policy model enforces on its fields.
  predicate IsPolicy(p: IncidentPolicy)
  {
    p.incidentAfter >= 1 && p.recoveredAfter >= 1 && p.cooldownSeconds >= 0.0
  }

  datatype Incident = Incident(
    checkName: string, state: IncidentState, consecutiveProblem: int, consecutiveOk: int,
    openedAt: Option<int>, lastChangeAt: Option<int>, lastNotifiedAt: Option<int>)

  function NewIncident(name: string): Incident
  {
    Incident(name, StateOk, 0, 0, None, None, None)
  }

  predicate ReminderDue(i: Incident, policy: IncidentPolicy, now: int)
  {
    && policy.cooldownSeconds > 0.0 && i.lastNotifiedAt.Some?
    && (now - i.lastNotifiedAt.value) as real >= policy.cooldownSeconds
  }

  function OnProblem(previous: Incident, policy: IncidentPolicy, now: int): (Incident, TransitionKind)
  {
    var streak := previous.consecutiveProblem + 1;
    match previous.state
    case StateOk | StateSuspect =>
      if streak >= policy.incidentAfter then
        (Incident(previous.checkName, StateIncident, streak, 0, Some(now), Some(now), Some(now)), Opened)
      else
        (Incident(previous.checkName, StateSuspect, streak, 0, None, Some(now), previous.lastNotifiedAt), NoTransition)
    case StateIncident =>
      var stillOpen := previous.(consecutiveProblem := streak, consecutiveOk := 0, lastChangeAt := Some(now));
      if ReminderDue(previous, policy, now) then (stillOpen.(lastNotifiedAt := Some(now)), Reminder)
      else (stillOpen, NoTransition)
    case StateRecovering =>
      (Incident(previous.checkName, StateIncident, streak, 0, previous.openedAt, Some(now), previous.lastNotifiedAt),
       NoTransition)
  }

  function OnOk(previous: Incident, policy: IncidentPolicy, now: int): (Incident, TransitionKind)
  {
    if previous.state.StateOk? || previous.state.StateSuspect? then (NewIncident(previous.checkName), NoTransition)
    else
      var streak := previous.consecutiveOk + 1;
      if streak >= policy.recoveredAfter then
        (Incident(previous.checkName, StateOk, 0, 0, None, Some(now), Some(now)), Recovered)
      else
        (previous.(state := StateRecovering, consecutiveOk := streak, consecutiveProblem := 0, lastChangeAt := Some(now)),
         NoTransition)
  }

  // None: the result belongs to another check.
  function AdvanceIncident(previous: Incident, result: CheckResult, policy: IncidentPolicy, now: int)
    : Option<(Incident, TransitionKind)>
  {
    if result.name != previous.checkName then None
    else Some(if result.problem then OnProblem(previous, policy, now) else OnOk(previous, policy, now))
  }

  // -------------------------------------------------------------------------- histories

  // One result of the check, and when it came in.
  datatype Sample = Sample(problem: bool, now: int)

  function Advanced(previous: Incident, s: Sample, policy: IncidentPolicy): (Incident, TransitionKind)
  {
    AdvanceIncident(previous, CheckResult(previous.checkName, s.problem), policy, s.now).value
  }

  // The incident after a whole history.
  function After(name: string, h: seq<Sample>, policy: IncidentPolicy): Incident
  {
    if h == [] then NewIncident(name)
    else Advanced(After(name, h[..|h| - 1], policy), h[|h| - 1], policy).0
  }

  // The transition the last result of a history fires.
  function LastKind(name: string, h: seq<Sample>, policy: IncidentPolicy): TransitionKind
    requires h != []
  {
    Advanced(After(name, h[..|h| - 1], policy), h[|h| - 1], policy).1
  }

  function KindAt(name: string, h: seq<Sample>, i: nat, policy: IncidentPolicy): TransitionKind
    requires i < |h|
  {
    LastKind(name, h[..i + 1], policy)
  }

  predicate IsOpen(i: Incident)
  {
    i.state.StateIncident? || i.state.StateRecovering?
  }

  // n results in a row from i on.
  predicate RunAt(h: seq<Sample>, i: int, n: int, problem: bool)
  {
    0 <= i && i + n <= |h| && forall k | i <= k < i + n :: h[k].problem == problem
  }

  // Some run of problems long enough to open is not followed by a run of OKs long enough to recover.
  ghost predicate ShouldBeOpen(h: seq<Sample>, policy: IncidentPolicy)
  {
    exists i :: RunAt(h, i, policy.incidentAfter, true) && NoRecoveryFrom(h, i + policy.incidentAfter, policy)
  }

  ghost predicate NoRecoveryFrom(h: seq<Sample>, from: int, policy: IncidentPolicy)
  {
    forall k | from <= k :: !RunAt(h, k, policy.recoveredAfter, false)
  }

  function Trailing(h: seq<Sample>, problem: bool): nat
  {
    if h != [] && h[|h| - 1].problem == problem then Trailing(h[..|h| - 1], problem) + 1 else 0
  }

  lemma {:induction false} TrailingIsRun(h: seq<Sample>, problem: bool, n: nat)
    ensures Trailing(h, problem) <= |h|
    ensures n <= Trailing(h, problem) <==> RunAt(h, |h| - n, n, problem)
  {
    if h != [] && n > 0 {
      var front := h[..|h| - 1];
      TrailingIsRun(front, problem, n - 1);
      if RunAt(h, |h| - n, n, problem) {
        assert h[|h| - 1].problem == problem;
        assert RunAt(front, |front| - (n - 1), n - 1, problem);
      }
      if n <= Trailing(h, problem) {
        assert RunAt(front, |front| - (n - 1), n - 1, problem);
        forall k | |h| - n <= k < |h|
          ensures h[k].problem == problem
        {
          assert k < |front| ==> front[k] == h[k];
        }
      }
    }
    if h != [] {
      TrailingIsRun(h[..|h| - 1], problem, 0);
    }
  }

  lemma {:induction false} RunInFront(h: seq<Sample>, i: int, n: int, problem: bool)
    requires h != [] && i + n < |h|
    ensures RunAt(h, i, n, problem) <==> RunAt(h[..|h| - 1], i, n, problem)
  {
    var front := h[..|h| - 1];
    assert forall k | 0 <= k < |front| :: front[k] == h[k];
  }

  // How one more problem changes what should be.
  lemma {:induction false} ProblemShould(h: seq<Sample>, policy: IncidentPolicy)
    requires IsPolicy(policy) && h != [] && h[|h| - 1].problem
    ensures ShouldBeOpen(h, policy) <==>
            ShouldBeOpen(h[..|h| - 1], policy) || Trailing(h, true) >= policy.incidentAfter
  {
    var front, a := h[..|h| - 1], policy.incidentAfter;
    TrailingIsRun(h, true, a);
    if ShouldBeOpen(h, policy) {
      var i :| RunAt(h, i, a, true) && NoRecoveryFrom(h, i + a, policy);
      if i + a < |h| {
        RunInFront(h, i, a, true);
        forall k | i + a <= k ensures !RunAt(front, k, policy.recoveredAfter, false) {
          if k + policy.recoveredAfter < |h| {
            RunInFront(h, k, policy.recoveredAfter, false);
          }
        }
        assert NoRecoveryFrom(front, i + a, policy);
      }
    }
    if ShouldBeOpen(front, policy) {
      var i :| RunAt(front, i, a, true) && NoRecoveryFrom(front, i + a, policy);
      RunInFront(h, i, a, true);
      forall k | i + a <= k ensures !RunAt(h, k, policy.recoveredAfter, false) {
        if k + policy.recoveredAfter < |h| {
          RunInFront(h, k, policy.recoveredAfter, false);
        }
      }
      assert NoRecoveryFrom(h, i + a, policy);
    }
    if Trailing(h, true) >= a {
      assert NoRecoveryFrom(h, |h| - a + a, policy);
    }
  }

  // How one more OK changes it.
  lemma {:induction false} OkShould(h: seq<Sample>, policy: IncidentPolicy)
    requires IsPolicy(policy) && h != [] && !h[|h| - 1].problem
    ensures ShouldBeOpen(h, policy) <==>
            ShouldBeOpen(h[..|h| - 1], policy) && Trailing(h, false) < policy.recoveredAfter
  {
    var front, a, n := h[..|h| - 1], policy.incidentAfter, policy.recoveredAfter;
    TrailingIsRun(h, false, n);
    if ShouldBeOpen(h, policy) {
      var i :| RunAt(h, i, a, true) && NoRecoveryFrom(h, i + a, policy);
      assert h[i + a - 1].problem;
      RunInFront(h, i, a, true);
      forall k | i + a <= k ensures !RunAt(front, k, n, false) {
        if k + n < |h| {
          RunInFront(h, k, n, false);
        }
      }
      assert NoRecoveryFrom(front, i + a, policy);
      assert !RunAt(h, |h| - n, n, false);
    }
    if ShouldBeOpen(front, policy) && Trailing(h, false) < n {
      var i :| RunAt(front, i, a, true) && NoRecoveryFrom(front, i + a, policy);
      RunInFront(h, i, a, true);
      forall k | i + a <= k ensures !RunAt(h, k, n, false) {
        if k + n < |h| {
          RunInFront(h, k, n, false);
        }
      }
      assert NoRecoveryFrom(h, i + a, policy);
    }
  }

  // The state kept for a check says exactly this about its history.
  ghost predicate Remembers(i: Incident, h: seq<Sample>, policy: IncidentPolicy)
  {
    && (IsOpen(i) <==> ShouldBeOpen(h, policy))
    && i.consecutiveProblem == Trailing(h, true)
    && (i.state.StateOk? ==> i.consecutiveProblem == 0)
    && (i.state.StateSuspect? ==> 0 < i.consecutiveProblem)
    && (!IsOpen(i) ==> i.consecutiveProblem < policy.incidentAfter)
    && (IsOpen(i) ==> i.consecutiveOk == Trailing(h, false) < policy.recoveredAfter)
    && (i.state.StateIncident? ==> 0 < i.consecutiveProblem)
    && (i.state.StateRecovering? ==> 0 < i.consecutiveOk)
  }

  // The incident is open exactly when some run of enough problems was not followed by a run of enough
  // OKs, whatever happened in between; the counters are the runs at the end of the history.
  lemma {:induction false} OpenIffConfirmedAndNotRecovered(name: string, h: seq<Sample>, policy: IncidentPolicy)
    requires IsPolicy(policy)
    ensures Remembers(After(name, h, policy), h, policy)
  {
    if h != [] {
      OpenIffConfirmedAndNotRecovered(name, h[..|h| - 1], policy);
      if h[|h| - 1].problem {
        ProblemShould(h, policy);
      } else {
        OkShould(h, policy);
      }
    } else {
      assert !ShouldBeOpen(h, policy);
    }
  }

  // ---------------------------------------------------------------------------- notices

  function Notices(name: string, h: seq<Sample>, policy: IncidentPolicy, kind: TransitionKind): nat
  {
    if h == [] then 0
    else Notices(name, h[..|h| - 1], policy, kind) + (if LastKind(name, h, policy) == kind then 1 else 0)
  }

  // OPENED and RECOVERED alternate, OPENED first: at every moment there is one more OPENED while the
  // incident is open, and as many of both while it is not.
  lemma {:induction false} NoticesAlternate(name: string, h: seq<Sample>, policy: IncidentPolicy)
    ensures Notices(name, h, policy, Opened) ==
            Notices(name, h, policy, Recovered) + (if IsOpen(After(name, h, policy)) then 1 else 0)
  {
    if h != [] {
      NoticesAlternate(name, h[..|h| - 1], policy);
    }
  }

  // The moment of the last notice of one of two kinds.
  function LastOf(name: string, h: seq<Sample>, policy: IncidentPolicy, a: TransitionKind, b: TransitionKind): Option<int>
  {
    if h == [] then None
    else if LastKind(name, h, policy) == a || LastKind(name, h, policy) == b then Some(h[|h| - 1].now)
    else LastOf(name, h[..|h| - 1], policy, a, b)
  }

  // While an incident is open, opened_at is the moment of its OPENED, through every relapse; and
  // last_notified_at the moment of its last OPENED or REMINDER.
  lemma {:induction false} OpenIncidentKeepsItsDates(name: string, h: seq<Sample>, policy: IncidentPolicy)
    requires IsOpen(After(name, h, policy))
    ensures After(name, h, policy).openedAt.Some?
    ensures After(name, h, policy).openedAt == LastOf(name, h, policy, Opened, Opened)
    ensures After(name, h, policy).lastNotifiedAt == LastOf(name, h, policy, Opened, Reminder)
  {
    var front := h[..|h| - 1];
    if IsOpen(After(name, front, policy)) {
      OpenIncidentKeepsItsDates(name, front, policy);
    }
  }

  ghost predicate ClockNeverGoesBack(h: seq<Sample>)
  {
    forall i, j | 0 <= i <= j < |h| :: h[i].now <= h[j].now
  }

  lemma {:induction false} LastOfIsLatest(name: string, h: seq<Sample>, policy: IncidentPolicy, i: nat)
    requires ClockNeverGoesBack(h) && i < |h|
    requires KindAt(name, h, i, policy) == Opened || KindAt(name, h, i, policy) == Reminder
    ensures LastOf(name, h, policy, Opened, Reminder).Some?
    ensures LastOf(name, h, policy, Opened, Reminder).value >= h[i].now
  {
    if i == |h| - 1 {
      assert h[..i + 1] == h;
    } else {
      var front := h[..|h| - 1];
      assert front[..i + 1] == h[..i + 1];
      LastOfIsLatest(name, front, policy, i);
    }
  }

  // A reminder comes at least the cooldown after every earlier OPENED or REMINDER, and never without
  // a cooldown.
  lemma {:induction false} RemindersRespectTheCooldown(name: string, h: seq<Sample>, policy: IncidentPolicy, i: nat, j: nat)
    requires ClockNeverGoesBack(h) && i < j < |h|
    requires KindAt(name, h, i, policy) == Opened || KindAt(name, h, i, policy) == Reminder
    requires KindAt(name, h, j, policy) == Reminder
    ensures policy.cooldownSeconds > 0.0
    ensures (h[j].now - h[i].now) as real >= policy.cooldownSeconds
  {
    var before := h[..j];
    assert h[..j + 1][..j] == before && before[..i + 1] == h[..i + 1];
    OpenIncidentKeepsItsDates(name, before, policy);
    LastOfIsLatest(name, before, policy, i);
  }

  // ------------------------------------------------------------------ when a notice is sent

  // Only a result of the check itself advances its incident.
  lemma {:induction false} AdvancesIff(previous: Incident, result: CheckResult, policy: IncidentPolicy, now: int)
    ensures var next := AdvanceIncident(previous, result, policy, now);
            && (next.Some? <==> result.name == previous.checkName)
            && (next.Some? ==> next == Some(Advanced(previous, Sample(result.problem, now), policy)))
            && (next.Some? ==> next.value.0.checkName == previous.checkName)
  {
  }

  // OPENED is sent when the incident opens and RECOVERED when it closes, and at no other moment.
  lemma {:induction false} NoticedIff(name: string, h: seq<Sample>, policy: IncidentPolicy)
    requires h != []
    ensures var was, now_is := IsOpen(After(name, h[..|h| - 1], policy)), IsOpen(After(name, h, policy));
            && (LastKind(name, h, policy) == Opened <==> !was && now_is)
            && (LastKind(name, h, policy) == Recovered <==> was && !now_is)
  {
  }

  // A reminder is sent exactly for a problem right after a problem of an open incident, when there is a
  // cooldown and it has passed since the last OPENED or REMINDER.
  lemma {:induction false} RemindedIff(name: string, h: seq<Sample>, policy: IncidentPolicy)
    requires IsPolicy(policy) && |h| > 1
    ensures var front := h[..|h| - 1];
            var last := LastOf(name, front, policy, Opened, Reminder);
            LastKind(name, h, policy) == Reminder <==>
            && ShouldBeOpen(front, policy) && front[|front| - 1].problem && h[|h| - 1].problem
            && policy.cooldownSeconds > 0.0
            && last.Some? && (h[|h| - 1].now - last.value) as real >= policy.cooldownSeconds
  {
    var front := h[..|h| - 1];
    OpenIffConfirmedAndNotRecovered(name, front, policy);
    if IsOpen(After(name, front, policy)) {
      OpenIncidentKeepsItsDates(name, front, policy);
    }
  }

  // The other fields: nothing is kept of a check that is quiet; otherwise the moment of the last result, and
  // opened_at only while the incident is open.
  lemma {:induction false} FieldsAre(name: string, h: seq<Sample>, policy: IncidentPolicy)
    requires IsPolicy(policy) && h != []
    ensures var i := After(name, h, policy);
            && i.checkName == name
            && (i.state.StateOk? && LastKind(name, h, policy) != Recovered ==>
                  i == Incident(name, StateOk, 0, 0, None, None, None))
            && (LastKind(name, h, policy) == Recovered ==> i.consecutiveProblem == 0 && i.consecutiveOk == 0)
            && (!i.state.StateOk? || LastKind(name, h, policy) == Recovered ==> i.lastChangeAt == Some(h[|h| - 1].now))
            && (!IsOpen(i) ==> i.openedAt == None)
            && (LastKind(name, h, policy) == Recovered ==> i.lastNotifiedAt == Some(h[|h| - 1].now))
  {
    NameStays(name, h[..|h| - 1], policy);
  }

  lemma {:induction false} NameStays(name: string, h: seq<Sample>, policy: IncidentPolicy)
    ensures After(name, h, policy).checkName == name
  {
    if h != [] {
      NameStays(name, h[..|h| - 1], policy);
    }
  }

  // Between confirmed states a check is suspected while problems come in, and recovering while OKs do.
  lemma {:induction false} StateIs(name: string, h: seq<Sample>, policy: IncidentPolicy)
    requires IsPolicy(policy) && h != []
    ensures var i := After(name, h, policy);
            && (i.state.StateOk? <==> !IsOpen(i) && !h[|h| - 1].problem)
            && (i.state.StateSuspect? <==> !IsOpen(i) && h[|h| - 1].problem)
            && (i.state.StateIncident? <==> IsOpen(i) && h[|h| - 1].problem)
            && (i.state.StateRecovering? <==> IsOpen(i) && !h[|h| - 1].problem)
  {
    OpenIffConfirmedAndNotRecovered(name, h, policy);
  }
}
