/**
 The anti-spam decision of the notifier (core/notify.py): its trimmed state decides exactly as a scan
 of everything ever sent would. Moments are whole seconds.
 */
module Notify {
  import opened Wrappers

  // None means no limit.
  datatype AntiSpamPolicy = AntiSpamPolicy(cooldownSeconds: Option<real>, rateLimitPerHour: Option<int>)

  datatype AntiSpamState = AntiSpamState(lastSentAt: map<string, int>, sentWithinHour: seq<int>)

  const HOUR := 3600

  function Since(moments: seq<int>, windowStart: int): seq<int>
  {
    if moments == [] then []
    else
      Since(moments[..|moments| - 1], windowStart)
      + (if moments[|moments| - 1] > windowStart then [moments[|moments| - 1]] else [])
  }

  predicate CoolingDown(last: Option<int>, policy: AntiSpamPolicy, now: int)
  {
    policy.cooldownSeconds.Some? && last.Some? && (now - last.value) as real < policy.cooldownSeconds.value
  }

  function LastSent(state: AntiSpamState, key: string): Option<int>
  {
    if key in state.lastSentAt then Some(state.lastSentAt[key]) else None
  }

  function ShouldSend(state: AntiSpamState, key: string, policy: AntiSpamPolicy, now: int): (AntiSpamState, bool)
  {
    if CoolingDown(LastSent(state, key), policy, now) then (state, false)
    else
      var recent := Since(state.sentWithinHour, now - HOUR);
      if policy.rateLimitPerHour.Some? && |recent| >= policy.rateLimitPerHour.value then
        (state.(sentWithinHour := recent), false)
      else (AntiSpamState(state.lastSentAt[key := now], recent + [now]), true)
  }

  // -------------------------------------------------------------------------- histories

  datatype Attempt = Attempt(key: string, now: int)

  const NOTHING_SENT := AntiSpamState(map[], [])

  function StateAfter(attempts: seq<Attempt>, policy: AntiSpamPolicy): AntiSpamState
  {
    if attempts == [] then NOTHING_SENT
    else
      var a := attempts[|attempts| - 1];
      ShouldSend(StateAfter(attempts[..|attempts| - 1], policy), a.key, policy, a.now).0
  }

  function Allows(attempts: seq<Attempt>, policy: AntiSpamPolicy, a: Attempt): bool
  {
    ShouldSend(StateAfter(attempts, policy), a.key, policy, a.now).1
  }

  // Everything ever sent, in order.
  function Sent(attempts: seq<Attempt>, policy: AntiSpamPolicy): seq<Attempt>
  {
    if attempts == [] then []
    else
      var front, a := attempts[..|attempts| - 1], attempts[|attempts| - 1];
      Sent(front, policy) + (if Allows(front, policy, a) then [a] else [])
  }

  function Moments(sent: seq<Attempt>): seq<int>
  {
    seq(|sent|, i requires 0 <= i < |sent| => sent[i].now)
  }

  ghost predicate ClockNeverGoesBack(attempts: seq<Attempt>)
  {
    forall i, j | 0 <= i <= j < |attempts| :: attempts[i].now <= attempts[j].now
  }

  // The decision over the full history: no send of the same key within the cooldown, and fewer sends
  // than the limit in the last hour.
  ghost predicate FullScanAllows(sent: seq<Attempt>, policy: AntiSpamPolicy, a: Attempt)
  {
    && (policy.cooldownSeconds.Some? ==>
          forall s | s in sent && s.key == a.key :: (a.now - s.now) as real >= policy.cooldownSeconds.value)
    && (policy.rateLimitPerHour.Some? ==> |Since(Moments(sent), a.now - HOUR)| < policy.rateLimitPerHour.value)
  }

  // What the trimmed state keeps of the sends: the latest of each key, and those not yet an hour old
  // at the last decision.
  ghost predicate Trimmed(state: AntiSpamState, sent: seq<Attempt>, now: int)
  {
    && KeepsLatest(state.lastSentAt, sent)
    && KeepsLastHour(state.sentWithinHour, sent, now)
    && (forall s | s in sent :: s.now <= now)
  }

  ghost predicate KeepsLatest(lastSentAt: map<string, int>, sent: seq<Attempt>)
  {
    && (forall s | s in sent :: s.key in lastSentAt && s.now <= lastSentAt[s.key])
    && (forall k | k in lastSentAt :: Attempt(k, lastSentAt[k]) in sent)
  }

  ghost predicate KeepsLastHour(kept: seq<int>, sent: seq<Attempt>, now: int)
  {
    forall start | start >= now - HOUR :: Since(kept, start) == Since(Moments(sent), start)
  }

  lemma {:induction false} SinceTwice(moments: seq<int>, a: int, b: int)
    requires a <= b
    ensures Since(Since(moments, a), b) == Since(moments, b)
  {
    if moments != [] {
      var front, last := moments[..|moments| - 1], moments[|moments| - 1];
      SinceTwice(front, a, b);
      if last > a {
        assert (Since(front, a) + [last])[..|Since(front, a)|] == Since(front, a);
      } else {
        assert Since(moments, a) == Since(front, a);
      }
    }
  }

  lemma {:induction false} SinceAppend(moments: seq<int>, t: int, start: int)
    ensures Since(moments + [t], start) == Since(moments, start) + (if t > start then [t] else [])
  {
    assert (moments + [t])[..|moments|] == moments;
  }

  lemma {:induction false} MomentsAppend(sent: seq<Attempt>, a: Attempt)
    ensures Moments(sent + [a]) == Moments(sent) + [a.now]
  {
  }

  lemma {:induction false} TrimmedDecides(
    state: AntiSpamState, sent: seq<Attempt>, before: int, policy: AntiSpamPolicy, a: Attempt)
    requires Trimmed(state, sent, before) && before <= a.now
    ensures ShouldSend(state, a.key, policy, a.now).1 <==> FullScanAllows(sent, policy, a)
  {
    assert Since(state.sentWithinHour, a.now - HOUR) == Since(Moments(sent), a.now - HOUR);
    if policy.cooldownSeconds.Some? {
      assert a.key in state.lastSentAt ==> Attempt(a.key, state.lastSentAt[a.key]) in sent;
    }
  }

  lemma {:induction false} StaysTrimmed(
    state: AntiSpamState, sent: seq<Attempt>, before: int, policy: AntiSpamPolicy, a: Attempt)
    requires Trimmed(state, sent, before) && before <= a.now
    ensures var (next, allowed) := ShouldSend(state, a.key, policy, a.now);
            Trimmed(next, sent + (if allowed then [a] else []), a.now)
  {
    TrimsTheHour(state.sentWithinHour, sent, before, a);
    LatestOfKey(state.lastSentAt, sent, before, a);
    assert sent + [] == sent;
  }

  lemma {:induction false} TrimsTheHour(kept: seq<int>, sent: seq<Attempt>, before: int, a: Attempt)
    requires KeepsLastHour(kept, sent, before) && before <= a.now
    ensures KeepsLastHour(kept, sent, a.now)
    ensures KeepsLastHour(Since(kept, a.now - HOUR), sent, a.now)
    ensures KeepsLastHour(Since(kept, a.now - HOUR) + [a.now], sent + [a], a.now)
  {
    MomentsAppend(sent, a);
    forall start | start >= a.now - HOUR
      ensures Since(Since(kept, a.now - HOUR), start) == Since(Moments(sent), start)
      ensures Since(Since(kept, a.now - HOUR) + [a.now], start) == Since(Moments(sent + [a]), start)
    {
      SinceTwice(kept, a.now - HOUR, start);
      SinceAppend(Since(kept, a.now - HOUR), a.now, start);
      SinceAppend(Moments(sent), a.now, start);
    }
  }

  lemma {:induction false} LatestOfKey(lastSentAt: map<string, int>, sent: seq<Attempt>, before: int, a: Attempt)
    requires KeepsLatest(lastSentAt, sent) && before <= a.now && forall s | s in sent :: s.now <= before
    ensures KeepsLatest(lastSentAt[a.key := a.now], sent + [a])
  {
    assert a in sent + [a];
  }

  lemma {:induction false} StateIsTrimmed(attempts: seq<Attempt>, policy: AntiSpamPolicy)
    requires ClockNeverGoesBack(attempts) && attempts != []
    ensures Trimmed(StateAfter(attempts, policy), Sent(attempts, policy), attempts[|attempts| - 1].now)
  {
    var front, a := attempts[..|attempts| - 1], attempts[|attempts| - 1];
    if front == [] {
      assert Trimmed(NOTHING_SENT, [], a.now);
      StaysTrimmed(NOTHING_SENT, [], a.now, policy, a);
    } else {
      StateIsTrimmed(front, policy);
      StaysTrimmed(StateAfter(front, policy), Sent(front, policy), front[|front| - 1].now, policy, a);
    }
  }

  // With a clock that never goes back, the trimmed state decides as the full history does.
  lemma {:induction false} DecidesAsTheFullHistory(attempts: seq<Attempt>, policy: AntiSpamPolicy, a: Attempt)
    requires ClockNeverGoesBack(attempts + [a])
    ensures Allows(attempts, policy, a) <==> FullScanAllows(Sent(attempts, policy), policy, a)
  {
    if attempts == [] {
      assert Trimmed(NOTHING_SENT, [], a.now);
      TrimmedDecides(NOTHING_SENT, [], a.now, policy, a);
    } else {
      var all := attempts + [a];
      assert forall i | 0 <= i < |attempts| :: all[i] == attempts[i];
      assert all[|attempts|] == a;
      StateIsTrimmed(attempts, policy);
      TrimmedDecides(StateAfter(attempts, policy), Sent(attempts, policy), attempts[|attempts| - 1].now, policy, a);
    }
  }

  // ------------------------------------------------------------------------ consequences

  // Two sends of the same key are never closer than the cooldown.
  lemma {:induction false} SameKeySendsAreApart(attempts: seq<Attempt>, policy: AntiSpamPolicy, i: nat, j: nat)
    requires ClockNeverGoesBack(attempts) && policy.cooldownSeconds.Some?
    requires i < j < |Sent(attempts, policy)| && Sent(attempts, policy)[i].key == Sent(attempts, policy)[j].key
    ensures (Sent(attempts, policy)[j].now - Sent(attempts, policy)[i].now) as real >= policy.cooldownSeconds.value
  {
    var front, a := attempts[..|attempts| - 1], attempts[|attempts| - 1];
    assert attempts == front + [a];
    if j < |Sent(front, policy)| {
      SameKeySendsAreApart(front, policy, i, j);
    } else {
      DecidesAsTheFullHistory(front, policy, a);
      assert Sent(front, policy)[i] in Sent(front, policy);
    }
  }

  function InWindow(sent: seq<Attempt>, x: int): nat
  {
    if sent == [] then 0
    else
      InWindow(sent[..|sent| - 1], x)
      + (if x < sent[|sent| - 1].now <= x + 3600 then 1 else 0)
  }

  lemma {:induction false} WindowWithinSince(sent: seq<Attempt>, x: int, start: int)
    requires start <= x
    ensures InWindow(sent, x) <= |Since(Moments(sent), start)|
  {
    if sent != [] {
      WindowWithinSince(sent[..|sent| - 1], x, start);
      assert Moments(sent)[..|sent| - 1] == Moments(sent[..|sent| - 1]);
    }
  }

  // No window (x, x + 1 h] ever holds more sends than the limit.
  lemma {:induction false} NoHourExceedsTheLimit(attempts: seq<Attempt>, policy: AntiSpamPolicy, x: int)
    requires ClockNeverGoesBack(attempts) && policy.rateLimitPerHour.Some? && policy.rateLimitPerHour.value >= 0
    ensures InWindow(Sent(attempts, policy), x) <= policy.rateLimitPerHour.value
  {
    if attempts != [] {
      var front, a := attempts[..|attempts| - 1], attempts[|attempts| - 1];
      assert attempts == front + [a];
      NoHourExceedsTheLimit(front, policy, x);
      if Allows(front, policy, a) {
        var sent := Sent(front, policy);
        assert (sent + [a])[..|sent|] == sent;
        DecidesAsTheFullHistory(front, policy, a);
        if x < a.now <= x + HOUR {
          WindowWithinSince(sent, x, a.now - HOUR);
        }
      } else {
        assert Sent(attempts, policy) == Sent(front, policy);
      }
    }
  }
}
