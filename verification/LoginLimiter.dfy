/**
 The login rate limiter (core/auth.py, LoginRateLimiter): queues that drop what has left the window
 decide as the full list of failures since the last reset would. Moments are whole seconds.
 */
module LoginLimiter {
  // ------------------------------------------------------------------------ specification

  // The queue without its leading moments that have left the window.
  function Popped(moments: seq<int>, now: int, window: int): seq<int>
  {
    if moments != [] && now - moments[0] >= window then Popped(moments[1..], now, window) else moments
  }

  function Queue(failures: map<string, seq<int>>, key: string): seq<int>
  {
    if key in failures then failures[key] else []
  }

  function Pruned(failures: map<string, seq<int>>, key: string, now: int, window: int): map<string, seq<int>>
  {
    var queue := Popped(Queue(failures, key), now, window);
    if key !in failures then failures else if queue == [] then failures - {key} else failures[key := queue]
  }

  function Recorded(failures: map<string, seq<int>>, key: string, now: int, window: int): map<string, seq<int>>
  {
    var pruned := Pruned(failures, key, now, window);
    pruned[key := Queue(pruned, key) + [now]]
  }

  class LoginRateLimiter {
    const maxFailures: int
    const window: int
    var failures: map<string, seq<int>>

    constructor (maxFailures: int, window: int)
      ensures this.maxFailures == maxFailures && this.window == window && failures == map[]
    {
      this.maxFailures, this.window, failures := maxFailures, window, map[];
    }

    method Recent(key: string, now: int) returns (n: nat)
      modifies this
      ensures failures == Pruned(old(failures), key, now, window)
      ensures n == |Queue(failures, key)|
    {
      if key !in failures {
        return 0;
      }
      var queue := failures[key];
      while queue != [] && now - queue[0] >= window
        invariant Popped(queue, now, window) == Popped(failures[key], now, window)
        decreases |queue|
      {
        queue := queue[1..];
      }
      if queue == [] {
        failures := failures - {key};
      } else {
        failures := failures[key := queue];
      }
      return |queue|;
    }

    method IsLocked(key: string, now: int) returns (locked: bool)
      modifies this
      ensures failures == Pruned(old(failures), key, now, window)
      ensures locked <==> |Queue(failures, key)| >= maxFailures
    {
      var n := Recent(key, now);
      return n >= maxFailures;
    }

    method RecordFailure(key: string, now: int)
      modifies this
      ensures failures == Recorded(old(failures), key, now, window)
    {
      var n := Recent(key, now);
      failures := failures[key := Queue(failures, key) + [now]];
    }

    method Reset(key: string)
      modifies this
      ensures failures == old(failures) - {key}
    {
      failures := failures - {key};
    }
  }

  // -------------------------------------------------------------------------- histories

  datatype Event = Checked(key: string, now: int) | Failed(key: string, now: int) | Cleared(key: string)

  function StateAfter(events: seq<Event>, window: int): map<string, seq<int>>
  {
    if events == [] then map[]
    else
      var m := StateAfter(events[..|events| - 1], window);
      match events[|events| - 1]
      case Checked(key, now) => Pruned(m, key, now, window)
      case Failed(key, now) => Recorded(m, key, now, window)
      case Cleared(key) => m - {key}
  }

  // What is_locked answers after a history.
  predicate Locked(events: seq<Event>, key: string, now: int, maxFailures: int, window: int)
  {
    |Queue(Pruned(StateAfter(events, window), key, now, window), key)| >= maxFailures
  }

  function FailuresSinceReset(events: seq<Event>, key: string): seq<int>
  {
    if events == [] then []
    else
      var earlier, last := FailuresSinceReset(events[..|events| - 1], key), events[|events| - 1];
      if last.key != key then earlier
      else if last.Failed? then earlier + [last.now]
      else if last.Cleared? then []
      else earlier
  }

  // The moments still inside the window.
  function Young(moments: seq<int>, now: int, window: int): seq<int>
  {
    if moments == [] then []
    else
      Young(moments[..|moments| - 1], now, window)
      + (if now - moments[|moments| - 1] < window then [moments[|moments| - 1]] else [])
  }

  // Clock readings never go back, and none is later than `now`.
  ghost predicate ClockUpTo(events: seq<Event>, now: int)
  {
    && (forall i | 0 <= i < |events| && !events[i].Cleared? :: events[i].now <= now)
    && (forall i, j | 0 <= i < j < |events| && !events[i].Cleared? && !events[j].Cleared? :: events[i].now <= events[j].now)
  }

  ghost predicate Rising(moments: seq<int>, now: int)
  {
    && (forall i | 0 <= i < |moments| :: moments[i] <= now)
    && (forall i, j | 0 <= i < j < |moments| :: moments[i] <= moments[j])
  }

  lemma {:induction false} YoungJoin(a: seq<int>, b: seq<int>, now: int, window: int)
    ensures Young(a + b, now, window) == Young(a, now, window) + Young(b, now, window)
  {
    if b == [] {
      assert a + b == a;
    } else {
      assert (a + b)[..|a + b| - 1] == a + b[..|b| - 1];
      YoungJoin(a, b[..|b| - 1], now, window);
    }
  }

  lemma {:induction false} AllYoung(moments: seq<int>, now: int, window: int)
    requires forall i | 0 <= i < |moments| :: now - moments[i] < window
    ensures Young(moments, now, window) == moments
  {
    if moments != [] {
      AllYoung(moments[..|moments| - 1], now, window);
    }
  }

  lemma {:induction false} OldFront(moments: seq<int>, now: int, window: int)
    requires moments != [] && now - moments[0] >= window
    ensures Young(moments, now, window) == Young(moments[1..], now, window)
  {
    var first := [moments[0]];
    assert moments == first + moments[1..];
    assert first[..0] == [] && Young(first, now, window) == [];
    YoungJoin(first, moments[1..], now, window);
  }

  // On a rising queue, popping the old front leaves exactly the young moments.
  lemma {:induction false} PoppedIsYoung(moments: seq<int>, now: int, window: int)
    requires Rising(moments, now)
    ensures Popped(moments, now, window) == Young(moments, now, window)
    decreases |moments|
  {
    if moments != [] {
      if now - moments[0] >= window {
        PoppedIsYoung(moments[1..], now, window);
        OldFront(moments, now, window);
      } else {
        AllYoung(moments, now, window);
      }
    }
  }

  lemma {:induction false} YoungTwice(moments: seq<int>, before: int, now: int, window: int)
    requires before <= now
    ensures Young(Young(moments, before, window), now, window) == Young(moments, now, window)
  {
    if moments != [] {
      var front, last := moments[..|moments| - 1], moments[|moments| - 1];
      YoungTwice(front, before, now, window);
      YoungJoin(Young(front, before, window), if before - last < window then [last] else [], now, window);
      assert [last][..0] == [];
      assert Young([last], now, window) == if now - last < window then [last] else [];
    }
  }

  lemma {:induction false} YoungRises(moments: seq<int>, before: int, now: int, window: int)
    requires Rising(moments, now)
    ensures Rising(Young(moments, before, window), now)
    ensures forall t | t in Young(moments, before, window) :: t in moments
  {
    if moments != [] {
      var front, last := moments[..|moments| - 1], moments[|moments| - 1];
      YoungRises(front, before, now, window);
      assert moments == front + [last];
      var young := Young(front, before, window);
      forall i | 0 <= i < |young| ensures young[i] <= last {
        assert young[i] in front;
        var k :| 0 <= k < |front| && front[k] == young[i];
        assert moments[k] == young[i];
      }
    }
  }

  // The queue of a key is the full list of its failures since the last reset, less what a decision
  // at `now` or later would not count anyway.
  ghost predicate Fits(queue: seq<int>, full: seq<int>, now: int, window: int)
  {
    && Rising(queue, now)
    && (forall later | later >= now :: Young(queue, later, window) == Young(full, later, window))
  }

  lemma {:induction false} PrunedFits(queue: seq<int>, full: seq<int>, before: int, now: int, window: int)
    requires Fits(queue, full, before, window) && before <= now
    ensures Fits(queue, full, now, window)
    ensures Fits(Popped(queue, now, window), full, now, window)
    ensures Popped(queue, now, window) == Young(full, now, window)
  {
    PoppedIsYoung(queue, now, window);
    YoungRises(queue, now, now, window);
    forall later | later >= now
      ensures Young(Popped(queue, now, window), later, window) == Young(full, later, window)
    {
      YoungTwice(queue, now, later, window);
    }
  }

  lemma {:induction false} RecordedFits(queue: seq<int>, full: seq<int>, now: int, window: int)
    requires Fits(queue, full, now, window)
    ensures Fits(queue + [now], full + [now], now, window)
  {
    forall later | later >= now
      ensures Young(queue + [now], later, window) == Young(full + [now], later, window)
    {
      YoungJoin(queue, [now], later, window);
      YoungJoin(full, [now], later, window);
    }
  }

  lemma {:induction false} QueueFits(events: seq<Event>, key: string, now: int, window: int)
    requires ClockUpTo(events, now)
    ensures Fits(Queue(StateAfter(events, window), key), FailuresSinceReset(events, key), now, window)
  {
    if events != [] {
      var front, last := events[..|events| - 1], events[|events| - 1];
      var queue, full := Queue(StateAfter(front, window), key), FailuresSinceReset(front, key);
      assert events == front + [last];
      var at := if last.Cleared? then now else last.now;
      QueueFits(front, key, at, window);
      PrunedFits(queue, full, at, at, window);
      RecordedFits(Popped(queue, at, window), full, at, window);
      LastEvent(StateAfter(front, window), last, key, window, queue);
      PrunedFits(Queue(StateAfter(events, window), key), FailuresSinceReset(events, key), at, now, window);
    }
  }

  // What an event does to the queue of a key.
  lemma {:induction false} LastEvent(m: map<string, seq<int>>, e: Event, key: string, window: int, queue: seq<int>)
    requires queue == Queue(m, key)
    ensures e.Checked? ==>
              Queue(Pruned(m, e.key, e.now, window), key) == if e.key == key then Popped(queue, e.now, window) else queue
    ensures e.Failed? ==>
              Queue(Recorded(m, e.key, e.now, window), key) ==
              if e.key == key then Popped(queue, e.now, window) + [e.now] else queue
    ensures e.Cleared? ==> Queue(m - {e.key}, key) == if e.key == key then [] else queue
  {
  }

  // With a clock that never goes back, a key is locked exactly when at least max_failures failures
  // since its last reset are younger than the window.
  lemma {:induction false} LockedIffEnoughYoungFailures(events: seq<Event>, key: string, now: int, maxFailures: int, window: int)
    requires ClockUpTo(events, now)
    ensures Locked(events, key, now, maxFailures, window) <==>
            |Young(FailuresSinceReset(events, key), now, window)| >= maxFailures
  {
    QueueFits(events, key, now, window);
    var m := StateAfter(events, window);
    PrunedFits(Queue(m, key), FailuresSinceReset(events, key), now, now, window);
    LastEvent(m, Checked(key, now), key, window, Queue(m, key));
  }

  // No empty queue is kept.
  lemma {:induction false} NoEmptyQueues(events: seq<Event>, window: int)
    ensures forall key | key in StateAfter(events, window) :: StateAfter(events, window)[key] != []
  {
    if events != [] {
      NoEmptyQueues(events[..|events| - 1], window);
    }
  }
}
