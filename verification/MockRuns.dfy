/**
 The mock provider as the provider of a collector: what it regenerates for a window is that window of
 one fixed log.
 */
module MockRuns {
  import opened Wrappers
  import opened Metrics
  import opened Collector
  import opened PiholeQueryLog
  import opened ExactlyOnce
  import opened CollectorRuns
  import MockQueryLog

  // How an address is written.
  type Written = MockQueryLog.Address -> string

  function EntryOf(raw: MockQueryLog.Raw, written: Written): QueryLogEntry
  {
    QueryLogEntry(raw.id, raw.second, written(MockQueryLog.AddressOf(raw)), raw.draw.domain, raw.draw.outcome,
                  raw.draw.blockedBy, Some(raw.draw.latencyMs))
  }

  function EntriesOf(raws: seq<MockQueryLog.Raw>, written: Written): seq<QueryLogEntry>
  {
    seq(|raws|, i requires 0 <= i < |raws| => EntryOf(raws[i], written))
  }

  function Unfiltered(since: int, until: int): MockQueryLog.QueryFilter
  {
    MockQueryLog.QueryFilter(since, until, None, None, None)
  }

  // What the mock has to tell about a stretch of time, half-open.
  function MockLog(gen: MockQueryLog.Generator, since: int, until: int, written: Written): seq<QueryLogEntry>
  {
    EntriesOf(MockQueryLog.FullLog(gen, Unfiltered(since, until)), written)
  }

  lemma {:induction false} MockLogTimes(gen: MockQueryLog.Generator, since: int, until: int, written: Written)
    ensures forall i | 0 <= i < |MockLog(gen, since, until, written)| ::
              since <= MockLog(gen, since, until, written)[i].time < until
  {
    var raws := MockQueryLog.FullLog(gen, Unfiltered(since, until));
    forall i | 0 <= i < |raws|
      ensures since <= raws[i].second < until
    {
      assert raws[i] in raws;
      MockQueryLog.FullLogIsExact(gen, Unfiltered(since, until), raws[i]);
    }
  }

  lemma {:induction false} MockLogJoins(gen: MockQueryLog.Generator, a: int, b: int, c: int, written: Written)
    requires a <= b <= c
    ensures MockLog(gen, a, c, written) == MockLog(gen, b, c, written) + MockLog(gen, a, b, written)
  {
    MockQueryLog.AdjacentLogs(gen, Unfiltered(a, c), b);
  }

  lemma {:induction false} WindowOfJoin(x: seq<QueryLogEntry>, y: seq<QueryLogEntry>, since: int, until: int)
    ensures ServerWindow(x + y, since, until, HALF_OPEN) ==
            ServerWindow(x, since, until, HALF_OPEN) + ServerWindow(y, since, until, HALF_OPEN)
  {
    if y == [] {
      assert x + y == x;
    } else {
      assert (x + y)[..|x + y| - 1] == x + y[..|y| - 1];
      WindowOfJoin(x, y[..|y| - 1], since, until);
    }
  }

  lemma {:induction false} WindowOfAll(x: seq<QueryLogEntry>, since: int, until: int)
    requires forall i | 0 <= i < |x| :: since <= x[i].time < until
    ensures ServerWindow(x, since, until, HALF_OPEN) == x
  {
    if x != [] {
      WindowOfAll(x[..|x| - 1], since, until);
    }
  }

  lemma {:induction false} WindowOfNone(x: seq<QueryLogEntry>, since: int, until: int)
    requires forall i | 0 <= i < |x| :: x[i].time < since || x[i].time >= until
    ensures ServerWindow(x, since, until, HALF_OPEN) == []
  {
    if x != [] {
      WindowOfNone(x[..|x| - 1], since, until);
    }
  }

  // What the mock regenerates for a window is that window of its log of any longer stretch.
  lemma {:induction false} MockAnswersItsWindow(
    gen: MockQueryLog.Generator, begin: int, since: int, until: int, end: int, written: Written)
    requires begin <= since <= until <= end
    ensures ServerWindow(MockLog(gen, begin, end, written), since, until, HALF_OPEN) == MockLog(gen, since, until, written)
  {
    var before, window, after :=
      MockLog(gen, begin, since, written), MockLog(gen, since, until, written), MockLog(gen, until, end, written);
    MockLogJoins(gen, begin, since, end, written);
    MockLogJoins(gen, since, until, end, written);
    assert MockLog(gen, begin, end, written) == after + window + before;
    MockLogTimes(gen, begin, since, written);
    MockLogTimes(gen, since, until, written);
    MockLogTimes(gen, until, end, written);
    WindowInside(after, window, before, since, until);
  }

  lemma {:induction false} WindowInside(
    after: seq<QueryLogEntry>, window: seq<QueryLogEntry>, before: seq<QueryLogEntry>, since: int, until: int)
    requires forall i | 0 <= i < |after| :: after[i].time >= until
    requires forall i | 0 <= i < |window| :: since <= window[i].time < until
    requires forall i | 0 <= i < |before| :: before[i].time < since
    ensures ServerWindow(after + window + before, since, until, HALF_OPEN) == window
  {
    WindowOfJoin(after + window, before, since, until);
    WindowOfJoin(after, window, since, until);
    WindowOfNone(after, since, until);
    WindowOfAll(window, since, until);
    WindowOfNone(before, since, until);
    assert [] + window + [] == window;
  }

  // Every poll that read was answered by the mock, for a window between `begin` and `end`.
  ghost predicate AnsweredByMock(
    es: seq<Event>, gen: MockQueryLog.Generator, begin: int, end: int, written: Written, s: Settings)
  {
    es != [] ==>
      && AnsweredByMock(es[..|es| - 1], gen, begin, end, written, s)
      && MockAnswer(Run(es[..|es| - 1], s).memory, es[|es| - 1], gen, begin, end, written)
  }

  predicate MockAnswer(m: Memory, e: Event, gen: MockQueryLog.Generator, begin: int, end: int, written: Written)
  {
    e.PollEvent? && Reads(m, e.now, e.answer) ==>
      && begin <= m.watermark.value && e.now <= end
      && e.answer.value.entries == MockLog(gen, m.watermark.value, e.now, written)
  }

  // So a run against the mock is a run against one fixed log, and everything said of such runs holds.
  lemma {:induction false} MockRunsAreHonest(
    es: seq<Event>, gen: MockQueryLog.Generator, begin: int, end: int, written: Written, s: Settings)
    requires AnsweredByMock(es, gen, begin, end, written, s)
    ensures HonestRun(es, ProviderLog(MockLog(gen, begin, end, written), HALF_OPEN), s)
  {
    if es != [] {
      var m, e := Run(es[..|es| - 1], s).memory, es[|es| - 1];
      MockRunsAreHonest(es[..|es| - 1], gen, begin, end, written, s);
      if e.PollEvent? && Reads(m, e.now, e.answer) {
        MockAnswersItsWindow(gen, begin, m.watermark.value, e.now, end, written);
      }
    }
  }
}
