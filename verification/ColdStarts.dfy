/**
 What a crash before the first committed flush loses. The first poll of all sets the watermark in memory
 only (collector.py, poll); until a flush commits, a restart finds none and begins at its own first poll.
 */
module ColdStarts {
  import opened Wrappers
  import opened Metrics
  import opened Buckets
  import opened SortedSets
  import opened Dashboard
  import opened Registry
  import opened Attribution
  import opened Collector
  import opened PiholeQueryLog
  import opened Percentiles
  import opened ExactlyOnce
  import opened CollectorRuns
  import opened DeviceRuns

  // ------------------------------------------------------------------- where counting begins

  // The moment of the first poll of all.
  function FirstEver(es: seq<Event>): Option<int>
  {
    if es == [] then None
    else
      var front, e := FirstEver(es[..|es| - 1]), es[|es| - 1];
      if front.Some? then front else if e.PollEvent? then Some(e.now) else None
  }

  // Every restart finds a stored watermark or comes before any poll.
  ghost predicate WarmRestarts(es: seq<Event>, s: Settings)
  {
    es != [] ==>
      && WarmRestarts(es[..|es| - 1], s)
      && (es[|es| - 1].RestartEvent? ==>
            FirstEver(es[..|es| - 1]).None? || Run(es[..|es| - 1], s).db.watermark.Some?)
  }

  lemma {:induction false} StepStoresIff(w: World, e: Event, s: Settings)
    requires Safe(w)
    ensures Next(w, e, s).db.watermark.Some? <==> w.db.watermark.Some? || Commits(w, e, s)
  {
    if Commits(w, e, s) {
      CommitKeepsConsistency(w.db, BatchOf(w.memory, e.now, s));
    }
  }

  // A watermark is stored exactly when a flush has committed.
  lemma {:induction false} StoredIffCommitted(es: seq<Event>, s: Settings)
    ensures Run(es, s).db.watermark.Some? <==> FlushedSince(es, 0, s)
  {
    if es != [] {
      StoredIffCommitted(es[..|es| - 1], s);
      StepStoresIff(Run(es[..|es| - 1], s), es[|es| - 1], s);
    }
  }

  // The clock never shows the moment of the first poll, or an earlier one, again.
  predicate PollsComeLater(es: seq<Event>)
  {
    es != [] ==>
      && PollsComeLater(es[..|es| - 1])
      && (es[|es| - 1].PollEvent? && FirstEver(es[..|es| - 1]).Some? ==>
            es[|es| - 1].now > FirstEver(es[..|es| - 1]).value)
  }

  ghost predicate BeginsOnce(w: World, g: Ledger, first: Option<int>, warm: bool)
  {
    && (w.memory.watermark.Some? <==> g.first.Some?)
    && (g.first.Some? ==> first.Some?)
    && (warm ==> g.first == first)
  }

  lemma {:induction false} StepBeginsOnce(w: World, g: Ledger, first: Option<int>, warm: bool, e: Event, s: Settings)
    requires Safe(w) && Ahead(w) && BeginsOnce(w, g, first, warm)
    ensures BeginsOnce(Next(w, e, s), NextLedger(w, g, e, s),
                       if first.Some? then first else if e.PollEvent? then Some(e.now) else None,
                       warm && (e.RestartEvent? ==> first.None? || w.db.watermark.Some?))
  {
  }

  lemma {:induction false} EveryRunBeginsOnce(es: seq<Event>, s: Settings)
    ensures BeginsOnce(Run(es, s), History(es, s), FirstEver(es), WarmRestarts(es, s))
  {
    if es != [] {
      var front := es[..|es| - 1];
      EveryRunBeginsOnce(front, s);
      EveryRunIsAhead(front, s);
      StepBeginsOnce(Run(front, s), History(front, s), FirstEver(front), WarmRestarts(front, s), es[|es| - 1], s);
    }
  }

  lemma {:induction false} ColdStartsComeLater(es: seq<Event>, s: Settings)
    requires PollsComeLater(es) && !WarmRestarts(es, s)
    ensures FirstEver(es).Some?
    ensures History(es, s).first.None? || History(es, s).first.value > FirstEver(es).value
  {
    var front, e := es[..|es| - 1], es[|es| - 1];
    EveryRunBeginsOnce(front, s);
    EveryRunIsAhead(front, s);
    if !WarmRestarts(front, s) {
      ColdStartsComeLater(front, s);
    }
  }

  // The account begins at the first poll of all exactly when every restart found a stored watermark or
  // came before any poll.
  lemma {:induction false} BeginsAtFirstPollIff(es: seq<Event>, s: Settings)
    requires PollsComeLater(es)
    ensures History(es, s).first == FirstEver(es) <==> WarmRestarts(es, s)
  {
    EveryRunBeginsOnce(es, s);
    if !WarmRestarts(es, s) {
      ColdStartsComeLater(es, s);
    }
  }

  // --------------------------------------------------------------------------- what is lost

  // The part of the log before `until` that lies between two beginnings.
  function Between(log: ProviderLog, a: int, b: int, until: int): seq<QueryLogEntry>
  {
    Window(log, Min(a, b), Min(Max(a, b), until))
  }

  lemma {:induction false} LongerWindow(log: ProviderLog, a: int, b: int, until: int)
    requires a <= b
    ensures multiset(Window(log, a, until)) == multiset(Between(log, a, b, until)) + multiset(Window(log, b, until))
  {
    if b <= until {
      WindowJoin(log, a, b, until);
    } else {
      NothingWithin(log.entries, b, until, log.edges);
    }
  }

  lemma {:induction false} BucketOfAppend(a: seq<QueryLogEntry>, b: seq<QueryLogEntry>, r: Resolution, start: int, z: Zone)
    ensures InBucketOf(a + b, r, start, z) == InBucketOf(a, r, start, z) + InBucketOf(b, r, start, z)
  {
    if b == [] {
      assert a + b == a;
    } else {
      var front := b[..|b| - 1];
      assert (a + b)[..|a + b| - 1] == a + front;
      BucketOfAppend(a, front, r, start, z);
    }
  }

  // A bucket of the longer of two logs shows the same as one of the shorter exactly when nothing of the
  // difference falls into it.
  lemma {:induction false} SameBucketIff(
    long: seq<QueryLogEntry>, more: seq<QueryLogEntry>, short: seq<QueryLogEntry>, r: Resolution, start: int, z: Zone)
    requires multiset(long) == multiset(more) + multiset(short)
    ensures Tally(InBucketOf(long, r, start, z)) == Tally(InBucketOf(short, r, start, z)) <==>
            InBucketOf(more, r, start, z) == []
  {
    SameEntriesSameBucket(long, more + short, r, start, z);
    BucketOfAppend(more, short, r, start, z);
    TallyCounts(InBucketOf(more + short, r, start, z));
    TallyCounts(InBucketOf(short, r, start, z));
    if InBucketOf(more, r, start, z) == [] {
      assert [] + InBucketOf(short, r, start, z) == InBucketOf(short, r, start, z);
    }
  }

  lemma {:induction false} SameWindowIff(log: ProviderLog, a: int, b: int, until: int, r: Resolution, start: int, z: Zone)
    ensures Tally(InBucketOf(Window(log, a, until), r, start, z)) == Tally(InBucketOf(Window(log, b, until), r, start, z))
            <==> InBucketOf(Between(log, a, b, until), r, start, z) == []
  {
    LongerWindow(log, Min(a, b), Max(a, b), until);
    SameBucketIff(Window(log, Min(a, b), until), Between(log, a, b, until), Window(log, Max(a, b), until), r, start, z);
  }

  // Over a run, the stored queries are those from the first poll of all up to the stored watermark exactly
  // when none lies between that poll and the beginning of the account.
  lemma {:induction false} StoresEverythingIff(es: seq<Event>, log: ProviderLog, s: Settings)
    requires IsZone(s.zone) && HonestRun(es, log, s) && Run(es, s).db.watermark.Some?
    ensures FirstEver(es).Some? && History(es, s).first.Some?
    ensures var begin, first, until := FirstEver(es).value, History(es, s).first.value, Run(es, s).db.watermark.value;
            multiset(Entries(History(es, s).stored)) == multiset(Window(log, begin, until)) <==>
            Between(log, begin, first, until) == []
  {
    EveryRunIsExact(es, log, s);
    EveryRunBeginsOnce(es, s);
    var begin, first := FirstEver(es).value, History(es, s).first.value;
    var between := Between(log, begin, first, Run(es, s).db.watermark.value);
    LongerWindow(log, Min(begin, first), Max(begin, first), Run(es, s).db.watermark.value);
    assert |multiset(between)| == |between|;
  }

  // Over a run, a bucket shows every query from the first poll of all up to the stored watermark exactly
  // when none of those in it lies between that poll and the beginning of the account.
  lemma {:induction false} ShowsEverythingIff(es: seq<Event>, log: ProviderLog, s: Settings, r: Resolution, start: int)
    requires IsZone(s.zone) && HonestRun(es, log, s) && Run(es, s).db.watermark.Some?
    requires Unexpired(es, s, r, start)
    ensures FirstEver(es).Some? && History(es, s).first.Some?
    ensures var begin, first, until := FirstEver(es).value, History(es, s).first.value, Run(es, s).db.watermark.value;
            House(Run(es, s).db, r, start) == Tally(InBucketOf(Window(log, begin, until), r, start, s.zone)) <==>
            InBucketOf(Between(log, begin, first, until), r, start, s.zone) == []
  {
    EveryRunIsExact(es, log, s);
    EveryRunBeginsOnce(es, s);
    ExactlyOnceInEveryRun(es, log, s, r, start);
    SameWindowIff(log, FirstEver(es).value, History(es, s).first.value, Run(es, s).db.watermark.value, r, start, s.zone);
  }

  // So a run whose restarts are warm loses nothing: every bucket shows exactly the queries from the first
  // poll of all up to the stored watermark.
  lemma {:induction false} WarmRunsLoseNothing(es: seq<Event>, log: ProviderLog, s: Settings, r: Resolution, start: int)
    requires IsZone(s.zone) && HonestRun(es, log, s) && WarmRestarts(es, s)
    requires Unexpired(es, s, r, start)
    ensures var db := Run(es, s).db;
            House(db, r, start) == Tally(InBucketOf(StoredLog(log, FirstEver(es), db.watermark), r, start, s.zone))
  {
    EveryRunBeginsOnce(es, s);
    ExactlyOnceInEveryRun(es, log, s, r, start);
  }

  // ------------------------------------------------------------------------- a run that loses

  lemma {:induction false} OneMoreRuns(es: seq<Event>, e: Event, log: ProviderLog, s: Settings)
    ensures Run(es + [e], s) == Next(Run(es, s), e, s)
    ensures History(es + [e], s) == NextLedger(Run(es, s), History(es, s), e, s)
    ensures HonestRun(es + [e], log, s) <==> HonestRun(es, log, s) && Honest(Run(es, s).memory, e, log)
  {
    assert (es + [e])[..|es|] == es;
  }

  lemma {:induction false} OneMoreBegins(es: seq<Event>, e: Event, s: Settings)
    ensures FirstEver(es + [e]) ==
            if FirstEver(es).Some? then FirstEver(es) else if e.PollEvent? then Some(e.now) else None
    ensures PollsComeLater(es + [e]) <==>
            PollsComeLater(es) && (e.PollEvent? && FirstEver(es).Some? ==> e.now > FirstEver(es).value)
    ensures WarmRestarts(es + [e], s) <==>
            WarmRestarts(es, s) && (e.RestartEvent? ==> FirstEver(es).None? || Run(es, s).db.watermark.Some?)
  {
    assert (es + [e])[..|es|] == es;
  }

  // Two polls, the second of which reads a query.
  function TwoPolls(e: QueryLogEntry, a: int, b: int): seq<Event>
  {
    [PollEvent(a, None)] + [PollEvent(b, Some(Answer([], [e])))]
  }

  // Then a crash; and the collector starts again, polls and flushes.
  function ColdCrash(e: QueryLogEntry, a: int, b: int, c: int): seq<Event>
  {
    TwoPolls(e, a, b) + [RestartEvent] + [PollEvent(c, None)] + [FlushEvent(c, false)]
  }

  lemma {:induction false} WindowOfOne(e: QueryLogEntry, a: int, b: int)
    requires a <= e.time < b
    ensures Window(ProviderLog([e], HALF_OPEN), a, b) == [e]
  {
    assert [e][..0] == [] && ServerWindow([], a, b, HALF_OPEN) == [];
  }

  lemma {:induction false} TwoPollsRead(e: QueryLogEntry, a: int, b: int, s: Settings)
    requires a <= e.time < b
    ensures var es := TwoPolls(e, a, b);
            && HonestRun(es, ProviderLog([e], HALF_OPEN), s) && Run(es, s).db == EMPTY_DATABASE
            && Entries(History(es, s).unflushed) == [e] && History(es, s).stored == []
            && FirstEver(es) == Some(a) && PollsComeLater(es)
  {
    var log, first, second := ProviderLog([e], HALF_OPEN), PollEvent(a, None), PollEvent(b, Some(Answer([], [e])));
    StartIsStarted();
    WindowOfOne(e, a, b);
    assert [] + [first] == [first];
    OneMoreRuns([], first, log, s);
    OneMoreBegins([], first, s);
    OneMoreRuns([first], second, log, s);
    OneMoreBegins([first], second, s);
    PollAddsEntries(Run([first], s).memory, Answer([], [e]), s.zone);
    assert [] + PollCredits(Run([first], s).memory, Answer([], [e]), s.zone)
        == PollCredits(Run([first], s).memory, Answer([], [e]), s.zone);
  }

  lemma {:induction false} PollAddsEntries(m: Memory, a: Answer, z: Zone)
    requires Sound(m.registry)
    ensures Entries(PollCredits(m, a, z)) == a.entries
  {
  }

  lemma {:induction false} CrashForgetsThePolls(e: QueryLogEntry, a: int, b: int, s: Settings)
    requires a <= e.time < b
    ensures var es := TwoPolls(e, a, b) + [RestartEvent];
            && HonestRun(es, ProviderLog([e], HALF_OPEN), s) && Run(es, s) == START
            && History(es, s).first == None
            && FirstEver(es) == Some(a) && PollsComeLater(es) && !WarmRestarts(es, s)
  {
    StartIsStarted();
    TwoPollsRead(e, a, b, s);
    OneMoreRuns(TwoPolls(e, a, b), RestartEvent, ProviderLog([e], HALF_OPEN), s);
    OneMoreBegins(TwoPolls(e, a, b), RestartEvent, s);
  }

  // From an empty memory, a poll and a flush store the watermark and nothing else.
  lemma {:induction false} FirstFlushIsEmpty(c: int, s: Settings)
    ensures Safe(START)
    ensures var polled := World(EMPTY_DATABASE, START.memory.(watermark := Some(c)));
            && Safe(polled) && Next(START, PollEvent(c, None), s) == polled
            && var flushed := Next(polled, FlushEvent(c, false), s);
               flushed.db.watermark == Some(c) && flushed.db.rollups == map[]
  {
    StartIsStarted();
    StepIsSafe(START, PollEvent(c, None), s);
    var polled := Next(START, PollEvent(c, None), s);
    FlushCommits(polled, FlushEvent(c, false), s);
    assert Sorted({}, KeyLe) == [];
  }

  // "A crash loses nothing" fails before the first committed flush. Here a query is read and credited,
  // and in no row afterwards, although every answer was exactly its window and the store ends beyond it.
  lemma {:induction false} ColdCrashLosesQueries(e: QueryLogEntry, a: int, b: int, c: int, s: Settings)
    requires a <= e.time < b < c
    ensures var es, log := ColdCrash(e, a, b, c), ProviderLog([e], HALF_OPEN);
            && HonestRun(es, log, s) && PollsComeLater(es) && !WarmRestarts(es, s)
            && FirstEver(es) == Some(a) && History(es, s).first == Some(c)
            && Window(log, a, c) == [e] && Entries(History(es[..2], s).unflushed) == [e]
            && Run(es, s).db.watermark == Some(c) && Run(es, s).db.rollups == map[]
  {
    var log, crashed := ProviderLog([e], HALF_OPEN), TwoPolls(e, a, b) + [RestartEvent];
    WindowOfOne(e, a, c);
    TwoPollsRead(e, a, b, s);
    assert ColdCrash(e, a, b, c)[..2] == TwoPolls(e, a, b);
    CrashForgetsThePolls(e, a, b, s);
    FirstFlushIsEmpty(c, s);
    OneMoreRuns(crashed, PollEvent(c, None), log, s);
    OneMoreBegins(crashed, PollEvent(c, None), s);
    OneMoreRuns(crashed + [PollEvent(c, None)], FlushEvent(c, false), log, s);
    OneMoreBegins(crashed + [PollEvent(c, None)], FlushEvent(c, false), s);
  }
}
