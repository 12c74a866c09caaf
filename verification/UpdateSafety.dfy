/**
 Updates from download to activation, and the safety of every run: no sequence of updates, rollbacks
 and clean-ups, crashed anywhere, makes a list active that blocks a protected name.
 */
module UpdateSafety {
  import opened Wrappers
  import opened Strings
  import opened Domains
  import opened Filtering
  import opened Blocklists
  import opened Artifacts
  import opened MockProvider
  import opened Pipeline
  import opened ArtifactStore
  import opened StoreSafety
  import opened Update
  import opened Outcomes

  // ------------------------------------------------------------------------ one update

  // A list that may become active.
  ghost predicate CleanList(entries: set<BlockEntry>, protected: seq<ProtectedDomain>)
  {
    entries != {} && AllNormalized(entries) && HasNoHits(entries, protected)
  }

  ghost predicate OnlyPrunable(d: Disk, paths: seq<FileName>, sha: Digest)
  {
    StateOf(d).Some? ==> forall f | f in paths :: IsPrunable(f, Rotate(StateOf(d).value, sha).Retained())
  }

  // What an update may do to the directory: nothing, or some steps of activating a clean list.
  ghost predicate UpdateStep(d: Disk, after: Disk, sourceId: string, protected: seq<ProtectedDomain>)
  {
    || after == d
    || exists entries: set<BlockEntry>, meta: string, paths: seq<FileName>, stuck: set<FileName>, steps: nat ::
         ActivatesList(d, after, sourceId, protected, entries, meta, paths, stuck, steps)
  }

  ghost predicate ActivatesList(
    d: Disk, after: Disk, sourceId: string, protected: seq<ProtectedDomain>, entries: set<BlockEntry>, meta: string,
    paths: seq<FileName>, stuck: set<FileName>, steps: nat)
  {
    var text := RenderArtifact(sourceId, entries);
    && CleanList(entries, protected) && protected != []
    && OnlyPrunable(d, paths, Sha256(text))
    && after == Cut(d, ActivateTrace(d, text, meta, paths, stuck), steps)
  }

  // A report that tells exactly what the mirrors and the gates said.
  ghost predicate ReportsFindings(r: SourceReport, attempts: seq<seq<StageResult>>, f: Findings)
  {
    r.attempts == attempts && r.stages == UpToFailure(f.Verdicts()) && r.outcome == f.Outcome()
  }

  // None where an exception leaves update_source. A corrupt state file raises before any download.
  method UpdateSource(
    store: Store, source: Source, protected: seq<ProtectedDomain>, responses: seq<Response>, provider: TestProvider,
    options: Options, meta: string, stuck: set<FileName>, fault: Option<nat>)
    returns (report: Option<SourceReport>)
    requires OneLine(source.id)
    requires forall p | p in protected :: Normalized(p.domain)
    modifies store
    ensures UpdateStep(old(store.disk), store.disk, source.id, protected)
    ensures StateOf(old(store.disk)).None? ==> report.None?
    ensures StateOf(old(store.disk)).Some? ==>
              var accepted := FirstAccepted(source, responses, options);
              if accepted.None? then
                && report == Some(SourceReport(KeptPrevious, AttemptReports(source, responses, options), [], []))
                && store.disk == old(store.disk)
              else
                var entries := accepted.value.entries;
                var f := FindingsOf(old(store.disk), source, entries, protected, provider, options, meta, fault);
                && (report.None? <==> Raises(old(store.disk), entries, provider, options.healthSampleSize, f))
                && (report.Some? ==>
                      && ReportsFindings(report.value, AttemptReports(source, responses, options), f)
                      && OutcomeHolds(report.value.outcome, old(store.disk), source, entries, protected, provider, options,
                                      Accepted(old(store.disk), RenderArtifact(source.id, entries), meta, fault)))
                && (report.Some? && f.ReachesActivation() && !options.dryRun ==>
                      ActivatedTo(old(store.disk), store.disk, RenderArtifact(source.id, entries), meta,
                                  report.value.pruned, stuck, fault))
                && (store.disk != old(store.disk) ==> report.Some? && f.ReachesActivation() && !options.dryRun)
                && (report.Some? && report.value.outcome !in {Activated, UpdateFailed} ==> store.disk == old(store.disk))
  {
    if StateOf(store.disk).None? {
      return None;
    }
    var attempts, accepted := TryMirrors(source, responses, options);
    if accepted.None? {
      return Some(SourceReport(KeptPrevious, attempts, [], []));
    }
    AcceptedListIsNormalized(source, responses, options);
    ghost var d := store.disk;
    var outcome, stages, raised, pruned :=
      CheckAndActivate(store, source, accepted.value.entries, protected, provider, options, meta, stuck, fault);
    CheckedIsUpdateStep(d, store.disk, source, accepted.value.entries, protected, provider, options, meta, pruned, stuck, fault);
    if raised {
      return None;
    }
    OutcomeIff(d, source, accepted.value.entries, protected, provider, options, meta, fault);
    return Some(SourceReport(outcome, attempts, stages, pruned));
  }

  // Whatever the gates found, the directory took a step of a clean update.
  lemma {:induction false} CheckedIsUpdateStep(
    d: Disk, after: Disk, source: Source, entries: set<BlockEntry>, protected: seq<ProtectedDomain>,
    provider: TestProvider, options: Options, meta: string, pruned: seq<FileName>, stuck: set<FileName>, fault: Option<nat>)
    requires StateOf(d).Some? && AllNormalized(entries)
    requires after != d ==>
               && FindingsOf(d, source, entries, protected, provider, options, meta, fault).ReachesActivation()
               && !options.dryRun
               && ActivatedTo(d, after, RenderArtifact(source.id, entries), meta, pruned, stuck, fault)
    ensures UpdateStep(d, after, source.id, protected)
  {
    if after != d {
      FindingsMeanClean(d, source, entries, protected, provider, options, meta, fault);
      ActivationIsUpdateStep(d, after, source.id, entries, protected, meta, pruned, stuck, fault);
    }
  }

  lemma {:induction false} FindingsMeanClean(
    d: Disk, source: Source, entries: set<BlockEntry>, protected: seq<ProtectedDomain>, provider: TestProvider,
    options: Options, meta: string, fault: Option<nat>)
    requires StateOf(d).Some? && AllNormalized(entries) && !options.dryRun
    requires FindingsOf(d, source, entries, protected, provider, options, meta, fault).ReachesActivation()
    ensures CleanList(entries, protected) && protected != []
  {
  }

  lemma {:induction false} ActivationIsUpdateStep(
    d: Disk, after: Disk, sourceId: string, entries: set<BlockEntry>, protected: seq<ProtectedDomain>, meta: string,
    pruned: seq<FileName>, stuck: set<FileName>, fault: Option<nat>)
    requires StateOf(d).Some? && CleanList(entries, protected) && protected != []
    requires ActivatedTo(d, after, RenderArtifact(sourceId, entries), meta, pruned, stuck, fault)
    ensures UpdateStep(d, after, sourceId, protected)
  {
    var text := RenderArtifact(sourceId, entries);
    StepsAreACut(d, text, meta, pruned, stuck, fault);
    var steps: nat :| after == Cut(d, ActivateTrace(d, text, meta, pruned, stuck), steps);
    assert ActivatesList(d, after, sourceId, protected, entries, meta, pruned, stuck, steps);
  }

  // ----------------------------------------------------------------------- whole runs

  ghost predicate RollbackStep(d: Disk, after: Disk)
  {
    exists steps: nat :: after == Cut(d, RollbackTrace(d), steps)
  }

  ghost predicate ReconcileStep(d: Disk, after: Disk)
  {
    StateOf(d).Some? && exists paths: seq<FileName>, stuck: set<FileName>, steps: nat ::
      PrunesUnnamed(d, after, paths, stuck, steps)
  }

  ghost predicate PrunesUnnamed(d: Disk, after: Disk, paths: seq<FileName>, stuck: set<FileName>, steps: nat)
    requires StateOf(d).Some?
  {
    && (forall f | f in paths :: IsPrunable(f, StateOf(d).value.Retained()))
    && after == Cut(d, PruneTrace(d, paths, stuck), steps)
  }

  // A history of one source: updates, rollbacks and clean-ups, any of them cut off by a crash, with
  // any downloads, options and test providers.
  ghost predicate IsHistory(disks: seq<Disk>, sourceId: string, protected: seq<ProtectedDomain>)
  {
    && |disks| > 0 && disks[0] == map[]
    && forall i | 0 <= i < |disks| - 1 :: HistoryStep(disks[i], disks[i + 1], sourceId, protected)
  }

  ghost predicate HistoryStep(d: Disk, after: Disk, sourceId: string, protected: seq<ProtectedDomain>)
  {
    UpdateStep(d, after, sourceId, protected) || RollbackStep(d, after) || ReconcileStep(d, after)
  }

  ghost predicate CleanArtifact(sha: Digest, protected: seq<ProtectedDomain>)
  {
    ParsedArtifact(sha.text).Parsed? && CleanList(ParsedArtifact(sha.text).entries, protected)
  }

  ghost predicate CleanStore(d: Disk, protected: seq<ProtectedDomain>)
  {
    Sound(d) && forall h | h in StateOf(d).value.Retained() :: CleanArtifact(h, protected)
  }

  // The entries a version of the source would block, read from its file.
  ghost function EntriesAt(d: Disk, sha: Digest): set<BlockEntry>
  {
    if ReadError(d, sha).None? && ParsedArtifact(d[Text(sha)].text).Parsed?
    then ParsedArtifact(d[Text(sha)].text).entries
    else {}
  }

  lemma {:induction false} RenderedIsClean(sourceId: string, entries: set<BlockEntry>, protected: seq<ProtectedDomain>)
    requires OneLine(sourceId) && CleanList(entries, protected)
    ensures CleanArtifact(Sha256(RenderArtifact(sourceId, entries)), protected)
  {
    RenderRoundTrip(sourceId, entries);
  }

  lemma {:induction false} CutIsOneOf(d: Disk, trace: seq<Disk>, steps: nat)
    ensures Cut(d, trace, steps) == d || exists i :: 0 <= i < |trace| && trace[i] == Cut(d, trace, steps)
  {
    if steps > 0 && trace != [] {
      var i := if steps <= |trace| then steps - 1 else |trace| - 1;
      assert trace[i] == Cut(d, trace, steps);
    }
  }

  lemma {:induction false} UpdateKeepsClean(d: Disk, after: Disk, sourceId: string, protected: seq<ProtectedDomain>)
    requires CleanStore(d, protected) && OneLine(sourceId)
    requires UpdateStep(d, after, sourceId, protected)
    ensures CleanStore(after, protected)
  {
    if after != d {
      var entries: set<BlockEntry>, meta: string, paths: seq<FileName>, stuck: set<FileName>, steps: nat :|
        ActivatesList(d, after, sourceId, protected, entries, meta, paths, stuck, steps);
      var text := RenderArtifact(sourceId, entries);
      ActivationKeepsClean(d, after, text, meta, paths, stuck, steps, protected, sourceId, entries);
    }
  }

  lemma {:induction false} ActivationKeepsClean(
    d: Disk, after: Disk, text: string, meta: string, paths: seq<FileName>, stuck: set<FileName>, steps: nat,
    protected: seq<ProtectedDomain>, sourceId: string, entries: set<BlockEntry>)
    requires CleanStore(d, protected) && OneLine(sourceId) && CleanList(entries, protected)
    requires text == RenderArtifact(sourceId, entries) && OnlyPrunable(d, paths, Sha256(text))
    requires after == Cut(d, ActivateTrace(d, text, meta, paths, stuck), steps)
    ensures CleanStore(after, protected)
  {
    RenderedIsClean(sourceId, entries, protected);
    ActivateIsSound(d, text, meta, paths, stuck);
    CutIsOneOf(d, ActivateTrace(d, text, meta, paths, stuck), steps);
    RotateIsWellShaped(StateOf(d).value, Sha256(text));
  }

  lemma {:induction false} RollbackKeepsClean(d: Disk, after: Disk, protected: seq<ProtectedDomain>)
    requires CleanStore(d, protected) && RollbackStep(d, after)
    ensures CleanStore(after, protected)
  {
    var steps: nat :| after == Cut(d, RollbackTrace(d), steps);
    RollbackIsSound(d);
    CutIsOneOf(d, RollbackTrace(d), steps);
    var s := StateOf(d).value;
    if s.previous.Some? {
      CommitStates(d, Swap(s));
      assert Swap(s).Retained() == s.Retained();
    }
  }

  lemma {:induction false} ReconcileKeepsClean(d: Disk, after: Disk, protected: seq<ProtectedDomain>)
    requires CleanStore(d, protected) && ReconcileStep(d, after)
    ensures CleanStore(after, protected)
  {
    var paths: seq<FileName>, stuck: set<FileName>, steps: nat :| PrunesUnnamed(d, after, paths, stuck, steps);
    PruneIsSound(d, paths, stuck);
    CutIsOneOf(d, PruneTrace(d, paths, stuck), steps);
  }

  // After every history, each retained version (current, previous, backup) is there, verified, and
  // parses to a non-empty list without tripwire hits.
  lemma {:induction false} EveryRetainedVersionIsClean(
    disks: seq<Disk>, sourceId: string, protected: seq<ProtectedDomain>, i: nat)
    requires IsHistory(disks, sourceId, protected) && OneLine(sourceId) && i < |disks|
    ensures CleanStore(disks[i], protected)
  {
    if i == 0 {
      EmptyStoreIsSound();
    } else {
      EveryRetainedVersionIsClean(disks, sourceId, protected, i - 1);
      StepKeepsClean(disks[i - 1], disks[i], sourceId, protected);
    }
  }

  lemma {:induction false} StepKeepsClean(d: Disk, after: Disk, sourceId: string, protected: seq<ProtectedDomain>)
    requires CleanStore(d, protected) && OneLine(sourceId) && HistoryStep(d, after, sourceId, protected)
    ensures CleanStore(after, protected)
  {
    if UpdateStep(d, after, sourceId, protected) {
      UpdateKeepsClean(d, after, sourceId, protected);
    } else if RollbackStep(d, after) {
      RollbackKeepsClean(d, after, protected);
    } else {
      ReconcileKeepsClean(d, after, protected);
    }
  }

  // So no version that is active now, or that a rollback could make active, blocks a protected name.
  lemma {:induction false} NoProtectedNameIsEverBlocked(
    disks: seq<Disk>, sourceId: string, protected: seq<ProtectedDomain>, i: nat, sha: Digest, name: string)
    requires IsHistory(disks, sourceId, protected) && OneLine(sourceId)
    requires i < |disks| && StateOf(disks[i]).Some? && sha in StateOf(disks[i]).value.Retained()
    requires InProtectedScope(name, protected)
    ensures ReadError(disks[i], sha).None? && !Blocks(EntriesAt(disks[i], sha), name)
  {
    EveryRetainedVersionIsClean(disks, sourceId, protected, i);
    assert CleanArtifact(sha, protected);
    NoHitsMeansNothingProtectedIsBlocked(EntriesAt(disks[i], sha), protected, name);
  }

  // ------------------------------------------------------- when the protected set grows

  // A rollback does not run the tripwire again. Against another protected set, the version it makes
  // active is clean exactly when the tripwire finds no hits in the previous version.
  lemma {:induction false} RollbackUnderAnotherProtectedSet(d: Disk, earlier: seq<ProtectedDomain>, protected: seq<ProtectedDomain>)
    requires CleanStore(d, earlier) && StateOf(d).value.previous.Some?
    ensures var after := Last(d, RollbackTrace(d));
            var previous := StateOf(d).value.previous.value;
            && StateOf(after).Some? && StateOf(after).value.current == Some(previous)
            && (CleanArtifact(previous, protected) <==> HasNoHits(EntriesAt(d, previous), protected))
  {
    var s := StateOf(d).value;
    RollbackIsSound(d);
    CommitStates(d, Swap(s));
    assert s.previous.value in s.Retained();
    assert CleanArtifact(s.previous.value, earlier);
  }

  // So after a rollback some name of that set is blocked exactly when the tripwire, run on the previous
  // version before it, would have reported something.
  lemma {:induction false} RollbackBlocksIff(d: Disk, earlier: seq<ProtectedDomain>, protected: seq<ProtectedDomain>)
    requires CleanStore(d, earlier) && StateOf(d).value.previous.Some?
    ensures var after := Last(d, RollbackTrace(d));
            StateOf(after).Some? && StateOf(after).value.current.Some? &&
            (!HasNoHits(EntriesAt(d, StateOf(d).value.previous.value), protected) <==>
             exists name ::
               && InProtectedScope(name, protected)
               && Blocks(EntriesAt(after, StateOf(after).value.current.value), name))
  {
    var after, previous := Last(d, RollbackTrace(d)), StateOf(d).value.previous.value;
    RollbackUnderAnotherProtectedSet(d, earlier, protected);
    RollbackIsSound(d);
    var entries := EntriesAt(d, previous);
    assert EntriesAt(after, previous) == entries;
    HitsMeanBlocked(entries, protected);
  }

  lemma {:induction false} HitsMeanBlocked(entries: set<BlockEntry>, protected: seq<ProtectedDomain>)
    ensures !HasNoHits(entries, protected) <==> exists name :: InProtectedScope(name, protected) && Blocks(entries, name)
  {
    if !HasNoHits(entries, protected) {
      var e :| e in entries && TouchesAny(e, protected);
      EveryTouchBlocksSomethingProtected(e, protected);
      var name :| InProtectedScope(name, protected) && Blocks({e}, name);
      assert Blocks(entries, name);
    }
    if name :| InProtectedScope(name, protected) && Blocks(entries, name) {
      if HasNoHits(entries, protected) {
        NoHitsMeansNothingProtectedIsBlocked(entries, protected, name);
      }
    }
  }

  ghost function TwoVersions(current: Digest, previous: Digest): Disk
  {
    map[StateFile := State(SourceState(Some(current), Some(previous), None)),
        Text(current) := Data(current.text), Meta(current) := Data(""),
        Text(previous) := Data(previous.text), Meta(previous) := Data("")]
  }

  // A store that is clean for the old protected set, whose active version is clean for the new one
  // too, and whose rollback blocks the newly protected domain.
  ghost predicate RollbackExposes(d: Disk, before: seq<ProtectedDomain>, p: ProtectedDomain)
  {
    && CleanStore(d, before)
    && var s := StateOf(d).value;
       && s.current.Some? && s.previous.Some?
       && CleanArtifact(s.current.value, before + [p])
       && StateOf(Last(d, RollbackTrace(d))) == Some(Swap(s))
       && InProtectedScope(p.domain, before + [p]) && Blocks(EntriesAt(d, s.previous.value), p.domain)
  }

  // "No rollback can make a protected name blocked" fails when a domain became protected after the
  // previous version was activated: whenever that version lists the domain.
  lemma {:induction false} RollbackCanBlockANewlyProtectedName(
    sourceId: string, a: set<BlockEntry>, b: set<BlockEntry>, before: seq<ProtectedDomain>, p: ProtectedDomain)
    requires OneLine(sourceId) && CleanList(a, before) && CleanList(b, before + [p])
    requires BlockEntry(p.domain, true) in a
    ensures RollbackExposes(TwoVersions(Sha256(RenderArtifact(sourceId, b)), Sha256(RenderArtifact(sourceId, a))), before, p)
  {
    var current, previous := Sha256(RenderArtifact(sourceId, b)), Sha256(RenderArtifact(sourceId, a));
    NewlyProtectedIsGone(b, before, p);
    RenderIsInjective(sourceId, a, b);
    RenderRoundTrip(sourceId, a);
    RenderedIsClean(sourceId, a, before);
    RenderedIsClean(sourceId, b, before + [p]);
    CleanForFewer(b, before, p);
    RenderedIsClean(sourceId, b, before);
    TwoVersionsExpose(current, previous, before, p);
  }

  lemma {:induction false} TwoVersionsExpose(
    current: Digest, previous: Digest, before: seq<ProtectedDomain>, p: ProtectedDomain)
    requires current != previous
    requires CleanArtifact(current, before) && CleanArtifact(previous, before) && CleanArtifact(current, before + [p])
    requires BlockEntry(p.domain, true) in ParsedArtifact(previous.text).entries
    ensures RollbackExposes(TwoVersions(current, previous), before, p)
  {
    TwoVersionsRollBack(current, previous);
    TwoVersionsAreClean(current, previous, before);
    BlocksNewlyProtected(ParsedArtifact(previous.text).entries, before, p);
  }

  lemma {:induction false} TwoVersionsAreClean(current: Digest, previous: Digest, protected: seq<ProtectedDomain>)
    requires current != previous && CleanArtifact(current, protected) && CleanArtifact(previous, protected)
    ensures CleanStore(TwoVersions(current, previous), protected)
    ensures EntriesAt(TwoVersions(current, previous), previous) == ParsedArtifact(previous.text).entries
  {
    TwoVersionsRollBack(current, previous);
    var d := TwoVersions(current, previous);
    assert forall h | h in StateOf(d).value.Retained() :: h == current || h == previous;
  }

  lemma {:induction false} ShortNamesAreDomains(c: char)
    requires 'a' <= c <= 'z'
    ensures Normalized([c] + ".x")
  {
    var d := [c] + ['.'] + "x";
    assert d == [c] + ".x";
    SplitConcat([c], "x", '.');
    SplitWhole([c], '.');
    SplitWhole("x", '.');
    assert Labels(d) == [[c], "x"];
    TwoLabelsAreDomain(d, c);
    NormalizedIff(d);
  }

  lemma {:induction false} TwoLabelsAreDomain(d: string, c: char)
    requires 'a' <= c <= 'z' && Labels(d) == [[c], "x"] && |d| == 3
    ensures IsDomainName(d)
  {
    assert IsLabel([c]) && IsLabel("x");
    assert 'x' in "x" && !IsDigit('x');
  }

  lemma {:induction false} ShortNamesAreApart(a: char, b: char, includeSubdomains: bool, p: ProtectedDomain)
    requires a != b && p.domain == [b] + ".x"
    ensures !Touches([a] + ".x", includeSubdomains, p)
  {
    assert ([a] + ".x")[0] != ([b] + ".x")[0];
  }

  // One such store: a.x was listed, then dropped from the list and declared protected.
  lemma {:induction false} RollbackExposureExists()
    ensures exists d, before, p :: RollbackExposes(d, before, p)
  {
    ShortListsExpose();
  }

  function ShortVersion(c: char): Digest
  {
    Sha256(RenderArtifact("s", ShortList(c)))
  }

  lemma {:induction false} ShortListsExpose()
    ensures RollbackExposes(TwoVersions(ShortVersion('b'), ShortVersion('a')), [ShortDomain('c')], ShortDomain('a'))
  {
    ShortListsAreClean();
    RollbackCanBlockANewlyProtectedName("s", ShortList('a'), ShortList('b'), [ShortDomain('c')], ShortDomain('a'));
  }

  function ShortDomain(c: char): ProtectedDomain
  {
    ProtectedDomain([c] + ".x", true)
  }

  lemma {:induction false} ShortListsAreClean()
    ensures CleanList(ShortList('a'), [ShortDomain('c')])
    ensures CleanList(ShortList('b'), [ShortDomain('c')] + [ShortDomain('a')])
  {
    ShortNamesAreApart('a', 'c', true, ShortDomain('c'));
    ShortNamesAreApart('b', 'c', true, ShortDomain('c'));
    ShortNamesAreApart('b', 'a', true, ShortDomain('a'));
    ShortListIsClean('a', [ShortDomain('c')]);
    ShortListIsClean('b', [ShortDomain('c')] + [ShortDomain('a')]);
  }

  function ShortList(c: char): set<BlockEntry>
  {
    {BlockEntry([c] + ".x", true)}
  }

  lemma {:induction false} ShortListIsClean(c: char, protected: seq<ProtectedDomain>)
    requires 'a' <= c <= 'z' && forall p | p in protected :: !Touches([c] + ".x", true, p)
    ensures CleanList(ShortList(c), protected)
  {
    ShortNamesAreDomains(c);
  }

  lemma {:induction false} NewlyProtectedIsGone(b: set<BlockEntry>, before: seq<ProtectedDomain>, p: ProtectedDomain)
    requires HasNoHits(b, before + [p])
    ensures BlockEntry(p.domain, true) !in b
  {
    var e := BlockEntry(p.domain, true);
    assert p in before + [p] && Touches(e.domain, e.includeSubdomains, p);
  }

  lemma {:induction false} BlocksNewlyProtected(a: set<BlockEntry>, before: seq<ProtectedDomain>, p: ProtectedDomain)
    requires BlockEntry(p.domain, true) in a
    ensures InProtectedScope(p.domain, before + [p]) && Blocks(a, p.domain)
  {
    var e := BlockEntry(p.domain, true);
    assert p in before + [p] && Covers(p.domain, p.includeSubdomains, p.domain);
    assert Covers(e.domain, e.includeSubdomains, p.domain);
  }

  lemma {:induction false} TwoVersionsRollBack(current: Digest, previous: Digest)
    requires current != previous
    ensures var d := TwoVersions(current, previous);
            && Sound(d) && StateOf(d) == Some(SourceState(Some(current), Some(previous), None))
            && ReadError(d, previous).None? && d[Text(previous)].text == previous.text
            && StateOf(Last(d, RollbackTrace(d))) == Some(Swap(StateOf(d).value))
  {
    var d := TwoVersions(current, previous);
    RollbackIsSound(d);
    CommitStates(d, Swap(StateOf(d).value));
  }

  lemma {:induction false} CleanForFewer(entries: set<BlockEntry>, before: seq<ProtectedDomain>, p: ProtectedDomain)
    requires CleanList(entries, before + [p])
    ensures CleanList(entries, before)
  {
    forall e | e in entries
      ensures !TouchesAny(e, before)
    {
      assert !TouchesAny(e, before + [p]);
      assert forall q | q in before :: q in before + [p];
    }
  }

  // -------------------------------------------------------------- the last gates, on the mock

  // The answers of a fresh mock once the list is deployed on it.
  function MockAnswers(sourceId: string, entries: set<BlockEntry>): TestProvider
  {
    TestProvider(
      Some(Deployment(sourceId, |entries|, false, true)),
      Some(true),
      (domain: string) => Some(LookupIn(map[sourceId := entries], domain)))
  }

  // A list that passed the tripwire cannot fail the test deployment or the health check on a fresh
  // healthy mock: those gates only ever catch a provider that misbehaves.
  lemma {:induction false} CleanListsPassOnAFreshMock(
    sourceId: string, entries: set<BlockEntry>, size: nat, protected: seq<ProtectedDomain>)
    requires AllNormalized(entries) && HasNoHits(entries, protected) && size > 0
    ensures DeploymentOk(MockAnswers(sourceId, entries), entries)
    ensures SampleOk(MockAnswers(sourceId, entries), sourceId, entries, size, protected)
  {
    var provider := MockAnswers(sourceId, entries);
    HealthSampleIsDistinct(entries, size);
    var sample := HealthSample(entries, size).value;
    forall e | e in sample
      ensures SampledOk(provider, sourceId, e)
    {
      SampledEntryIsMatched(sourceId, entries, e);
    }
    forall p | p in protected
      ensures ProtectedOk(provider, p)
    {
      assert InProtectedScope(p.domain, protected);
      NoHitsMeansNothingProtectedIsBlocked(entries, protected, p.domain);
      MatchesIffBlocked(entries, p.domain);
      LookupNotBlocked(sourceId, entries, p.domain);
    }
  }

  lemma {:induction false} SampledEntryIsMatched(sourceId: string, entries: set<BlockEntry>, e: BlockEntry)
    requires e in entries
    ensures sourceId in LookupIn(map[sourceId := entries], e.domain).matchedSources
  {
    assert e == BlockEntry(e.domain, true) || e == BlockEntry(e.domain, false);
  }

  lemma {:induction false} LookupNotBlocked(sourceId: string, entries: set<BlockEntry>, domain: string)
    requires !Matches(entries, domain)
    ensures !LookupIn(map[sourceId := entries], domain).blocked
  {
    assert LookupIn(map[sourceId := entries], domain).matchedSources == {};
  }
}
