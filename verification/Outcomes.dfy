/**
 What the verdicts and the outcome of an update mean (evaluate_sanity in core/blocklists.py, update_source in
 pipeline/blocklists.py): said by the entries, the limits and the answers of the test provider.
 */
module Outcomes {
  import opened Wrappers
  import opened Filtering
  import opened Blocklists
  import opened Artifacts
  import opened Pipeline
  import opened ArtifactStore
  import opened StoreSafety
  import opened Update

  // ------------------------------------------------------------------------------ sanity

  // The change is larger than this share of the previous list; a first or an empty previous list has none.
  ghost predicate IsMoreThan(changed: set<BlockEntry>, ratio: Option<real>, previous: Option<set<BlockEntry>>)
  {
    && previous.Some? && previous.value != {} && ratio.Some?
    && |changed| as real > ratio.value * |previous.value| as real
  }

  function OldEntries(previous: Option<set<BlockEntry>>): set<BlockEntry>
  {
    if previous.Some? then previous.value else {}
  }

  // One of the four approved limits is exceeded.
  ghost predicate Exceeds(previous: Option<set<BlockEntry>>, current: set<BlockEntry>, limits: Option<SanityLimits>)
  {
    limits.Some? &&
    (|| (limits.value.minEntries.Some? && |current| < limits.value.minEntries.value)
     || (limits.value.maxEntries.Some? && |current| > limits.value.maxEntries.value)
     || IsMoreThan(current - OldEntries(previous), limits.value.maxAddedRatio, previous)
     || IsMoreThan(OldEntries(previous) - current, limits.value.maxRemovedRatio, previous))
  }

  function Change(previous: Option<set<BlockEntry>>, current: set<BlockEntry>): Option<Delta>
  {
    if previous.Some? then Some(ComputeDelta(previous.value, current)) else None
  }

  lemma {:induction false} ShareIff(part: nat, whole: nat, ratio: real)
    requires whole > 0
    ensures part as real / whole as real > ratio <==> part as real > ratio * whole as real
  {
    var share := part as real / whole as real;
    assert share * whole as real == part as real;
  }

  // An empty list fails, and no other; a list that exceeds a limit is an anomaly.
  lemma {:induction false} SanityIff(previous: Option<set<BlockEntry>>, current: set<BlockEntry>, limits: Option<SanityLimits>)
    ensures var verdict := EvaluateSanity(|current|, Change(previous, current), limits);
            && (verdict == Fail <==> current == {})
            && (verdict == Anomaly <==> current != {} && Exceeds(previous, current, limits))
  {
    if previous.Some? && previous.value != {} && limits.Some? {
      var old_, l := previous.value, limits.value;
      if l.maxAddedRatio.Some? {
        ShareIff(|current - old_|, |old_|, l.maxAddedRatio.value);
      }
      if l.maxRemovedRatio.Some? {
        ShareIff(|old_ - current|, |old_|, l.maxRemovedRatio.value);
      }
    }
  }

  // ------------------------------------------------------------------------------ gates

  ghost predicate IsHit(entries: set<BlockEntry>, protected: seq<ProtectedDomain>)
  {
    exists e, p :: e in entries && p in protected && Touches(e.domain, e.includeSubdomains, p)
  }

  ghost predicate StoppedByTripwire(entries: set<BlockEntry>, protected: seq<ProtectedDomain>, dryRun: bool)
  {
    IsHit(entries, protected) || (protected == [] && !dryRun)
  }

  // The list that is active, when its file can be read and parsed.
  function ActiveList(d: Disk): Option<set<BlockEntry>>
  {
    if StateOf(d).None? || StateOf(d).value.current.None? then None
    else
      var sha := StateOf(d).value.current.value;
      if ReadError(d, sha).None? && ParsedArtifact(sha.text).Parsed? then Some(ParsedArtifact(sha.text).entries) else None
  }

  // The test provider took the whole list, is healthy, blocks the sample and no protected domain.
  ghost predicate ProviderPasses(
    provider: TestProvider, sourceId: string, entries: set<BlockEntry>, size: nat, protected: seq<ProtectedDomain>)
  {
    && provider.deployed.Some? && provider.deployed.value.applied && provider.deployed.value.entries == |entries|
    && provider.healthy == Some(true)
    && HealthSample(entries, size).Some?
    && (forall e | e in HealthSample(entries, size).value ::
          provider.lookup(e.domain).Some? && sourceId in provider.lookup(e.domain).value.matchedSources)
    && (forall p | p in protected :: provider.lookup(p.domain).Some? && !provider.lookup(p.domain).value.blocked)
  }

  lemma {:induction false} ProviderPassesIff(
    provider: TestProvider, sourceId: string, entries: set<BlockEntry>, size: nat, protected: seq<ProtectedDomain>)
    ensures ProviderPasses(provider, sourceId, entries, size, protected) <==>
            DeploymentOk(provider, entries) && SampleOk(provider, sourceId, entries, size, protected)
  {
    if HealthSample(entries, size).Some? {
      var sample := HealthSample(entries, size).value;
      assert forall e | e in sample :: SampledOk(provider, sourceId, e) <==>
               provider.lookup(e.domain).Some? && sourceId in provider.lookup(e.domain).value.matchedSources;
      assert forall p | p in protected :: ProtectedOk(provider, p) <==>
               provider.lookup(p.domain).Some? && !provider.lookup(p.domain).value.blocked;
    }
  }

  lemma {:induction false} TripwireIff(entries: set<BlockEntry>, protected: seq<ProtectedDomain>, dryRun: bool)
    ensures var status := TripwireStatus(entries, protected, dryRun);
            && (status == Failed <==> StoppedByTripwire(entries, protected, dryRun))
            && (status == Status.Warning <==> protected == [] && dryRun)
            && status != Skipped
  {
    if IsHit(entries, protected) {
      var e, p :| e in entries && p in protected && Touches(e.domain, e.includeSubdomains, p);
      assert TouchesAny(e, protected);
    }
    if !HasNoHits(entries, protected) {
      var e :| e in entries && TouchesAny(e, protected);
    }
  }

  lemma {:induction false} DeltaIsChange(d: Disk, entries: set<BlockEntry>)
    requires StateOf(d).Some? && DeltaAgainst(d, StateOf(d).value.current, entries).Some?
    ensures DeltaAgainst(d, StateOf(d).value.current, entries).value == Change(ActiveList(d), entries)
  {
  }

  // ----------------------------------------------------------------------------- outcomes

  ghost predicate IsNews(d: Disk, source: Source, entries: set<BlockEntry>)
    requires StateOf(d).Some?
  {
    StateOf(d).value.current != Some(Sha256(RenderArtifact(source.id, entries)))
  }

  // What an update that reports finds, gate by gate.
  ghost predicate FindsWhatHolds(
    f: Findings, d: Disk, source: Source, entries: set<BlockEntry>, protected: seq<ProtectedDomain>, provider: TestProvider,
    options: Options)
    requires StateOf(d).Some?
  {
    && (f.tripwire == Failed <==> StoppedByTripwire(entries, protected, options.dryRun))
    && (f.same <==> !IsNews(d, source, entries))
    && (f.tripwire != Failed && !f.same ==>
          && (f.sanity == Fail <==> entries == {})
          && (f.sanity == Anomaly <==> entries != {} && Exceeds(ActiveList(d), entries, source.limits)))
    && f.reviewed == options.acceptAnomalies && f.unlimited == source.limits.None? && f.dryRun == options.dryRun
    && (f.deployed && f.healthy <==> ProviderPasses(provider, source.id, entries, options.healthSampleSize, protected))
  }

  lemma {:induction false} FindingsHold(
    d: Disk, source: Source, entries: set<BlockEntry>, protected: seq<ProtectedDomain>, provider: TestProvider,
    options: Options, meta: string, fault: Option<nat>)
    requires StateOf(d).Some?
    requires var f := FindingsOf(d, source, entries, protected, provider, options, meta, fault);
             !Raises(d, entries, provider, options.healthSampleSize, f)
    ensures FindsWhatHolds(FindingsOf(d, source, entries, protected, provider, options, meta, fault),
                           d, source, entries, protected, provider, options)
  {
    TripwireIff(entries, protected, options.dryRun);
    ProviderPassesIff(provider, source.id, entries, options.healthSampleSize, protected);
    SanityIff(ActiveList(d), entries, source.limits);
    if DeltaAgainst(d, StateOf(d).value.current, entries).Some? {
      DeltaIsChange(d, entries);
    }
  }

  // The outcome of an update that reports: stopped by the tripwire, nothing new, held for review, failed,
  // would activate, or activated; each by its own condition.
  ghost predicate OutcomeHolds(
    outcome: Outcome, d: Disk, source: Source, entries: set<BlockEntry>, protected: seq<ProtectedDomain>,
    provider: TestProvider, options: Options, stored: bool)
    requires StateOf(d).Some?
  {
    var stopped, news := StoppedByTripwire(entries, protected, options.dryRun), IsNews(d, source, entries);
    var excess := entries != {} && Exceeds(ActiveList(d), entries, source.limits) && !options.acceptAnomalies;
    var passes := PassesGates(d, source, entries, protected, provider, options);
    && (outcome == BlockedByTripwire <==> stopped)
    && (outcome == Unchanged <==> !stopped && !news)
    && (outcome == HeldForReview <==> !stopped && news && excess)
    && (outcome == UpdateFailed <==> !stopped && news && !excess && !(passes && (options.dryRun || stored)))
    && (outcome == WouldActivate <==> passes && options.dryRun)
    && (outcome == Activated <==> passes && !options.dryRun && stored)
  }

  // Every gate before the activation is passed.
  ghost predicate PassesGates(
    d: Disk, source: Source, entries: set<BlockEntry>, protected: seq<ProtectedDomain>, provider: TestProvider,
    options: Options)
    requires StateOf(d).Some?
  {
    && !StoppedByTripwire(entries, protected, options.dryRun) && IsNews(d, source, entries)
    && entries != {} && (Exceeds(ActiveList(d), entries, source.limits) ==> options.acceptAnomalies)
    && ProviderPasses(provider, source.id, entries, options.healthSampleSize, protected)
  }

  lemma {:induction false} OutcomeIff(
    d: Disk, source: Source, entries: set<BlockEntry>, protected: seq<ProtectedDomain>, provider: TestProvider,
    options: Options, meta: string, fault: Option<nat>)
    requires StateOf(d).Some?
    requires var f := FindingsOf(d, source, entries, protected, provider, options, meta, fault);
             !Raises(d, entries, provider, options.healthSampleSize, f)
    ensures var f := FindingsOf(d, source, entries, protected, provider, options, meta, fault);
            && OutcomeHolds(f.Outcome(), d, source, entries, protected, provider, options,
                            Accepted(d, RenderArtifact(source.id, entries), meta, fault))
            && (f.ReachesActivation() <==> PassesGates(d, source, entries, protected, provider, options))
  {
    FindingsHold(d, source, entries, protected, provider, options, meta, fault);
  }

  // When an update raises: the active artifact has metadata or a count line that does not parse, or the list
  // gets to the health check with a sample size of zero and a provider that answers.
  lemma {:induction false} RaisesIff(
    d: Disk, source: Source, entries: set<BlockEntry>, protected: seq<ProtectedDomain>, provider: TestProvider,
    options: Options, meta: string, fault: Option<nat>)
    requires StateOf(d).Some?
    ensures var f := FindingsOf(d, source, entries, protected, provider, options, meta, fault);
            Raises(d, entries, provider, options.healthSampleSize, f) <==>
            && !StoppedByTripwire(entries, protected, options.dryRun) && IsNews(d, source, entries)
            && (|| ActiveIsBroken(d)
                || (&& entries != {} && (Exceeds(ActiveList(d), entries, source.limits) ==> options.acceptAnomalies)
                    && provider.deployed.Some? && provider.deployed.value.applied
                    && provider.deployed.value.entries == |entries|
                    && provider.healthy.Some? && options.healthSampleSize == 0))
  {
    TripwireIff(entries, protected, options.dryRun);
    BrokenIff(d, entries);
    NoSampleIff(entries, options.healthSampleSize);
    if !ActiveIsBroken(d) {
      DeltaIsChange(d, entries);
      ReviewFailsIff(ActiveList(d), entries, source.limits, options.acceptAnomalies);
    }
  }

  lemma {:induction false} ReviewFailsIff(
    previous: Option<set<BlockEntry>>, current: set<BlockEntry>, limits: Option<SanityLimits>, accept: bool)
    ensures SanityStatus(EvaluateSanity(|current|, Change(previous, current), limits), accept, limits.None?) == Failed <==>
            current == {} || (Exceeds(previous, current, limits) && !accept)
  {
    SanityIff(previous, current, limits);
  }

  lemma {:induction false} BrokenIff(d: Disk, entries: set<BlockEntry>)
    requires StateOf(d).Some?
    ensures DeltaAgainst(d, StateOf(d).value.current, entries).None? <==> ActiveIsBroken(d)
  {
  }

  ghost predicate ActiveIsBroken(d: Disk)
    requires StateOf(d).Some?
  {
    var current := StateOf(d).value.current;
    current.Some? &&
    (|| ReadError(d, current.value) == Some(BadMetadata)
     || (ReadError(d, current.value).None? && ParsedArtifact(current.value.text).BadCount?))
  }

  lemma {:induction false} NoSampleIff(entries: set<BlockEntry>, size: nat)
    ensures HealthSample(entries, size).None? <==> size == 0 && entries != {}
  {
    assert |SortedEntries(entries)| == |entries|;
    assert |entries| == 0 <==> entries == {};
  }

  // ------------------------------------------------------------------------------- report

  // The verdicts on a list that is new: which stage, and passed, failed, warned of or skipped.
  lemma {:induction false} VerdictsHold(
    d: Disk, source: Source, entries: set<BlockEntry>, protected: seq<ProtectedDomain>, provider: TestProvider,
    options: Options, meta: string, fault: Option<nat>)
    requires StateOf(d).Some? && IsNews(d, source, entries) && !StoppedByTripwire(entries, protected, options.dryRun)
    requires var f := FindingsOf(d, source, entries, protected, provider, options, meta, fault);
             !Raises(d, entries, provider, options.healthSampleSize, f)
    ensures var v := FindingsOf(d, source, entries, protected, provider, options, meta, fault).Verdicts();
            var exceeds := Exceeds(ActiveList(d), entries, source.limits);
            && |v| == 6 && v[0].stage == Tripwire && v[2].stage == Sanity
            && v[1] == StageResult(Syntax, Passed)
            && v[0].status == (if protected == [] then Status.Warning else Passed)
            && v[2].status == (if entries == {} || (exceeds && !options.acceptAnomalies) then Failed
                               else if exceeds || source.limits.None? then Status.Warning else Passed)
            && v[3] == StageResult(TestDeployment, if DeploymentOk(provider, entries) then Passed else Failed)
            && v[4] == StageResult(HealthCheck, if SampleOk(provider, source.id, entries, options.healthSampleSize, protected)
                                                then Passed else Failed)
            && v[5] == StageResult(Activation, if options.dryRun then Skipped
                                               else if Accepted(d, RenderArtifact(source.id, entries), meta, fault) then Passed
                                               else Failed)
  {
    FindingsHold(d, source, entries, protected, provider, options, meta, fault);
    TripwireIff(entries, protected, options.dryRun);
  }

  // A sound directory takes every list, unless a write raises.
  lemma {:induction false} SoundStoresAccept(d: Disk, text: string, meta: string, fault: Option<nat>)
    requires Sound(d)
    ensures Accepted(d, text, meta, fault) <==>
            !Fails(InstallWrites(d, Sha256(text), text, meta, Rotate(StateOf(d).value, Sha256(text))), fault)
  {
    StagingIsSound(d, text, meta);
    assert ReadError(Staged(d, Sha256(text), text, meta), Sha256(text)).None?;
  }
}
