/**
 One update of one source (update_source in pipeline/blocklists.py): the mirrors, then stages 8 to 13.
 */
module Update {
  import opened Wrappers
  import opened Domains
  import opened Filtering
  import opened Blocklists
  import opened Artifacts
  import opened MockProvider
  import opened Pipeline
  import opened ArtifactStore

  // What a test provider answers once the entries are deployed on it; None is a ProviderError.
  datatype TestProvider = TestProvider(
    deployed: Option<Deployment>, healthy: Option<bool>, lookup: string -> Option<Lookup>)

  datatype SourceReport = SourceReport(
    outcome: Outcome, attempts: seq<seq<StageResult>>, stages: seq<StageResult>, pruned: seq<FileName>)

  // ------------------------------------------------------------------------- mirrors

  function AttemptReports(source: Source, responses: seq<Response>, options: Options): seq<seq<StageResult>>
  {
    if responses == [] then []
    else
      [UpToFailure(AttemptVerdicts(source, responses[0], options))]
      + (if Accepts(source, responses[0], options) then [] else AttemptReports(source, responses[1..], options))
  }

  method TryMirrors(source: Source, responses: seq<Response>, options: Options)
    returns (attempts: seq<seq<StageResult>>, accepted: Option<ParseResult>)
    ensures attempts == AttemptReports(source, responses, options)
    ensures accepted == FirstAccepted(source, responses, options)
  {
    attempts, accepted := [], None;
    for i := 0 to |responses|
      invariant accepted.None?
      invariant attempts + AttemptReports(source, responses[i..], options) == AttemptReports(source, responses, options)
      invariant FirstAccepted(source, responses[i..], options) == FirstAccepted(source, responses, options)
    {
      assert responses[i..][0] == responses[i] && responses[i..][1..] == responses[i + 1..];
      var stages;
      stages, accepted := Attempt(source, responses[i], options);
      attempts := attempts + [stages];
      if accepted.Some? {
        return;
      }
    }
  }

  // --------------------------------------------------------------------- stages 8 to 13

  ghost function TripwireStatus(entries: set<BlockEntry>, protected: seq<ProtectedDomain>, dryRun: bool): Status
  {
    if protected == [] then (if dryRun then Status.Warning else Failed)
    else if HasNoHits(entries, protected) then Passed
    else Failed
  }

  method TripwireStage(entries: set<BlockEntry>, protected: seq<ProtectedDomain>, dryRun: bool) returns (status: Status)
    requires AllNormalized(entries)
    requires forall p | p in protected :: Normalized(p.domain)
    ensures status == TripwireStatus(entries, protected, dryRun)
  {
    if protected == [] {
      return if dryRun then Status.Warning else Failed;
    }
    var scan := SortedEntries(entries);
    var hits := FindTripwireHits(scan, protected);
    forall e
      ensures e in EntriesOf(hits) <==> e in entries && TouchesAny(e, protected)
    {
      TouchingEntriesMember(scan, protected, e);
    }
    if hits != [] {
      assert hits[0].entry == EntriesOf(hits)[0];
      return Failed;
    }
    return Passed;
  }

  method SyntaxStage(sourceId: string, entries: set<BlockEntry>) returns (rendered: string, ok: bool)
    requires OneLine(sourceId) && AllNormalized(entries)
    ensures rendered == RenderArtifact(sourceId, entries) && ok
  {
    rendered := RenderArtifact(sourceId, entries);
    var back := ParseArtifact(rendered);
    RenderRoundTrip(sourceId, entries);
    ok := back == Parsed(entries);
  }

  // The change against the active artifact; None for the whole result where the metadata file does not
  // parse or int() raises: neither error is one that the gate catches.
  function DeltaAgainst(d: Disk, previous: Option<Digest>, entries: set<BlockEntry>): Option<Option<Delta>>
  {
    if previous.None? then Some(None)
    else if ReadError(d, previous.value) == Some(BadMetadata) then None
    else if ReadError(d, previous.value).Some? then Some(None)
    else
      match ParsedArtifact(d[Text(previous.value)].text)
      case Parsed(old_) => Some(Some(ComputeDelta(old_, entries)))
      case FormatError => Some(None)
      case BadCount => None
  }

  predicate DeploymentOk(provider: TestProvider, entries: set<BlockEntry>)
  {
    provider.deployed.Some? && provider.deployed.value.applied && provider.deployed.value.entries == |entries|
  }

  predicate SampledOk(provider: TestProvider, sourceId: string, e: BlockEntry)
  {
    var answer := provider.lookup(e.domain);
    answer.Some? && sourceId in answer.value.matchedSources
  }

  predicate ProtectedOk(provider: TestProvider, p: ProtectedDomain)
  {
    var answer := provider.lookup(p.domain);
    answer.Some? && !answer.value.blocked
  }

  predicate HealthOk(provider: TestProvider, sourceId: string, sample: seq<BlockEntry>, protected: seq<ProtectedDomain>)
  {
    && provider.healthy == Some(true)
    && (forall e | e in sample :: SampledOk(provider, sourceId, e))
    && (forall p | p in protected :: ProtectedOk(provider, p))
  }

  method HealthStage(
    provider: TestProvider, sourceId: string, sample: seq<BlockEntry>, protected: seq<ProtectedDomain>)
    returns (ok: bool)
    ensures ok <==> HealthOk(provider, sourceId, sample, protected)
  {
    ok := provider.healthy == Some(true);
    for i := 0 to |sample|
      invariant ok <==> provider.healthy == Some(true) && forall j | 0 <= j < i :: SampledOk(provider, sourceId, sample[j])
    {
      ok := ok && SampledOk(provider, sourceId, sample[i]);
    }
    for i := 0 to |protected|
      invariant ok <==> && provider.healthy == Some(true) && (forall e | e in sample :: SampledOk(provider, sourceId, e))
                        && forall j | 0 <= j < i :: ProtectedOk(provider, protected[j])
    {
      ok := ok && ProtectedOk(provider, protected[i]);
    }
  }

  function SanityStatus(sanity: Artifacts.Verdict, reviewed: bool, unlimited: bool): Status
  {
    if sanity == Fail || (sanity == Anomaly && !reviewed) then Failed
    else if sanity == Anomaly || unlimited then Status.Warning
    else Passed
  }

  function ReviewVerdicts(sanity: Status, deployed: bool, healthy: bool): seq<StageResult>
  {
    [StageResult(Sanity, sanity), Gate(TestDeployment, deployed), Gate(HealthCheck, healthy)]
  }

  function Skip(stages: seq<Stage>): seq<StageResult>
  {
    seq(|stages|, i requires 0 <= i < |stages| => StageResult(stages[i], Skipped))
  }

  // What the gates find out about an accepted list, in their order.
  datatype Findings = Findings(
    tripwire: Status, same: bool, sanity: Artifacts.Verdict, reviewed: bool, unlimited: bool,
    deployed: bool, healthy: bool, dryRun: bool, stored: bool)
  {
    function Review(): seq<StageResult>
    {
      ReviewVerdicts(SanityStatus(sanity, reviewed, unlimited), deployed, healthy)
    }

    // Six stages, all decided; a report shows them up to the first failure.
    function Verdicts(): seq<StageResult>
    {
      [StageResult(Tripwire, tripwire), StageResult(Syntax, Passed)]
      + (if same then Skip([Sanity, TestDeployment, HealthCheck, Activation])
         else Review() + [StageResult(Activation, ActivationStatus(dryRun, stored))])
    }

    // The list is clean and new, and every gate before activation let it through.
    predicate ReachesActivation()
    {
      && tripwire != Failed && !same
      && SanityStatus(sanity, reviewed, unlimited) != Failed && deployed && healthy
    }

    function Outcome(): Outcome
    {
      if tripwire == Failed then BlockedByTripwire
      else if same then Unchanged
      else if sanity == Fail then UpdateFailed
      else if sanity == Anomaly && !reviewed then HeldForReview
      else if !deployed || !healthy then UpdateFailed
      else if dryRun then WouldActivate
      else if !stored then UpdateFailed
      else Activated
    }
  }

  // An outcome that claims success comes with a report without failures, and the other way round.
  lemma {:induction false} SuccessMeansNoFailure(f: Findings)
    ensures f.Outcome() in {Activated, WouldActivate, Unchanged} <==> NoneFailed(f.Verdicts())
    ensures f.Outcome() == Activated ==> f.ReachesActivation() && !f.dryRun
  {
    var v := f.Verdicts();
    assert |v| == 6 && forall i | 0 <= i < 6 :: v[i] in v;
  }

  predicate SampleOk(
    provider: TestProvider, sourceId: string, entries: set<BlockEntry>, size: nat, protected: seq<ProtectedDomain>)
  {
    var sample := HealthSample(entries, size);
    sample.Some? && HealthOk(provider, sourceId, sample.value, protected)
  }

  ghost function FindingsOf(
    d: Disk, source: Source, entries: set<BlockEntry>, protected: seq<ProtectedDomain>, provider: TestProvider,
    options: Options, meta: string, fault: Option<nat>): Findings
    requires StateOf(d).Some?
  {
    var sha := Sha256(RenderArtifact(source.id, entries));
    var delta := DeltaAgainst(d, StateOf(d).value.current, entries);
    Findings(
      TripwireStatus(entries, protected, options.dryRun),
      StateOf(d).value.current == Some(sha),
      EvaluateSanity(|entries|, if delta.Some? then delta.value else None, source.limits),
      options.acceptAnomalies,
      source.limits.None?,
      DeploymentOk(provider, entries),
      SampleOk(provider, source.id, entries, options.healthSampleSize, protected),
      options.dryRun,
      Accepted(d, sha.text, meta, fault))
  }

  // The division by a sample size of zero, unless health() itself raised before it.
  predicate SampleRaises(provider: TestProvider, entries: set<BlockEntry>, size: nat)
  {
    provider.healthy.Some? && HealthSample(entries, size).None?
  }

  // An exception leaves update_source: int() on the count line of the active artifact, or the
  // division by a sample size of zero.
  ghost predicate Raises(d: Disk, entries: set<BlockEntry>, provider: TestProvider, size: nat, f: Findings)
    requires StateOf(d).Some?
  {
    && f.tripwire != Failed && !f.same
    && (|| DeltaAgainst(d, StateOf(d).value.current, entries).None?
        || (SanityStatus(f.sanity, f.reviewed, f.unlimited) != Failed && f.deployed && SampleRaises(provider, entries, size)))
  }

  // Stages 10 to 12, each tried only when the one before let the list through.
  method Review(
    sourceId: string, entries: set<BlockEntry>, protected: seq<ProtectedDomain>, provider: TestProvider,
    status: Status, size: nat)
    returns (stages: seq<StageResult>, ok: bool, raised: bool)
    ensures raised <==> status != Failed && DeploymentOk(provider, entries) && SampleRaises(provider, entries, size)
    ensures var verdicts := ReviewVerdicts(status, DeploymentOk(provider, entries),
                              SampleOk(provider, sourceId, entries, size, protected));
            !raised ==> stages == UpToFailure(verdicts) && (ok <==> NoneFailed(verdicts))
  {
    ghost var verdicts := ReviewVerdicts(status, DeploymentOk(provider, entries),
                            SampleOk(provider, sourceId, entries, size, protected));
    ok, raised := false, false;
    stages := [StageResult(Sanity, status)];
    if status == Failed {
      StopsAt(verdicts, 0);
      return;
    }
    if !DeploymentOk(provider, entries) {
      StopsAt(verdicts, 1);
      stages := stages + [StageResult(TestDeployment, Failed)];
      return;
    }
    stages := stages + [StageResult(TestDeployment, Passed)];
    var sample := HealthSample(entries, size);
    if provider.healthy.Some? && sample.None? {
      raised := true;
      return;
    }
    if sample.Some? {
      ok := HealthStage(provider, sourceId, sample.value, protected);
    }
    if !ok {
      StopsAt(verdicts, 2);
    }
    UpToFailureShape(verdicts);
    stages := stages + [Gate(HealthCheck, ok)];
  }

  // Report of an update, by the findings.
  lemma {:induction false} ReportParts(f: Findings, head: seq<StageResult>)
    requires head == [StageResult(Tripwire, f.tripwire), StageResult(Syntax, Passed)]
    ensures f.tripwire == Failed ==> UpToFailure(f.Verdicts()) == [StageResult(Tripwire, Failed)]
    ensures f.tripwire != Failed && f.same ==>
              UpToFailure(f.Verdicts()) == head + Skip([Sanity, TestDeployment, HealthCheck, Activation])
    ensures f.tripwire != Failed && !f.same && !NoneFailed(f.Review()) ==>
              UpToFailure(f.Verdicts()) == head + UpToFailure(f.Review())
    ensures f.tripwire != Failed && !f.same && NoneFailed(f.Review()) ==>
              UpToFailure(f.Verdicts()) ==
              head + f.Review() + [StageResult(Activation, ActivationStatus(f.dryRun, f.stored))]
    ensures NoneFailed(f.Review()) <==>
              SanityStatus(f.sanity, f.reviewed, f.unlimited) != Failed && f.deployed && f.healthy
  {
    var r := f.Review();
    assert forall i | 0 <= i < 3 :: r[i] in r;
    if f.tripwire == Failed {
      StopsAt(f.Verdicts(), 0);
    } else if f.same {
      UpToFailureShape(f.Verdicts());
    } else {
      var last := [StageResult(Activation, ActivationStatus(f.dryRun, f.stored))];
      assert NoneFailed(head);
      UpToFailureJoin(head, r + last);
      UpToFailureJoin(r, last);
      assert head + (r + last) == head + r + last;
    }
  }

  function ActivationStatus(dryRun: bool, stored: bool): Status
  {
    if dryRun then Skipped else if stored then Passed else Failed
  }

  // Stages 8 to 13 for an accepted list.
  method CheckAndActivate(
    store: Store, source: Source, entries: set<BlockEntry>, protected: seq<ProtectedDomain>, provider: TestProvider,
    options: Options, meta: string, stuck: set<FileName>, fault: Option<nat>)
    returns (outcome: Outcome, stages: seq<StageResult>, raised: bool, pruned: seq<FileName>)
    requires StateOf(store.disk).Some? && OneLine(source.id) && AllNormalized(entries)
    requires forall p | p in protected :: Normalized(p.domain)
    modifies store
    ensures var f := FindingsOf(old(store.disk), source, entries, protected, provider, options, meta, fault);
            && (raised <==> Raises(old(store.disk), entries, provider, options.healthSampleSize, f))
            && (!raised ==> stages == UpToFailure(f.Verdicts()) && outcome == f.Outcome())
            && (if !raised && f.ReachesActivation() && !options.dryRun
                then ActivatedTo(old(store.disk), store.disk, RenderArtifact(source.id, entries), meta, pruned, stuck, fault)
                else store.disk == old(store.disk))
  {
    ghost var f := FindingsOf(store.disk, source, entries, protected, provider, options, meta, fault);
    raised, pruned := false, [];
    var tripwire := TripwireStage(entries, protected, options.dryRun);
    ReportParts(f, [StageResult(Tripwire, f.tripwire), StageResult(Syntax, Passed)]);
    if tripwire == Failed {
      outcome, stages := BlockedByTripwire, [StageResult(Tripwire, Failed)];
      return;
    }
    var rendered, ok := SyntaxStage(source.id, entries);
    stages := [StageResult(Tripwire, tripwire), StageResult(Syntax, Passed)];
    if StateOf(store.disk).value.current == Some(Sha256(rendered)) {
      outcome, stages := Unchanged, stages + Skip([Sanity, TestDeployment, HealthCheck, Activation]);
      return;
    }
    outcome, stages, raised, pruned :=
      ReviewAndActivate(store, source, entries, rendered, stages, protected, provider, options, meta, stuck, fault, f);
  }

  // Stages 10 to 13 for a list that passed the tripwire and is not the active one.
  method ReviewAndActivate(
    store: Store, source: Source, entries: set<BlockEntry>, rendered: string, head: seq<StageResult>,
    protected: seq<ProtectedDomain>, provider: TestProvider, options: Options, meta: string, stuck: set<FileName>,
    fault: Option<nat>, ghost f: Findings)
    returns (outcome: Outcome, stages: seq<StageResult>, raised: bool, pruned: seq<FileName>)
    requires StateOf(store.disk).Some?
    requires rendered == RenderArtifact(source.id, entries)
    requires f == FindingsOf(store.disk, source, entries, protected, provider, options, meta, fault)
    requires f.tripwire != Failed && !f.same
    requires head == [StageResult(Tripwire, f.tripwire), StageResult(Syntax, Passed)]
    modifies store
    ensures raised <==> Raises(old(store.disk), entries, provider, options.healthSampleSize, f)
    ensures !raised ==> stages == UpToFailure(f.Verdicts()) && outcome == f.Outcome()
    ensures if !raised && f.ReachesActivation() && !options.dryRun
            then ActivatedTo(old(store.disk), store.disk, rendered, meta, pruned, stuck, fault)
            else store.disk == old(store.disk)
  {
    outcome, stages, raised, pruned := UpdateFailed, head, false, [];
    var delta := DeltaAgainst(store.disk, StateOf(store.disk).value.current, entries);
    if delta.None? {
      raised := true;
      return;
    }
    var passed;
    outcome, stages, passed, raised := ReviewStages(source, entries, delta.value, head, protected, provider, options, f);
    if raised || !passed {
      return;
    }
    var status;
    status, pruned := ActivateStage(store, rendered, meta, options.dryRun, stuck, fault);
    ActivationReport(f, head, stages);
    stages := stages + [StageResult(Activation, status)];
    outcome := if status == Failed then UpdateFailed else if options.dryRun then WouldActivate else Activated;
  }

  // Stages 10 to 12, and what they decide when one of them fails.
  method ReviewStages(
    source: Source, entries: set<BlockEntry>, delta: Option<Delta>, head: seq<StageResult>,
    protected: seq<ProtectedDomain>, provider: TestProvider, options: Options, ghost f: Findings)
    returns (outcome: Outcome, stages: seq<StageResult>, passed: bool, raised: bool)
    requires f.tripwire != Failed && !f.same
    requires f.sanity == EvaluateSanity(|entries|, delta, source.limits)
    requires f.reviewed == options.acceptAnomalies && f.unlimited == source.limits.None?
    requires f.deployed == DeploymentOk(provider, entries)
    requires f.healthy == SampleOk(provider, source.id, entries, options.healthSampleSize, protected)
    requires head == [StageResult(Tripwire, f.tripwire), StageResult(Syntax, Passed)]
    ensures raised <==> SanityStatus(f.sanity, f.reviewed, f.unlimited) != Failed && f.deployed
                        && SampleRaises(provider, entries, options.healthSampleSize)
    ensures !raised ==> (passed <==> f.ReachesActivation())
    ensures !raised && passed ==> NoneFailed(f.Review()) && stages == head + f.Review()
    ensures !raised && !passed ==> stages == UpToFailure(f.Verdicts()) && outcome == f.Outcome()
  {
    var sanity := EvaluateSanity(|entries|, delta, source.limits);
    var status := SanityStatus(sanity, options.acceptAnomalies, source.limits.None?);
    var review;
    review, passed, raised := Review(source.id, entries, protected, provider, status, options.healthSampleSize);
    outcome := if sanity == Anomaly && !options.acceptAnomalies then HeldForReview else UpdateFailed;
    ReportParts(f, head);
    UpToFailureShape(f.Review());
    stages := head + review;
  }

  lemma {:induction false} ActivationReport(f: Findings, head: seq<StageResult>, stages: seq<StageResult>)
    requires f.ReachesActivation() && NoneFailed(f.Review())
    requires head == [StageResult(Tripwire, f.tripwire), StageResult(Syntax, Passed)] && stages == head + f.Review()
    ensures UpToFailure(f.Verdicts()) == stages + [StageResult(Activation, ActivationStatus(f.dryRun, f.stored))]
  {
    ReportParts(f, head);
  }

  // What an activation call, complete or refused, does to the directory.
  ghost predicate ActivatedTo(
    d: Disk, after: Disk, text: string, meta: string, pruned: seq<FileName>, stuck: set<FileName>, fault: Option<nat>)
    requires StateOf(d).Some?
  {
    && after == Last(d, ActivateSteps(d, text, meta, pruned, stuck, fault))
    && (Accepted(d, text, meta, fault) ==> ListsPrunable(pruned, d, Rotate(StateOf(d).value, Sha256(text)).Retained()))
    && (!Accepted(d, text, meta, fault) ==> pruned == [])
  }

  // The new text was written, verified and made current.
  predicate Accepted(d: Disk, text: string, meta: string, fault: Option<nat>)
    requires StateOf(d).Some?
  {
    InstallError(d, Sha256(text), text, meta, Rotate(StateOf(d).value, Sha256(text)), fault).None?
  }

  method ActivateStage(store: Store, text: string, meta: string, dryRun: bool, stuck: set<FileName>, fault: Option<nat>)
    returns (status: Status, pruned: seq<FileName>)
    requires StateOf(store.disk).Some? && StateOf(store.disk).value.current != Some(Sha256(text))
    modifies store
    ensures status == ActivationStatus(dryRun, Accepted(old(store.disk), text, meta, fault))
    ensures if dryRun then store.disk == old(store.disk)
            else ActivatedTo(old(store.disk), store.disk, text, meta, pruned, stuck, fault)
  {
    var change := store.Activate(text, meta, dryRun, stuck, fault);
    if change.Refused? {
      return Failed, [];
    }
    return if dryRun then Skipped else Passed, change.pruned;
  }
}
