/**
 What the artifact store keeps at every step, through crashes and over whole runs.
 */
module StoreSafety {
  import opened Wrappers
  import opened ArtifactStore

  ghost predicate WellShaped(s: SourceState)
  {
    && (s.previous.Some? ==> s.current.Some? && s.current != s.previous)
    && (s.backup.Some? ==> s.previous.Some?)
  }

  // Every artifact file holds the text it is named after, every metadata file parses, and every artifact
  // the state names is there.
  ghost predicate Sound(d: Disk)
  {
    && StateOf(d).Some?
    && WellShaped(StateOf(d).value)
    && (forall h | Text(h) in d :: ReadError(d, h).None?)
    && (forall h | Meta(h) in d :: d[Meta(h)].Data?)
    && (forall h | h in StateOf(d).value.Retained() :: Text(h) in d && Meta(h) in d)
  }

  ghost predicate AllSound(trace: seq<Disk>)
  {
    forall i | 0 <= i < |trace| :: Sound(trace[i])
  }

  // ------------------------------------------------------------------------ one step

  predicate IsTemp(f: FileName)
  {
    f.TempText? || f.TempMeta? || f.TempState?
  }

  lemma {:induction false} TempWriteIsSound(d: Disk, temp: FileName, content: Content)
    requires Sound(d) && IsTemp(temp)
    ensures Sound(d[temp := content]) && StateOf(d[temp := content]) == StateOf(d)
  {
  }

  lemma {:induction false} WriteTraceIsSound(d: Disk, temp: FileName, target: FileName, content: Content)
    requires Sound(d) && IsTemp(temp)
    requires Sound(WriteResult(d, temp, target, content))
    ensures AllSound(WriteTrace(d, temp, target, content))
  {
    TempWriteIsSound(d, temp, Torn);
    TempWriteIsSound(d, temp, content);
  }

  lemma {:induction false} StagingIsSound(d: Disk, text: string, meta: string)
    requires Sound(d)
    ensures var sha := Sha256(text);
            && Sound(Staged(d, sha, text, meta))
            && StateOf(Staged(d, sha, text, meta)) == StateOf(d)
            && Text(sha) in Staged(d, sha, text, meta) && Meta(sha) in Staged(d, sha, text, meta)
            && AllSound(StageTrace(d, sha, text, meta))
  {
    var sha := Sha256(text);
    var d1 := if Text(sha) in d then d else WriteResult(d, TempText(sha), Text(sha), Data(text));
    if Text(sha) !in d {
      assert Sound(d1);
      WriteTraceIsSound(d, TempText(sha), Text(sha), Data(text));
    }
    WriteTraceIsSound(d1, TempMeta(sha), Meta(sha), Data(meta));
  }

  lemma {:induction false} CommitIsSound(d: Disk, after: SourceState)
    requires Sound(d) && WellShaped(after)
    requires forall h | h in after.Retained() :: Text(h) in d && Meta(h) in d
    ensures Sound(Committed(d, after)) && StateOf(Committed(d, after)) == Some(after)
    ensures AllSound(CommitTrace(d, after))
  {
    assert forall h :: Text(h) in Committed(d, after) <==> Text(h) in d;
    WriteTraceIsSound(d, TempState, StateFile, State(after));
  }

  lemma {:induction false} PruneIsSound(d: Disk, paths: seq<FileName>, stuck: set<FileName>)
    requires Sound(d)
    requires forall f | f in paths :: IsPrunable(f, StateOf(d).value.Retained())
    ensures AllSound(PruneTrace(d, paths, stuck))
    ensures Sound(Last(d, PruneTrace(d, paths, stuck)))
    ensures forall i | 0 <= i < |PruneTrace(d, paths, stuck)| :: StateOf(PruneTrace(d, paths, stuck)[i]) == StateOf(d)
  {
    if paths != [] {
      var next := if paths[0] in stuck then d else d - {paths[0]};
      assert paths[0] in paths;
      assert StateOf(next) == StateOf(d);
      assert Sound(next) && StateOf(next) == StateOf(d);
      PruneIsSound(next, paths[1..], stuck);
    }
  }

  lemma {:induction false} RotateIsWellShaped(s: SourceState, sha: Digest)
    requires WellShaped(s)
    ensures WellShaped(Rotate(s, sha))
    ensures Rotate(Rotate(s, sha), sha) == Rotate(s, sha)
    ensures forall h | h in Rotate(s, sha).Retained() :: h == sha || h in s.Retained()
  {
  }

  // At every step of an activation the directory is sound, and its three pointers are the old ones
  // or the new ones, old ones first.
  lemma {:induction false} ActivateIsSound(d: Disk, text: string, meta: string, paths: seq<FileName>, stuck: set<FileName>)
    requires Sound(d)
    requires forall f | f in paths :: IsPrunable(f, Rotate(StateOf(d).value, Sha256(text)).Retained())
    ensures AllSound(ActivateTrace(d, text, meta, paths, stuck))
    ensures forall i | 0 <= i < |ActivateTrace(d, text, meta, paths, stuck)| ::
              || StateOf(ActivateTrace(d, text, meta, paths, stuck)[i]) == StateOf(d)
              || StateOf(ActivateTrace(d, text, meta, paths, stuck)[i]) == Some(Rotate(StateOf(d).value, Sha256(text)))
    ensures StateOf(Last(d, ActivateTrace(d, text, meta, paths, stuck))) == Some(Rotate(StateOf(d).value, Sha256(text)))
  {
    var sha := Sha256(text);
    var s := StateOf(d).value;
    if s.current != Some(sha) {
      var after := Rotate(s, sha);
      var staged := Staged(d, sha, text, meta);
      RotateIsWellShaped(s, sha);
      StagingIsSound(d, text, meta);
      StagingKeepsState(d, text, meta);
      CommitIsSound(staged, after);
      CommitStates(staged, after);
      PruneIsSound(Committed(staged, after), paths, stuck);
    }
  }

  lemma {:induction false} StagingKeepsState(d: Disk, text: string, meta: string)
    ensures forall i | 0 <= i < |StageTrace(d, Sha256(text), text, meta)| ::
              StateOf(StageTrace(d, Sha256(text), text, meta)[i]) == StateOf(d)
    ensures Text(Sha256(text)) in d ==> Staged(d, Sha256(text), text, meta) == Last(d, StageTrace(d, Sha256(text), text, meta))
  {
  }

  lemma {:induction false} CommitStates(d: Disk, after: SourceState)
    ensures forall i | 0 <= i < 2 :: StateOf(CommitTrace(d, after)[i]) == StateOf(d)
    ensures CommitTrace(d, after)[2] == Committed(d, after) && StateOf(Committed(d, after)) == Some(after)
  {
  }

  // At every step of a rollback the directory is sound and its pointers are the old ones or the
  // swapped ones; the last step leaves the swapped ones.
  lemma {:induction false} RollbackIsSound(d: Disk)
    requires Sound(d)
    ensures AllSound(RollbackTrace(d))
    ensures forall i | 0 <= i < |RollbackTrace(d)| ::
              StateOf(RollbackTrace(d)[i]) == StateOf(d) || StateOf(RollbackTrace(d)[i]) == Some(Swap(StateOf(d).value))
    ensures StateOf(d).value.previous.Some? ==>
              && RollbackTrace(d) == CommitTrace(d, Swap(StateOf(d).value))
              && Last(d, RollbackTrace(d)) == Committed(d, Swap(StateOf(d).value))
              && StateOf(Last(d, RollbackTrace(d))) == Some(Swap(StateOf(d).value))
  {
    var s := StateOf(d).value;
    if s.previous.Some? {
      assert s.previous.value in s.Retained();
      assert WellShaped(Swap(s)) && Swap(s).Retained() == s.Retained();
      CommitIsSound(d, Swap(s));
      CommitStates(d, Swap(s));
    }
  }

  // ---------------------------------------------------------------------- what is lost

  // A step that makes a file disappear removes a temporary file, or an artifact the state on disk
  // does not name.
  ghost predicate LosesOnlyGarbage(before: Disk, after: Disk)
  {
    forall f | f in before && f !in after ::
      IsTemp(f) || (StateOf(before).Some? && IsPrunable(f, StateOf(before).value.Retained()))
  }

  function Before(d: Disk, trace: seq<Disk>, i: nat): Disk
    requires i < |trace|
  {
    if i == 0 then d else trace[i - 1]
  }

  ghost predicate StepsLoseOnlyGarbage(d: Disk, trace: seq<Disk>)
  {
    forall i | 0 <= i < |trace| :: LosesOnlyGarbage(Before(d, trace, i), trace[i])
  }

  lemma {:induction false} WriteLosesOnlyGarbage(d: Disk, temp: FileName, target: FileName, content: Content)
    requires IsTemp(temp)
    ensures StepsLoseOnlyGarbage(d, WriteTrace(d, temp, target, content))
    ensures Last(d, WriteTrace(d, temp, target, content)) == WriteResult(d, temp, target, content)
  {
    assert LosesOnlyGarbage(d, d[temp := Torn]);
    assert LosesOnlyGarbage(d[temp := Torn], d[temp := content]);
    assert LosesOnlyGarbage(d[temp := content], WriteResult(d, temp, target, content));
  }

  lemma {:induction false} PruneLosesOnlyGarbage(d: Disk, paths: seq<FileName>, stuck: set<FileName>)
    requires StateOf(d).Some?
    requires forall f | f in paths :: IsPrunable(f, StateOf(d).value.Retained())
    ensures StepsLoseOnlyGarbage(d, PruneTrace(d, paths, stuck))
  {
    if paths != [] {
      var next := if paths[0] in stuck then d else d - {paths[0]};
      assert paths[0] in paths;
      assert StateOf(next) == StateOf(d);
      PruneLosesOnlyGarbage(next, paths[1..], stuck);
      var rest := PruneTrace(next, paths[1..], stuck);
      assert LosesOnlyGarbage(d, next);
      forall i | 0 <= i < |rest| + 1
        ensures LosesOnlyGarbage(Before(d, [next] + rest, i), ([next] + rest)[i])
      {
        if i > 0 {
          assert LosesOnlyGarbage(Before(next, rest, i - 1), rest[i - 1]);
        }
      }
    }
  }

  lemma {:induction false} JoinTraces(d: Disk, a: seq<Disk>, b: seq<Disk>)
    requires StepsLoseOnlyGarbage(d, a) && StepsLoseOnlyGarbage(Last(d, a), b)
    ensures StepsLoseOnlyGarbage(d, a + b)
    ensures Last(d, a + b) == Last(Last(d, a), b)
  {
    var t := a + b;
    forall i | 0 <= i < |t|
      ensures LosesOnlyGarbage(Before(d, t, i), t[i])
    {
      if i >= |a| {
        assert Before(d, t, i) == Before(Last(d, a), b, i - |a|);
        assert t[i] == b[i - |a|];
      } else {
        assert Before(d, t, i) == Before(d, a, i);
      }
    }
  }

  lemma {:induction false} StagingLosesOnlyGarbage(d: Disk, sha: Digest, text: string, meta: string)
    ensures StepsLoseOnlyGarbage(d, StageTrace(d, sha, text, meta))
    ensures Last(d, StageTrace(d, sha, text, meta)) == Staged(d, sha, text, meta)
  {
    if Text(sha) in d {
      WriteLosesOnlyGarbage(d, TempMeta(sha), Meta(sha), Data(meta));
    } else {
      var d1 := WriteResult(d, TempText(sha), Text(sha), Data(text));
      WriteLosesOnlyGarbage(d, TempText(sha), Text(sha), Data(text));
      WriteLosesOnlyGarbage(d1, TempMeta(sha), Meta(sha), Data(meta));
      JoinTraces(d, WriteTrace(d, TempText(sha), Text(sha), Data(text)),
                 WriteTrace(d1, TempMeta(sha), Meta(sha), Data(meta)));
    }
  }

  // Nothing an activation removes is named by the state that is on disk at that moment.
  lemma {:induction false} ActivateLosesOnlyGarbage(
    d: Disk, text: string, meta: string, paths: seq<FileName>, stuck: set<FileName>)
    requires Sound(d)
    requires forall f | f in paths :: IsPrunable(f, Rotate(StateOf(d).value, Sha256(text)).Retained())
    ensures StepsLoseOnlyGarbage(d, ActivateTrace(d, text, meta, paths, stuck))
  {
    var sha := Sha256(text);
    var s := StateOf(d).value;
    if s.current != Some(sha) {
      var after := Rotate(s, sha);
      var staged := Staged(d, sha, text, meta);
      StagingLosesOnlyGarbage(d, sha, text, meta);
      StagingIsSound(d, text, meta);
      WriteLosesOnlyGarbage(staged, TempState, StateFile, State(after));
      CommitStates(staged, after);
      PruneLosesOnlyGarbage(Committed(staged, after), paths, stuck);
      JoinTraces(staged, CommitTrace(staged, after), PruneTrace(Committed(staged, after), paths, stuck));
      JoinTraces(d, StageTrace(d, sha, text, meta),
        CommitTrace(staged, after) + PruneTrace(Committed(staged, after), paths, stuck));
    }
  }

  // ------------------------------------------------------------------ runs with crashes

  // One call, cut off after `steps` file-system steps (a large number: not cut off).
  datatype Call =
    | Activate(text: string, meta: string, paths: seq<FileName>, stuck: set<FileName>, steps: nat)
    | Rollback(steps: nat)
    | Reconcile(paths: seq<FileName>, stuck: set<FileName>, steps: nat)

  function CallTrace(d: Disk, call: Call): seq<Disk>
  {
    match call
    case Activate(text, meta, paths, stuck, _) => ActivateTrace(d, text, meta, paths, stuck)
    case Rollback(_) => RollbackTrace(d)
    case Reconcile(paths, stuck, _) => if StateOf(d).None? then [] else PruneTrace(d, paths, stuck)
  }

  // The list of files to delete is what the directory scan finds.
  ghost predicate ScansDirectory(d: Disk, call: Call)
  {
    match call
    case Activate(text, _, paths, _, _) =>
      StateOf(d).Some? ==> ListsPrunable(paths, d, Rotate(StateOf(d).value, Sha256(text)).Retained())
    case Rollback(_) => true
    case Reconcile(paths, _, _) =>
      StateOf(d).Some? ==> ListsPrunable(paths, d, StateOf(d).value.Retained())
  }

  ghost predicate IsRun(disks: seq<Disk>, calls: seq<Call>)
  {
    && |disks| == |calls| + 1
    && forall i | 0 <= i < |calls| ::
         ScansDirectory(disks[i], calls[i]) &&
         disks[i + 1] == Cut(disks[i], CallTrace(disks[i], calls[i]), calls[i].steps)
  }

  lemma {:induction false} CallIsSound(d: Disk, call: Call)
    requires Sound(d) && ScansDirectory(d, call)
    ensures AllSound(CallTrace(d, call))
    ensures StepsLoseOnlyGarbage(d, CallTrace(d, call))
  {
    match call
    case Activate(text, meta, paths, stuck, _) =>
      ActivateIsSound(d, text, meta, paths, stuck);
      ActivateLosesOnlyGarbage(d, text, meta, paths, stuck);
    case Rollback(_) =>
      RollbackIsSound(d);
      if StateOf(d).value.previous.Some? {
        WriteLosesOnlyGarbage(d, TempState, StateFile, State(Swap(StateOf(d).value)));
      }
    case Reconcile(paths, stuck, _) =>
      PruneIsSound(d, paths, stuck);
      PruneLosesOnlyGarbage(d, paths, stuck);
  }

  // From a sound directory, whatever is called and wherever it crashes, the directory stays sound:
  // the three pointers are well shaped and each one has its verified text and its metadata.
  lemma {:induction false} EveryRunIsSound(disks: seq<Disk>, calls: seq<Call>)
    requires IsRun(disks, calls) && Sound(disks[0])
    ensures AllSound(disks)
  {
    if calls != [] {
      var n := |calls| - 1;
      EveryRunIsSound(disks[..n + 1], calls[..n]);
      assert Sound(disks[..n + 1][n]);
      CallIsSound(disks[n], calls[n]);
    }
  }

  // So it is in every run from an empty store.
  lemma {:induction false} RunsFromAnEmptyStore(disks: seq<Disk>, calls: seq<Call>)
    requires IsRun(disks, calls) && disks[0] == map[]
    ensures AllSound(disks)
  {
    EmptyStoreIsSound();
    EveryRunIsSound(disks, calls);
  }

  lemma {:induction false} EmptyStoreIsSound()
    ensures Sound(map[])
  {
  }

  // ---------------------------------------------------------------------------- retry

  // An activation attempted again and again, each attempt cut off somewhere.
  ghost predicate IsRetry(disks: seq<Disk>, calls: seq<Call>, text: string)
  {
    IsRun(disks, calls) && forall c | c in calls :: c.Activate? && c.text == text
  }

  lemma {:induction false} RetriesRotateAtMostOnce(disks: seq<Disk>, calls: seq<Call>, text: string)
    requires IsRetry(disks, calls, text) && Sound(disks[0])
    ensures Sound(disks[|calls|])
    ensures StateOf(disks[|calls|]) == StateOf(disks[0])
            || StateOf(disks[|calls|]) == Some(Rotate(StateOf(disks[0]).value, Sha256(text)))
  {
    if calls != [] {
      var n := |calls| - 1;
      RetriesRotateAtMostOnce(disks[..n + 1], calls[..n], text);
      var c := calls[n];
      assert c in calls && disks[..n + 1][n] == disks[n];
      ActivateIsSound(disks[n], text, c.meta, c.paths, c.stuck);
      RotateIsWellShaped(StateOf(disks[0]).value, Sha256(text));
    }
  }

  // However often an activation crashed, the attempt that completes leaves the pointers where one
  // uninterrupted call would have left them.
  lemma {:induction false} RetriedActivationRotatesOnce(disks: seq<Disk>, calls: seq<Call>, text: string)
    requires IsRetry(disks, calls, text) && Sound(disks[0])
    requires calls != []
    requires var n := |calls| - 1; calls[n].steps >= |CallTrace(disks[n], calls[n])|
    ensures StateOf(disks[|calls|]) == Some(Rotate(StateOf(disks[0]).value, Sha256(text)))
  {
    var n := |calls| - 1;
    EarlierRetries(disks, calls, text);
    RetriesRotateAtMostOnce(disks[..n + 1], calls[..n], text);
    CompletedActivation(disks[n], calls[n], text, disks[n + 1]);
    RotateIsWellShaped(StateOf(disks[0]).value, Sha256(text));
  }

  lemma {:induction false} EarlierRetries(disks: seq<Disk>, calls: seq<Call>, text: string)
    requires IsRetry(disks, calls, text) && calls != []
    ensures var n := |calls| - 1;
            && IsRetry(disks[..n + 1], calls[..n], text) && disks[..n + 1][n] == disks[n] && disks[..n + 1][0] == disks[0]
            && calls[n].Activate? && calls[n].text == text && ScansDirectory(disks[n], calls[n])
            && disks[n + 1] == Cut(disks[n], CallTrace(disks[n], calls[n]), calls[n].steps)
  {
    var n := |calls| - 1;
    assert calls[n] in calls;
    forall c | c in calls[..n]
      ensures c in calls
    {
    }
  }

  // An activation that is not cut off makes its text current, and only once.
  lemma {:induction false} CompletedActivation(d: Disk, c: Call, text: string, after: Disk)
    requires Sound(d) && c.Activate? && c.text == text && ScansDirectory(d, c)
    requires c.steps >= |CallTrace(d, c)| && after == Cut(d, CallTrace(d, c), c.steps)
    ensures StateOf(after) == Some(Rotate(StateOf(d).value, Sha256(text)))
    ensures Rotate(Rotate(StateOf(d).value, Sha256(text)), Sha256(text)) == Rotate(StateOf(d).value, Sha256(text))
  {
    ActivateIsSound(d, text, c.meta, c.paths, c.stuck);
    assert Cut(d, CallTrace(d, c), c.steps) == Last(d, CallTrace(d, c));
  }

  // -------------------------------------------------------------------- rollback, cleanup

  // Rolling back twice restores the directory, except for a leftover temporary state file.
  lemma {:induction false} RollbackIsItsOwnInverse(d: Disk)
    requires Sound(d) && StateOf(d).value.previous.Some?
    ensures var once := Last(d, RollbackTrace(d));
            && StateOf(once) == Some(Swap(StateOf(d).value))
            && Last(once, RollbackTrace(once)) == d - {TempState}
  {
    var s := StateOf(d).value;
    RollbackIsSound(d);
    var once := Committed(d, Swap(s));
    assert s.previous.value in s.Retained();
    CommitIsSound(d, Swap(s));
    RollbackIsSound(once);
    assert Swap(Swap(s)) == s;
    assert d[StateFile] == State(s);
  }

  predicate IsStoreNamed(f: FileName)
  {
    f.Text? || f.Meta? || f.TempText? || f.TempMeta?
  }

  lemma {:induction false} PruneRemovesExactly(d: Disk, paths: seq<FileName>, f: FileName)
    ensures f in Last(d, PruneTrace(d, paths, {})) <==> f in d && f !in paths
  {
    if paths != [] {
      PruneRemovesExactly(d - {paths[0]}, paths[1..], f);
    }
  }

  // One complete reconcile leaves exactly the retained artifacts, text and metadata, among the files
  // the store can name.
  lemma {:induction false} ReconcileLeavesRetained(d: Disk, paths: seq<FileName>, f: FileName)
    requires Sound(d) && ListsPrunable(paths, d, StateOf(d).value.Retained())
    requires IsStoreNamed(f)
    ensures f in Last(d, PruneTrace(d, paths, {})) <==>
            (f.Text? || f.Meta?) && f.sha in StateOf(d).value.Retained()
  {
    PruneRemovesExactly(d, paths, f);
  }

  // Activating three different texts in turn keeps three versions. "Exactly three versions are kept"
  // is not true of every history: activating the previous text again leaves backup equal to current.
  lemma {:induction false} VersionsKept(s: SourceState, sha: Digest)
    requires WellShaped(s) && s.previous.Some? && s.current != Some(sha)
    ensures |Rotate(s, sha).Retained()| == 3 <==> s.previous != Some(sha)
  {
    var a, b, c := sha, s.current.value, s.previous.value;
    assert Rotate(s, sha).Retained() == {a, b, c};
    if a == c {
      assert {a, b, c} == {a, b};
    } else {
      assert {a, b, c} == {a} + {b} + {c};
    }
  }
}
