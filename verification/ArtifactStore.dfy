/**
 The crash-safe store of one blocklist source (storage/artifacts.py).

 The directory is a map from file names to contents. Every system call that changes it is one step:
 opening and writing the temporary file (torn, then complete), the rename, one unlink. An operation
 is the list of directories it passes through, its trace; a crash, or a call that raises, leaves the
 directory of some prefix of the trace.
 */
module ArtifactStore {
  import opened Wrappers

  // SHA-256 as a free constructor: equal digests mean equal texts, and nothing looks inside.
  datatype Digest = Sha256(text: string)

  datatype FileName =
    | Text(sha: Digest)       // artifacts/<sha>.txt
    | Meta(sha: Digest)       // artifacts/<sha>.json
    | TempText(sha: Digest)   // artifacts/.<sha>.txt.tmp
    | TempMeta(sha: Digest)   // artifacts/.<sha>.json.tmp
    | StateFile               // state.json
    | TempState               // .state.json.tmp
    | Other(name: string)     // anything else, never touched

  datatype SourceState = SourceState(current: Option<Digest>, previous: Option<Digest>, backup: Option<Digest>)
  {
    function Retained(): set<Digest>
    {
      (if current.Some? then {current.value} else {})
      + (if previous.Some? then {previous.value} else {})
      + (if backup.Some? then {backup.value} else {})
    }
  }

  const NO_STATE := SourceState(None, None, None)

  // Torn: half written, or damaged so that it does not parse.
  datatype Content = Data(text: string) | State(state: SourceState) | Torn

  type Disk = map<FileName, Content>

  datatype StoreError = CorruptState | Missing | IntegrityFailure | NothingToRollBack | WriteFailed | BadMetadata

  datatype StoreResult =
    | Changed(before: SourceState, after: SourceState, wroteArtifact: bool, pruned: seq<FileName>)
    | Refused(error: StoreError)

  // None: the state file is there and does not parse.
  function StateOf(d: Disk): Option<SourceState>
  {
    if StateFile !in d then Some(NO_STATE)
    else if d[StateFile].State? then Some(d[StateFile].state)
    else None
  }

  function ReadError(d: Disk, sha: Digest): Option<StoreError>
  {
    if Text(sha) !in d then Some(Missing)
    else if !d[Text(sha)].Data? || Sha256(d[Text(sha)].text) != sha then Some(IntegrityFailure)
    else if MetadataParses(d, sha) then None
    else Some(BadMetadata)
  }

  // A metadata file is not needed, but when it is there json.loads must take it.
  predicate MetadataParses(d: Disk, sha: Digest)
  {
    Meta(sha) in d ==> d[Meta(sha)].Data?
  }

  // What the store may ever delete, given what it keeps.
  predicate IsPrunable(f: FileName, keep: set<Digest>)
  {
    match f
    case Text(sha) => sha !in keep
    case Meta(sha) => sha !in keep
    case TempText(_) => true
    case TempMeta(_) => true
    case _ => false
  }

  predicate ListsPrunable(paths: seq<FileName>, d: Disk, keep: set<Digest>)
  {
    && (forall f | f in paths :: f in d && IsPrunable(f, keep))
    && (forall f | f in d && IsPrunable(f, keep) :: f in paths)
  }

  // --------------------------------------------------------------------------- traces

  function Last(d: Disk, trace: seq<Disk>): Disk
  {
    if trace == [] then d else trace[|trace| - 1]
  }

  // The directory after a crash that lets the first `steps` steps happen.
  function Cut(d: Disk, trace: seq<Disk>, steps: nat): Disk
  {
    if steps == 0 then d else if steps <= |trace| then trace[steps - 1] else Last(d, trace)
  }

  function WriteTrace(d: Disk, temp: FileName, target: FileName, content: Content): seq<Disk>
  {
    [d[temp := Torn], d[temp := content], (d - {temp})[target := content]]
  }

  function WriteResult(d: Disk, temp: FileName, target: FileName, content: Content): Disk
  {
    (d - {temp})[target := content]
  }

  // Unlinking `paths` one by one; the ones in `stuck` raise OSError and are skipped.
  function PruneTrace(d: Disk, paths: seq<FileName>, stuck: set<FileName>): seq<Disk>
  {
    if paths == [] then []
    else
      var next := if paths[0] in stuck then d else d - {paths[0]};
      [next] + PruneTrace(next, paths[1..], stuck)
  }

  function Rotate(before: SourceState, sha: Digest): SourceState
  {
    if before.current == Some(sha) then before else SourceState(Some(sha), before.current, before.previous)
  }

  function Swap(before: SourceState): SourceState
  {
    SourceState(before.previous, before.current, before.backup)
  }

  // The disk when the new artifact and its metadata are written and nothing refers to them yet.
  function Staged(d: Disk, sha: Digest, text: string, meta: string): Disk
  {
    WriteResult(if Text(sha) in d then d else WriteResult(d, TempText(sha), Text(sha), Data(text)),
                TempMeta(sha), Meta(sha), Data(meta))
  }

  function StageTrace(d: Disk, sha: Digest, text: string, meta: string): seq<Disk>
  {
    if Text(sha) in d then WriteTrace(d, TempMeta(sha), Meta(sha), Data(meta))
    else WriteTrace(d, TempText(sha), Text(sha), Data(text))
         + WriteTrace(WriteResult(d, TempText(sha), Text(sha), Data(text)), TempMeta(sha), Meta(sha), Data(meta))
  }

  function CommitTrace(d: Disk, after: SourceState): seq<Disk>
  {
    WriteTrace(d, TempState, StateFile, State(after))
  }

  function Committed(d: Disk, after: SourceState): Disk
  {
    WriteResult(d, TempState, StateFile, State(after))
  }

  function ActivateTrace(d: Disk, text: string, meta: string, paths: seq<FileName>, stuck: set<FileName>): seq<Disk>
  {
    var sha := Sha256(text);
    if StateOf(d).None? || StateOf(d).value.current == Some(sha) then []
    else
      InstallTrace(d, sha, text, meta, Rotate(StateOf(d).value, sha), paths, stuck)
  }

  function InstallTrace(
    d: Disk, sha: Digest, text: string, meta: string, after: SourceState, paths: seq<FileName>, stuck: set<FileName>): seq<Disk>
  {
    var staged := Staged(d, sha, text, meta);
    if ReadError(staged, sha).Some? then StageTrace(d, sha, text, meta)
    else StageTrace(d, sha, text, meta)
         + (CommitTrace(staged, after) + PruneTrace(Committed(staged, after), paths, stuck))
  }

  // The writes of an activation: what it does before it deletes anything.
  function InstallWrites(d: Disk, sha: Digest, text: string, meta: string, after: SourceState): seq<Disk>
  {
    var staged := Staged(d, sha, text, meta);
    StageTrace(d, sha, text, meta) + (if ReadError(staged, sha).Some? then [] else CommitTrace(staged, after))
  }

  // --------------------------------------------------------------------------- faults

  // `fault` counts the system calls that succeed before one raises OSError; None: none raises.
  predicate Fails(trace: seq<Disk>, fault: Option<nat>)
  {
    fault.Some? && fault.value < |trace|
  }

  function Done(trace: seq<Disk>, fault: Option<nat>): seq<Disk>
  {
    if Fails(trace, fault) then trace[..fault.value] else trace
  }

  function Left(fault: Option<nat>, steps: nat): Option<nat>
  {
    if fault.None? then None else Some(if fault.value >= steps then fault.value - steps else 0)
  }

  lemma {:induction false} DoneJoin(a: seq<Disk>, b: seq<Disk>, fault: Option<nat>)
    ensures Fails(a + b, fault) <==> Fails(a, fault) || Fails(b, Left(fault, |a|))
    ensures Done(a + b, fault) == if Fails(a, fault) then Done(a, fault) else a + Done(b, Left(fault, |a|))
  {
    if Fails(a, fault) {
      assert (a + b)[..fault.value] == a[..fault.value];
    } else if Fails(a + b, fault) {
      assert (a + b)[..fault.value] == a + b[..fault.value - |a|];
    }
  }

  lemma {:induction false} LastJoin(d: Disk, a: seq<Disk>, b: seq<Disk>)
    ensures Last(d, a + b) == Last(Last(d, a), b)
  {
  }

  // The steps an activation takes: all of them, or its writes up to the one that raises.
  function InstallSteps(
    d: Disk, sha: Digest, text: string, meta: string, after: SourceState, paths: seq<FileName>, stuck: set<FileName>,
    fault: Option<nat>): seq<Disk>
  {
    var writes := InstallWrites(d, sha, text, meta, after);
    if Fails(writes, fault) then Done(writes, fault) else InstallTrace(d, sha, text, meta, after, paths, stuck)
  }

  function ActivateSteps(
    d: Disk, text: string, meta: string, paths: seq<FileName>, stuck: set<FileName>, fault: Option<nat>): seq<Disk>
  {
    var sha := Sha256(text);
    if StateOf(d).None? || StateOf(d).value.current == Some(sha) then []
    else InstallSteps(d, sha, text, meta, Rotate(StateOf(d).value, sha), paths, stuck, fault)
  }

  // Why an activation that writes is refused.
  function InstallError(d: Disk, sha: Digest, text: string, meta: string, after: SourceState, fault: Option<nat>)
    : Option<StoreError>
  {
    var broken := ReadError(Staged(d, sha, text, meta), sha);
    if !Fails(StageTrace(d, sha, text, meta), fault) && broken.Some? then broken
    else if Fails(InstallWrites(d, sha, text, meta, after), fault) then Some(WriteFailed)
    else None
  }

  // An activation that raises leaves what a crash at that point would leave.
  lemma {:induction false} StepsAreACut(
    d: Disk, text: string, meta: string, paths: seq<FileName>, stuck: set<FileName>, fault: Option<nat>)
    ensures var trace := ActivateTrace(d, text, meta, paths, stuck);
            exists steps: nat :: Last(d, ActivateSteps(d, text, meta, paths, stuck, fault)) == Cut(d, trace, steps)
  {
    var sha, trace := Sha256(text), ActivateTrace(d, text, meta, paths, stuck);
    var steps := ActivateSteps(d, text, meta, paths, stuck, fault);
    if steps != trace {
      WritesComeFirst(d, sha, text, meta, Rotate(StateOf(d).value, sha), paths, stuck);
      assert steps == trace[..|steps|];
    }
    assert Last(d, steps) == Cut(d, trace, |steps|);
  }

  lemma {:induction false} WritesComeFirst(
    d: Disk, sha: Digest, text: string, meta: string, after: SourceState, paths: seq<FileName>, stuck: set<FileName>)
    ensures InstallWrites(d, sha, text, meta, after) <= InstallTrace(d, sha, text, meta, after, paths, stuck)
  {
  }

  // A refused activation deletes nothing.
  lemma {:induction false} RefusedSteps(
    d: Disk, sha: Digest, text: string, meta: string, after: SourceState, paths: seq<FileName>, stuck: set<FileName>,
    fault: Option<nat>)
    requires InstallError(d, sha, text, meta, after, fault).Some?
    ensures InstallSteps(d, sha, text, meta, after, paths, stuck, fault) ==
            InstallSteps(d, sha, text, meta, after, [], stuck, fault)
  {
  }

  lemma {:induction false} JoinHistory(history: seq<Disk>, a: seq<Disk>, b: seq<Disk>)
    ensures history + a + b == history + (a + b)
  {
  }

  function RollbackTrace(d: Disk): seq<Disk>
  {
    if StateOf(d).None? || StateOf(d).value.previous.None? || ReadError(d, StateOf(d).value.previous.value).Some? then []
    else CommitTrace(d, Swap(StateOf(d).value))
  }

  // ---------------------------------------------------------------------------- store

  class Store {
    var disk: Disk
    ghost var history: seq<Disk>   // every directory so far, oldest first

    constructor ()
      ensures disk == map[] && history == []
    {
      disk, history := map[], [];
    }

    // Opening the temporary file, writing it out and renaming it can each raise.
    method AtomicWrite(temp: FileName, target: FileName, content: Content, fault: Option<nat>) returns (ok: bool)
      modifies this
      ensures var trace := WriteTrace(old(disk), temp, target, content);
              && (ok <==> !Fails(trace, fault))
              && disk == Last(old(disk), Done(trace, fault)) && history == old(history) + Done(trace, fault)
      ensures ok ==> disk == WriteResult(old(disk), temp, target, content)
    {
      ghost var d := disk;
      if fault == Some(0) {
        return false;
      }
      disk := disk[temp := Torn];
      history := history + [disk];
      if fault == Some(1) {
        return false;
      }
      disk := disk[temp := content];
      history := history + [disk];
      assert d[temp := Torn][temp := content] == d[temp := content];
      if fault == Some(2) {
        return false;
      }
      disk := (disk - {temp})[target := content];
      history := history + [disk];
      assert d[temp := content] - {temp} == d - {temp};
      return true;
    }

    method Prunable(keep: set<Digest>) returns (paths: seq<FileName>)
      ensures ListsPrunable(paths, disk, keep)
    {
      paths := [];
      var rest := disk.Keys;
      while rest != {}
        invariant rest <= disk.Keys
        invariant forall f | f in paths :: f in disk && IsPrunable(f, keep)
        invariant forall f | f in disk && f !in rest && IsPrunable(f, keep) :: f in paths
        decreases |rest|
      {
        var f :| f in rest;
        rest := rest - {f};
        if IsPrunable(f, keep) {
          paths := paths + [f];
        }
      }
    }

    method Prune(paths: seq<FileName>, stuck: set<FileName>)
      modifies this
      ensures disk == Last(old(disk), PruneTrace(old(disk), paths, stuck))
      ensures history == old(history) + PruneTrace(old(disk), paths, stuck)
    {
      for i := 0 to |paths|
        invariant history + PruneTrace(disk, paths[i..], stuck) == old(history) + PruneTrace(old(disk), paths, stuck)
        invariant Last(disk, PruneTrace(disk, paths[i..], stuck)) == Last(old(disk), PruneTrace(old(disk), paths, stuck))
      {
        assert paths[i..][0] == paths[i] && paths[i..][1..] == paths[i + 1..];
        ghost var before, soFar := disk, history;
        if paths[i] !in stuck {
          disk := disk - {paths[i]};
        }
        history := history + [disk];
        assert PruneTrace(before, paths[i..], stuck) == [disk] + PruneTrace(disk, paths[i + 1..], stuck);
        assert soFar + ([disk] + PruneTrace(disk, paths[i + 1..], stuck)) == history + PruneTrace(disk, paths[i + 1..], stuck);
      }
    }

    method WriteArtifact(sha: Digest, text: string, meta: string, writeNeeded: bool, fault: Option<nat>) returns (ok: bool)
      requires writeNeeded <==> Text(sha) !in disk
      modifies this
      ensures var trace := StageTrace(old(disk), sha, text, meta);
              && (ok <==> !Fails(trace, fault))
              && disk == Last(old(disk), Done(trace, fault)) && history == old(history) + Done(trace, fault)
      ensures ok ==> disk == Staged(old(disk), sha, text, meta)
    {
      if !writeNeeded {
        ok := AtomicWrite(TempMeta(sha), Meta(sha), Data(meta), fault);
        return;
      }
      ghost var d, h := disk, history;
      ghost var first := WriteTrace(d, TempText(sha), Text(sha), Data(text));
      ok := AtomicWrite(TempText(sha), Text(sha), Data(text), fault);
      ghost var second := WriteTrace(WriteResult(d, TempText(sha), Text(sha), Data(text)), TempMeta(sha), Meta(sha), Data(meta));
      DoneJoin(first, second, fault);
      if ok {
        ok := AtomicWrite(TempMeta(sha), Meta(sha), Data(meta), Left(fault, 3));
        LastJoin(d, first, Done(second, Left(fault, 3)));
        JoinHistory(h, first, Done(second, Left(fault, 3)));
      }
    }

    // Pruning comes only after the new state is durable.
    method SwitchPointers(after: SourceState, prunable: seq<FileName>, stuck: set<FileName>, fault: Option<nat>)
      returns (ok: bool)
      modifies this
      ensures ok <==> !Fails(CommitTrace(old(disk), after), fault)
      ensures var commit := CommitTrace(old(disk), after);
              var trace := if ok then commit + PruneTrace(Committed(old(disk), after), prunable, stuck) else Done(commit, fault);
              disk == Last(old(disk), trace) && history == old(history) + trace
    {
      ok := AtomicWrite(TempState, StateFile, State(after), fault);
      if ok {
        Prune(prunable, stuck);
      }
    }

    // Make `text` current; current -> previous -> backup; older artifacts are pruned.
    method Activate(text: string, meta: string, dryRun: bool, stuck: set<FileName>, fault: Option<nat>) returns (r: StoreResult)
      modifies this
      ensures r.Refused? ==>
                if StateOf(old(disk)).None? then r.error == CorruptState
                else
                  Some(r.error) == InstallError(old(disk), Sha256(text), text, meta,
                                                Rotate(StateOf(old(disk)).value, Sha256(text)), fault)
      ensures r.Changed? ==>
                && StateOf(old(disk)) == Some(r.before)
                && r.after == Rotate(r.before, Sha256(text))
                && (r.before != r.after ==> ListsPrunable(r.pruned, old(disk), r.after.Retained()))
                && (r.before == r.after ==> r.pruned == [] && !r.wroteArtifact)
                && (r.before != r.after ==> (r.wroteArtifact <==> Text(Sha256(text)) !in old(disk)))
      ensures r.Refused? <==>
                (|| StateOf(old(disk)).None?
                 || (&& !dryRun && StateOf(old(disk)).value.current != Some(Sha256(text))
                     && InstallError(old(disk), Sha256(text), text, meta,
                                     Rotate(StateOf(old(disk)).value, Sha256(text)), fault).Some?))
      ensures dryRun ==> disk == old(disk) && history == old(history)
      ensures !dryRun ==>
                var steps := ActivateSteps(old(disk), text, meta, if r.Changed? then r.pruned else [], stuck, fault);
                disk == Last(old(disk), steps) && history == old(history) + steps
    {
      var sha := Sha256(text);
      if StateOf(disk).None? {
        return Refused(CorruptState);
      }
      var before := StateOf(disk).value;
      if before.current == Some(sha) {
        return Changed(before, before, false, []);
      }
      var after := SourceState(Some(sha), before.current, before.previous);
      var writeNeeded := Text(sha) !in disk;
      var prunable := Prunable(after.Retained());
      if !dryRun {
        ghost var d := disk;
        var error := Install(sha, text, meta, writeNeeded, after, prunable, stuck, fault);
        if error.Some? {
          RefusedSteps(d, sha, text, meta, after, prunable, stuck, fault);
          return Refused(error.value);
        }
      }
      return Changed(before, after, writeNeeded, prunable);
    }

    // The writing part: the artifact, its verification, the new pointers.
    method Install(
      sha: Digest, text: string, meta: string, writeNeeded: bool, after: SourceState, prunable: seq<FileName>,
      stuck: set<FileName>, fault: Option<nat>)
      returns (error: Option<StoreError>)
      requires writeNeeded <==> Text(sha) !in disk
      modifies this
      ensures error == InstallError(old(disk), sha, text, meta, after, fault)
      ensures var steps := InstallSteps(old(disk), sha, text, meta, after, prunable, stuck, fault);
              disk == Last(old(disk), steps) && history == old(history) + steps
    {
      ghost var d, h := disk, history;
      var ok := WriteArtifact(sha, text, meta, writeNeeded, fault);
      ghost var stage, staged := StageTrace(d, sha, text, meta), Staged(d, sha, text, meta);
      DoneJoin(stage, if ReadError(staged, sha).Some? then [] else CommitTrace(staged, after), fault);
      if !ok {
        return Some(WriteFailed);
      }
      error := ReadError(disk, sha);
      if error.Some? {
        assert stage + [] == stage;
        return;
      }
      ok := SwitchPointers(after, prunable, stuck, Left(fault, if writeNeeded then 6 else 3));
      ghost var commit := CommitTrace(staged, after);
      ghost var rest := if ok then commit + PruneTrace(Committed(staged, after), prunable, stuck)
                        else Done(commit, Left(fault, |stage|));
      LastJoin(d, stage, rest);
      JoinHistory(h, stage, rest);
      if !ok {
        error := Some(WriteFailed);
      }
    }

    // Swap current and previous; backup is kept.
    method Rollback(dryRun: bool, fault: Option<nat>) returns (r: StoreResult)
      modifies this
      ensures r.Refused? <==>
                (|| StateOf(old(disk)).None?
                 || StateOf(old(disk)).value.previous.None?
                 || ReadError(old(disk), StateOf(old(disk)).value.previous.value).Some?
                 || (!dryRun && Fails(RollbackTrace(old(disk)), fault)))
      ensures r.Refused? ==>
                if StateOf(old(disk)).None? then r.error == CorruptState
                else if StateOf(old(disk)).value.previous.None? then r.error == NothingToRollBack
                else
                  var broken := ReadError(old(disk), StateOf(old(disk)).value.previous.value);
                  r.error == if broken.Some? then broken.value else WriteFailed
      ensures r.Changed? ==>
                StateOf(old(disk)) == Some(r.before) && r.after == Swap(r.before) && !r.wroteArtifact && r.pruned == []
      ensures dryRun ==> disk == old(disk) && history == old(history)
      ensures !dryRun ==>
                var steps := Done(RollbackTrace(old(disk)), fault);
                disk == Last(old(disk), steps) && history == old(history) + steps
    {
      if StateOf(disk).None? {
        return Refused(CorruptState);
      }
      var before := StateOf(disk).value;
      if before.previous.None? {
        return Refused(NothingToRollBack);
      }
      var broken := ReadError(disk, before.previous.value);
      if broken.Some? {
        return Refused(broken.value);
      }
      var after := SourceState(before.previous, before.current, before.backup);
      if !dryRun {
        var ok := AtomicWrite(TempState, StateFile, State(after), fault);
        if !ok {
          return Refused(WriteFailed);
        }
      }
      return Changed(before, after, false, []);
    }

    // Delete whatever the state on disk does not refer to.
    method Reconcile(dryRun: bool, stuck: set<FileName>) returns (r: StoreResult)
      modifies this
      ensures r.Refused? <==> StateOf(old(disk)).None?
      ensures r.Refused? ==> r.error == CorruptState
      ensures r.Changed? ==>
                && StateOf(old(disk)) == Some(r.before) && r.after == r.before && !r.wroteArtifact
                && ListsPrunable(r.pruned, old(disk), r.before.Retained())
      ensures dryRun || r.Refused? ==> disk == old(disk) && history == old(history)
      ensures !dryRun && r.Changed? ==>
                && disk == Last(old(disk), PruneTrace(old(disk), r.pruned, stuck))
                && history == old(history) + PruneTrace(old(disk), r.pruned, stuck)
    {
      if StateOf(disk).None? {
        return Refused(CorruptState);
      }
      var state := StateOf(disk).value;
      var prunable := Prunable(state.Retained());
      if !dryRun {
        Prune(prunable, stuck);
      }
      return Changed(state, state, false, prunable);
    }
  }
}
