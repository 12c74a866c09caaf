/**
 Which versions a source keeps, and in which order: said by the texts that were activated, not by the
 pointers as the store computes them.
 */
module Versions {
  import opened Wrappers
  import opened ArtifactStore
  import opened StoreSafety

  // An activation that is not cut off.
  ghost predicate Completes(d: Disk, call: Call)
  {
    call.Activate? && ScansDirectory(d, call) && call.steps >= |CallTrace(d, call)|
  }

  // Activations of texts, one after the other, each to its end.
  ghost predicate IsSuccession(disks: seq<Disk>, calls: seq<Call>)
  {
    IsRun(disks, calls) && forall i | 0 <= i < |calls| :: Completes(disks[i], calls[i])
  }

  predicate NeverTwiceInARow(calls: seq<Call>)
  {
    && (forall i | 0 <= i < |calls| :: calls[i].Activate?)
    && (forall i | 0 <= i < |calls| - 1 :: calls[i].text != calls[i + 1].text)
  }

  // The version activated `age` calls before the end.
  function VersionOf(calls: seq<Call>, age: nat): Option<Digest>
    requires forall i | 0 <= i < |calls| :: calls[i].Activate?
  {
    if age < |calls| then Some(Sha256(calls[|calls| - 1 - age].text)) else None
  }

  // One activation: the new text becomes current, what was current previous, what was previous the backup.
  // The text that is current already changes nothing.
  lemma {:induction false} ActivationShifts(d: Disk, call: Call, after: Disk)
    requires Sound(d) && Completes(d, call) && after == Cut(d, CallTrace(d, call), call.steps)
    ensures Sound(after) && StateOf(after).Some?
    ensures var s, t := StateOf(d).value, StateOf(after).value;
            if s.current == Some(Sha256(call.text)) then after == d
            else t.current == Some(Sha256(call.text)) && t.previous == s.current && t.backup == s.previous
  {
    CompletedActivation(d, call, call.text, after);
    CallIsSound(d, call);
    assert after == d || exists i :: 0 <= i < |CallTrace(d, call)| && after == CallTrace(d, call)[i] by {
      if call.steps > 0 && CallTrace(d, call) != [] {
        assert after == CallTrace(d, call)[|CallTrace(d, call)| - 1];
      }
    }
  }

  // From an empty store, after activations of texts none of which repeats the one before it, the three
  // pointers are the last three texts, newest first.
  lemma {:induction false} LastThreeNewestFirst(disks: seq<Disk>, calls: seq<Call>)
    requires IsSuccession(disks, calls) && disks[0] == map[] && NeverTwiceInARow(calls)
    ensures Sound(disks[|calls|])
    ensures var s := StateOf(disks[|calls|]).value;
            s.current == VersionOf(calls, 0) && s.previous == VersionOf(calls, 1) && s.backup == VersionOf(calls, 2)
  {
    if calls == [] {
      EmptyStoreIsSound();
    } else {
      var n := |calls| - 1;
      LastThreeNewestFirst(disks[..n + 1], calls[..n]);
      assert disks[..n + 1][n] == disks[n];
      ActivationShifts(disks[n], calls[n], disks[n + 1]);
    }
  }

  // A rollback that is not cut off.
  function RolledBack(d: Disk): Disk
  {
    Last(d, RollbackTrace(d))
  }

  // A rollback exchanges current and previous and keeps the backup.
  lemma {:induction false} RollbackExchanges(d: Disk)
    requires Sound(d) && StateOf(d).value.previous.Some?
    ensures Sound(RolledBack(d))
    ensures var s, t := StateOf(d).value, StateOf(RolledBack(d)).value;
            t.current == s.previous && t.previous == s.current && t.backup == s.backup
  {
    RollbackIsSound(d);
    CommitStates(d, Swap(StateOf(d).value));
  }

  // A rollback after an activation makes the version active just before it current again, text and all.
  lemma {:induction false} RollbackUndoesActivation(d: Disk, call: Call, after: Disk)
    requires Sound(d) && Completes(d, call) && after == Cut(d, CallTrace(d, call), call.steps)
    requires StateOf(d).value.current.Some? && StateOf(d).value.current != Some(Sha256(call.text))
    ensures Sound(after) && StateOf(after).value.current == Some(Sha256(call.text))
    ensures var back := RolledBack(after);
            && Sound(back) && StateOf(back).value.current == StateOf(d).value.current
            && ReadError(back, StateOf(d).value.current.value).None?
            && StateOf(back).value.previous == Some(Sha256(call.text))
  {
    ActivationShifts(d, call, after);
    RollbackExchanges(after);
    var back := RolledBack(after);
    assert StateOf(back).value.current.value in StateOf(back).value.Retained();
  }

  // Each of the three is there with its text and its metadata.
  lemma {:induction false} LastThreeAreReadable(disks: seq<Disk>, calls: seq<Call>, age: nat)
    requires IsSuccession(disks, calls) && disks[0] == map[] && NeverTwiceInARow(calls)
    requires age < 3 && age < |calls|
    ensures IsReadable(disks[|calls|], calls[|calls| - 1 - age].text)
  {
    LastThreeNewestFirst(disks, calls);
    NewestAreReadable(disks[|calls|], calls, age);
  }

  lemma {:induction false} NewestAreReadable(d: Disk, calls: seq<Call>, age: nat)
    requires Sound(d) && (forall i | 0 <= i < |calls| :: calls[i].Activate?) && age < 3 && age < |calls|
    requires var s := StateOf(d).value;
             s.current == VersionOf(calls, 0) && s.previous == VersionOf(calls, 1) && s.backup == VersionOf(calls, 2)
    ensures IsReadable(d, calls[|calls| - 1 - age].text)
  {
    PointersAreReadable(d);
    assert VersionOf(calls, age) == Some(Sha256(calls[|calls| - 1 - age].text));
  }

  predicate IsReadable(d: Disk, text: string)
  {
    var sha := Sha256(text);
    Text(sha) in d && d[Text(sha)] == Data(text) && Meta(sha) in d && ReadError(d, sha).None?
  }

  lemma {:induction false} PointersAreReadable(d: Disk)
    requires Sound(d)
    ensures var s := StateOf(d).value;
            && (s.current.Some? ==> IsReadable(d, s.current.value.text))
            && (s.previous.Some? ==> IsReadable(d, s.previous.value.text))
            && (s.backup.Some? ==> IsReadable(d, s.backup.value.text))
  {
    forall h | h in StateOf(d).value.Retained()
      ensures IsReadable(d, h.text)
    {
      assert Text(h) in d && ReadError(d, h).None?;
    }
  }

  // Among the files the store can name, an activation in which every unlink succeeds leaves nothing else:
  // the text and the metadata of what was current, of what was previous, and of the new text.
  lemma {:induction false} OnlyThreeRemain(d: Disk, call: Call, after: Disk, f: FileName)
    requires Sound(d) && Completes(d, call) && call.stuck == {} && after == Cut(d, CallTrace(d, call), call.steps)
    requires StateOf(d).value.current != Some(Sha256(call.text)) && IsStoreNamed(f)
    ensures f in after <==>
            && (f.Text? || f.Meta?)
            && (|| f.sha == Sha256(call.text) || Some(f.sha) == StateOf(d).value.current
                || Some(f.sha) == StateOf(d).value.previous)
  {
    var sha, keep := Sha256(call.text), Rotate(StateOf(d).value, Sha256(call.text));
    var committed := Committed(Staged(d, sha, call.text, call.meta), keep);
    EndsPruned(d, call, after);
    PruneRemovesExactly(committed, call.paths, f);
    StagedHolds(d, sha, call.text, call.meta, f);
    assert f in committed <==> f in Staged(d, sha, call.text, call.meta);
    assert f in call.paths <==> f in d && IsPrunable(f, keep.Retained());
  }

  lemma {:induction false} StagedHolds(d: Disk, sha: Digest, text: string, meta: string, f: FileName)
    requires IsStoreNamed(f)
    ensures f == Text(sha) || f == Meta(sha) ==> f in Staged(d, sha, text, meta)
    ensures f != Text(sha) && f != Meta(sha) ==>
              (f in Staged(d, sha, text, meta) ==> f in d)
              && (f in d && (f.Text? || f.Meta?) ==> f in Staged(d, sha, text, meta))
  {
  }

  lemma {:induction false} EndsPruned(d: Disk, call: Call, after: Disk)
    requires Sound(d) && Completes(d, call) && after == Cut(d, CallTrace(d, call), call.steps)
    requires StateOf(d).value.current != Some(Sha256(call.text))
    ensures var sha := Sha256(call.text);
            var committed := Committed(Staged(d, sha, call.text, call.meta), Rotate(StateOf(d).value, sha));
            after == Last(committed, PruneTrace(committed, call.paths, call.stuck))
  {
    var sha := Sha256(call.text);
    var staged, next := Staged(d, sha, call.text, call.meta), Rotate(StateOf(d).value, sha);
    var pruned := PruneTrace(Committed(staged, next), call.paths, call.stuck);
    StagingIsSound(d, call.text, call.meta);
    assert ReadError(staged, sha).None?;
    LastJoin(staged, CommitTrace(staged, next), pruned);
    LastJoin(d, StageTrace(d, sha, call.text, call.meta), CommitTrace(staged, next) + pruned);
    StagingLosesOnlyGarbage(d, sha, call.text, call.meta);
  }
}
