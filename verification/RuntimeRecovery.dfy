/** Cuts and what rollback makes. */
module RuntimeRecovery {
  // `Tracks(d, base)` is the invariant that every step of an apply and of a rollback keeps:
  // each journaled path still has its old content in one of the places rollback looks at,
  // except for overwrites that have no backup copy. Those (`Missing`) are exactly the paths
  // that the next complete rollback loses.

  import opened Common
  import opened RuntimeDisk

  ghost predicate DistinctOps(ops: seq<Operation>) {
    forall i, j :: 0 <= i < j < |ops| ==> ops[i].path != ops[j].path
  }

  ghost predicate Journaled(ops: seq<Operation>, p: Path) {
    exists i :: 0 <= i < |ops| && ops[i].path == p
  }

  /** Possible contents of one journaled path, in the live tree and in the backup. */
  ghost predicate OpTracks(op: Operation, live: Option<Content>, backup: Option<Content>, base: Option<Content>) {
    && op.existed == base.Some?
    && (op.installed ==> op.installRequested)
    && (backup.None? || backup == base)
    && (!op.installRequested ==> if backup.Some? then live.None? else live == base)
  }

  ghost predicate PathTracks(ops: seq<Operation>, p: Path, live: Option<Content>, backup: Option<Content>,
                             base: Option<Content>) {
    && (forall i :: 0 <= i < |ops| && ops[i].path == p ==> OpTracks(ops[i], live, backup, base))
    && (!Journaled(ops, p) ==> live == base && backup.None?)
  }

  ghost predicate TracksAt(d: Disk, base: Tree, p: Path)
    requires d.journal.Some?
  {
    PathTracks(d.journal.value.operations, p, Get(d.live, p), Get(d.backup, p), Get(base, p))
  }

  ghost predicate Tracks(d: Disk, base: Tree) {
    && d.journal.Some?
    && DistinctOps(d.journal.value.operations)
    && forall p :: TracksAt(d, base, p)
  }

  /** Overwritten paths without a backup copy. */
  ghost function Missing(d: Disk): set<Path>
    requires d.journal.Some?
  {
    Overwritten(d) - d.backup.Keys
  }

  /** The paths the update overwrites. */
  ghost function Overwritten(d: Disk): set<Path>
    requires d.journal.Some?
  {
    OverwrittenBy(d.journal.value.operations)
  }

  ghost function OverwrittenBy(ops: seq<Operation>): set<Path> {
    set i | 0 <= i < |ops| && ops[i].Overwrites() :: ops[i].path
  }

  /** The paths whose backup a list of steps puts back. */
  ghost function Restored(steps: seq<Step>): set<Path> {
    set i | 0 <= i < |steps| && steps[i].Restore? :: steps[i].path
  }

  lemma {:induction false} RestoredConcat(a: seq<Step>, b: seq<Step>)
    ensures Restored(a + b) == Restored(a) + Restored(b)
  {
    forall p | p in Restored(a) + Restored(b)
      ensures p in Restored(a + b)
    {
      if p in Restored(a) {
        var i :| 0 <= i < |a| && a[i].Restore? && a[i].path == p;
        assert (a + b)[i] == a[i];
      } else {
        var i :| 0 <= i < |b| && b[i].Restore? && b[i].path == p;
        assert (a + b)[|a| + i] == b[i];
      }
    }
  }

  /** Nothing but the entry of path `p` in the two trees differs. */
  ghost predicate ChangedOnlyAt(d: Disk, d': Disk, p: Path) {
    && d'.journal == d.journal && d'.pending == d.pending
    && forall q :: q != p ==> Get(d'.live, q) == Get(d.live, q) && Get(d'.backup, q) == Get(d.backup, q)
  }

  lemma {:induction false} TracksAfterChange(d: Disk, d': Disk, base: Tree, i: nat)
    requires Tracks(d, base) && i < |d.journal.value.operations|
    requires ChangedOnlyAt(d, d', d.journal.value.operations[i].path)
    requires var op := d.journal.value.operations[i];
             OpTracks(op, Get(d'.live, op.path), Get(d'.backup, op.path), Get(base, op.path))
    ensures Tracks(d', base)
  {
    var ops := d.journal.value.operations;
    forall p
      ensures TracksAt(d', base, p)
    {
      assert TracksAt(d, base, p);
      if p == ops[i].path {
        assert Journaled(ops, p);
      } else {
        assert Get(d'.live, p) == Get(d.live, p);
      }
    }
  }

  // ----- rollback -----

  lemma {:induction false} RemoveTracks(d: Disk, base: Tree, i: nat)
    requires Tracks(d, base) && i < |d.journal.value.operations|
    requires d.journal.value.operations[i].installRequested
    ensures var p := d.journal.value.operations[i].path;
            var d' := Do(d, RemoveLive(p));
            && Tracks(d', base) && ChangedOnlyAt(d, d', p)
            && d'.backup == d.backup && Get(d'.live, p) == None
  {
    var op := d.journal.value.operations[i];
    assert TracksAt(d, base, op.path);
    TracksAfterChange(d, Do(d, RemoveLive(op.path)), base, i);
  }

  lemma {:induction false} RestoreTracks(d: Disk, base: Tree, i: nat)
    requires Tracks(d, base) && i < |d.journal.value.operations|
    requires d.journal.value.operations[i].path in d.backup
    ensures var p := d.journal.value.operations[i].path;
            var d' := Do(d, Restore(p));
            && Tracks(d', base) && ChangedOnlyAt(d, d', p)
            && d'.backup == d.backup - {p} && Get(d'.live, p) == Get(base, p)
  {
    var op := d.journal.value.operations[i];
    assert TracksAt(d, base, op.path);
    TracksAfterChange(d, Do(d, Restore(op.path)), base, i);
  }

  /** What undoing one entry leaves at its path. */
  ghost function Undone(d: Disk, base: Tree, op: Operation): Option<Content> {
    if op.Overwrites() && op.path !in d.backup then None else Get(base, op.path)
  }

  /** Undoing one entry, cut after `k` of its steps. */
  lemma {:induction false} UndoOneCut(d: Disk, base: Tree, i: nat, k: nat)
    requires Tracks(d, base) && i < |d.journal.value.operations|
    requires k <= |UndoOpSteps(d, d.journal.value.operations[i])|
    ensures var op := d.journal.value.operations[i];
            var steps := UndoOpSteps(d, op);
            var d' := Run(d, steps[..k]);
            && Tracks(d', base) && ChangedOnlyAt(d, d', op.path)
            && Restored(steps[..k]) <= {op.path}
            && d'.backup == d.backup - Restored(steps[..k])
            && (k == |steps| ==> Get(d'.live, op.path) == Undone(d, base, op))
  {
    var op := d.journal.value.operations[i];
    var steps := UndoOpSteps(d, op);
    assert TracksAt(d, base, op.path);
    var removes := op.installRequested && op.path in d.live;
    var restores := op.path in d.backup;
    assert steps == (if removes then [RemoveLive(op.path)] else []) + (if restores then [Restore(op.path)] else []);
    if k == 0 {
      assert steps[..k] == [];
    } else if k == 1 && removes {
      assert steps[..k] == [RemoveLive(op.path)];
      RunOne(d, RemoveLive(op.path));
      RemoveTracks(d, base, i);
    } else if k == 1 {
      assert steps[..k] == [Restore(op.path)];
      RunOne(d, Restore(op.path));
      RestoreTracks(d, base, i);
      assert steps[..k][0].path == op.path;
    } else {
      assert steps[..k] == [RemoveLive(op.path), Restore(op.path)];
      RunTwo(d, RemoveLive(op.path), Restore(op.path));
      RemoveTracks(d, base, i);
      RestoreTracks(Do(d, RemoveLive(op.path)), base, i);
      assert steps[..k][1].path == op.path;
    }
  }

  ghost predicate UntouchedOutside(d: Disk, d': Disk, ops: seq<Operation>) {
    forall p :: !Journaled(ops, p) ==> Get(d'.live, p) == Get(d.live, p)
  }

  ghost predicate AllUndone(d: Disk, d': Disk, base: Tree, ops: seq<Operation>) {
    forall i :: 0 <= i < |ops| ==> Get(d'.live, ops[i].path) == Undone(d, base, ops[i])
  }

  lemma {:induction false} JournaledInit(ops: seq<Operation>, p: Path)
    requires ops != []
    ensures Journaled(ops, p) <==> Journaled(ops[..|ops| - 1], p) || p == ops[|ops| - 1].path
  {
    var init := ops[..|ops| - 1];
    if Journaled(init, p) {
      var i :| 0 <= i < |init| && init[i].path == p;
      assert ops[i].path == p;
    }
    if Journaled(ops, p) && p != ops[|ops| - 1].path {
      var i :| 0 <= i < |ops| && ops[i].path == p;
      assert init[i].path == p;
    }
  }

  /**
   Undoing journal entries `ops` (a prefix of the journal, last to first), cut after `k` steps.
   Nothing is lost on the way: `Tracks` still holds, and only the restored backups are gone.
   When it is not cut, each of those paths is back, except the overwrites that had no backup.
   */
  lemma {:induction false} UndoCut(d: Disk, base: Tree, ops: seq<Operation>, k: nat)
    requires Tracks(d, base) && ops <= d.journal.value.operations
    requires k <= |UndoSteps(d, ops)|
    ensures var steps := UndoSteps(d, ops);
            var d' := Run(d, steps[..k]);
            && Tracks(d', base)
            && d'.journal == d.journal && d'.pending == d.pending
            && d'.backup == d.backup - Restored(steps[..k])
            && UntouchedOutside(d, d', ops)
            && (k == |steps| ==> AllUndone(d, d', base, ops))
    decreases |ops|, 1
  {
    var steps := UndoSteps(d, ops);
    if ops == [] {
      assert steps[..k] == [];
      return;
    }
    var n := |ops|;
    var first := UndoOpSteps(d, ops[n - 1]);
    assert steps == first + UndoSteps(Run(d, first), ops[..n - 1]);
    if k < |first| {
      assert steps[..k] == first[..k];
      UndoOneCut(d, base, n - 1, k);
      UntouchedCompose(d, Run(d, steps[..k]), Run(d, steps[..k]), ops);
    } else {
      assert first[..|first|] == first;
      UndoOneCut(d, base, n - 1, |first|);
      UndoRest(d, base, ops, k);
    }
  }

  /** The induction step of `UndoCut`: the last entry is undone, the others follow. */
  lemma {:induction false} UndoRest(d: Disk, base: Tree, ops: seq<Operation>, k: nat)
    requires Tracks(d, base) && ops != [] && ops <= d.journal.value.operations
    requires k <= |UndoSteps(d, ops)|
    requires var first := UndoOpSteps(d, ops[|ops| - 1]);
             var d1 := Run(d, first);
             && |first| <= k
             && ChangedOnlyAt(d, d1, ops[|ops| - 1].path)
             && Tracks(d1, base)
             && d1.backup == d.backup - Restored(first)
             && Get(d1.live, ops[|ops| - 1].path) == Undone(d, base, ops[|ops| - 1])
    ensures var steps := UndoSteps(d, ops);
            var d' := Run(d, steps[..k]);
            && Tracks(d', base)
            && d'.journal == d.journal && d'.pending == d.pending
            && d'.backup == d.backup - Restored(steps[..k])
            && UntouchedOutside(d, d', ops)
            && (k == |steps| ==> AllUndone(d, d', base, ops))
    decreases |ops|, 0
  {
    var init := ops[..|ops| - 1];
    var first := UndoOpSteps(d, ops[|ops| - 1]);
    var d1 := Run(d, first);
    var rest := UndoSteps(d1, init)[..k - |first|];
    assert UndoSteps(d, ops)[..k] == first + rest;
    RunConcat(d, first, rest);
    RestoredConcat(first, rest);
    UndoCut(d1, base, init, k - |first|);
    var d' := Run(d1, rest);
    assert d'.backup == d.backup - (Restored(first) + Restored(rest));
    UntouchedCompose(d, d1, d', ops);
    if k == |UndoSteps(d, ops)| {
      UndoneLast(d, d1, d', base, ops);
    }
  }

  lemma {:induction false} UntouchedCompose(d: Disk, d1: Disk, d': Disk, ops: seq<Operation>)
    requires ops != [] && ChangedOnlyAt(d, d1, ops[|ops| - 1].path)
    requires d' == d1 || UntouchedOutside(d1, d', ops[..|ops| - 1])
    ensures UntouchedOutside(d, d', ops)
  {
    forall p | !Journaled(ops, p)
      ensures Get(d'.live, p) == Get(d.live, p)
    {
      JournaledInit(ops, p);
    }
  }

  lemma {:induction false} UndoneLast(d: Disk, d1: Disk, d': Disk, base: Tree, ops: seq<Operation>)
    requires ops != [] && DistinctOps(ops)
    requires ChangedOnlyAt(d, d1, ops[|ops| - 1].path)
    requires Get(d1.live, ops[|ops| - 1].path) == Undone(d, base, ops[|ops| - 1])
    requires UntouchedOutside(d1, d', ops[..|ops| - 1])
    requires AllUndone(d1, d', base, ops[..|ops| - 1])
    ensures AllUndone(d, d', base, ops)
  {
    var n := |ops|;
    assert !Journaled(ops[..n - 1], ops[n - 1].path);
    forall i | 0 <= i < n
      ensures Get(d'.live, ops[i].path) == Undone(d, base, ops[i])
    {
      if i < n - 1 {
        assert ops[..n - 1][i] == ops[i];
        assert Get(d1.backup, ops[i].path) == Get(d.backup, ops[i].path);
      }
    }
  }

  lemma {:induction false} StatusTracks(d: Disk, base: Tree, s: Status)
    requires Tracks(d, base)
    ensures Tracks(Do(d, LogStatus(s)), base)
    ensures Tracks(Do(d, ClearPending), base)
    ensures Tracks(Do(d, SetPending), base)
  {
    forall p
      ensures TracksAt(Do(d, LogStatus(s)), base, p)
      ensures TracksAt(Do(d, ClearPending), base, p)
      ensures TracksAt(Do(d, SetPending), base, p)
    {
      assert TracksAt(d, base, p);
    }
  }

  /** A rollback cut anywhere keeps `Tracks`; what it restored is what a later rollback loses. */
  lemma {:induction false} RollbackCut(d: Disk, base: Tree, k: nat)
    requires Tracks(d, base) && k <= |RollbackSteps(d)|
    ensures var steps := RollbackSteps(d)[..k];
            var d' := Run(d, steps);
            && Tracks(d', base)
            && d'.journal.value.operations == d.journal.value.operations
            && d'.backup == d.backup - Restored(steps)
            && (k < |RollbackSteps(d)| ==> d'.pending == d.pending)
            && (k + 2 <= |RollbackSteps(d)| ==> d'.journal == d.journal)
            && (k + 1 == |RollbackSteps(d)| ==> d'.journal.value.status == RolledBack)
  {
    var ops := d.journal.value.operations;
    var undo := UndoSteps(d, ops);
    var all := RollbackSteps(d);
    if k <= |undo| {
      assert all[..k] == undo[..k];
      UndoCut(d, base, ops, k);
    } else {
      assert undo[..|undo|] == undo;
      UndoCut(d, base, ops, |undo|);
      var d1 := Run(d, undo);
      var d2 := Do(d1, LogStatus(RolledBack));
      StatusTracks(d1, base, RolledBack);
      StatusTracks(d2, base, RolledBack);
      var tail := if k == |undo| + 1 then [LogStatus(RolledBack)] else [LogStatus(RolledBack), ClearPending];
      assert all[..k] == undo + tail;
      RunConcat(d, undo, tail);
      RestoredConcat(undo, tail);
      RunOne(d1, LogStatus(RolledBack));
      RunTwo(d1, LogStatus(RolledBack), ClearPending);
      assert Restored(tail) == {};
    }
  }

  /** A complete rollback brings back the whole base tree, except exactly the missing overwrites. */
  lemma {:induction false} RollbackComplete(d: Disk, base: Tree)
    requires Tracks(d, base)
    ensures var d' := Run(d, RollbackSteps(d));
            && d'.live == base - Missing(d)
            && d'.journal == Some(d.journal.value.(status := RolledBack))
            && !d'.pending && !NeedsRollback(d')
  {
    var ops := d.journal.value.operations;
    var undo := UndoSteps(d, ops);
    assert undo[..|undo|] == undo;
    UndoCut(d, base, ops, |undo|);
    var d1 := Run(d, undo);
    RunConcat(d, undo, [LogStatus(RolledBack), ClearPending]);
    RunTwo(d1, LogStatus(RolledBack), ClearPending);
    forall p
      ensures Get(d1.live, p) == Get(base - Missing(d), p)
    {
      assert TracksAt(d, base, p);
      if Journaled(ops, p) {
        var i :| 0 <= i < |ops| && ops[i].path == p;
        assert Get(d1.live, ops[i].path) == Undone(d, base, ops[i]);
        MissingAt(d, i);
      }
    }
    MapsAgree(d1.live, base - Missing(d));
  }

  lemma {:induction false} MissingAt(d: Disk, i: nat)
    requires d.journal.Some? && DistinctOps(d.journal.value.operations) && i < |d.journal.value.operations|
    ensures var op := d.journal.value.operations[i];
            op.path in Missing(d) <==> op.Overwrites() && op.path !in d.backup
  {
  }

  /** Rollbacks run one after the other, the i-th cut after `cuts[i]` steps. */
  ghost function CutRollbacks(d: Disk, cuts: seq<nat>): Disk
    decreases |cuts|
  {
    if cuts == [] then d
    else
      var all := RollbackSteps(d);
      CutRollbacks(Run(d, all[..Min(cuts[0], |all|)]), cuts[1..])
  }

  /** Everything those cut rollbacks put back. */
  ghost function RestoredByCuts(d: Disk, cuts: seq<nat>): set<Path>
    decreases |cuts|
  {
    if cuts == [] then {}
    else
      var all := RollbackSteps(d);
      var done := all[..Min(cuts[0], |all|)];
      Restored(done) + RestoredByCuts(Run(d, done), cuts[1..])
  }

  lemma {:induction false} CutRollbacksTrack(d: Disk, base: Tree, cuts: seq<nat>)
    requires Tracks(d, base)
    ensures var d' := CutRollbacks(d, cuts);
            && Tracks(d', base)
            && d'.journal.value.operations == d.journal.value.operations
            && d'.backup == d.backup - RestoredByCuts(d, cuts)
    decreases |cuts|
  {
    if cuts != [] {
      var all := RollbackSteps(d);
      var k := Min(cuts[0], |all|);
      RollbackCut(d, base, k);
      CutRollbacksTrack(Run(d, all[..k]), base, cuts[1..]);
    }
  }

  /**
   Any number of rollbacks, each cut anywhere, and then a complete one: the paths left wrong
   are exactly the overwrites that had no backup to begin with and the overwrites that one of
   the cut rollbacks had already restored. Deleted and brand-new files always come back right.
   */
  lemma {:induction false} RepeatedRollbacks(d: Disk, base: Tree, cuts: seq<nat>)
    requires Tracks(d, base)
    ensures var d' := CutRollbacks(d, cuts);
            Run(d', RollbackSteps(d')).live ==
            base - (Missing(d) + Overwritten(d) * RestoredByCuts(d, cuts))
  {
    CutRollbacksTrack(d, base, cuts);
    var d' := CutRollbacks(d, cuts);
    RollbackComplete(d', base);
    assert Missing(d') == Missing(d) + Overwritten(d) * RestoredByCuts(d, cuts);
  }
}
