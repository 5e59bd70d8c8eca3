/** The apply loop, cut anywhere. */
module RuntimeApply {
  // Every cut of the loop keeps `Tracks`, a complete run turns the base tree into the patched
  // tree, and one recovery after a cut brings the base tree back.

  import opened Common
  import opened RuntimeDisk
  import opened RuntimeRecovery

  ghost predicate DistinctPlan(ops: seq<PlannedOp>) {
    forall i, j :: 0 <= i < j < |ops| ==> ops[i].path != ops[j].path
  }

  /** Every file to install is in the staging area, as `extract_payload` leaves it. */
  ghost predicate Staged(ops: seq<PlannedOp>, staging: Tree) {
    forall i :: 0 <= i < |ops| && ops[i].installs ==> ops[i].path in staging
  }

  ghost predicate NoneJournaled(d: Disk, ops: seq<PlannedOp>)
    requires d.journal.Some?
  {
    forall i :: 0 <= i < |ops| ==> !Journaled(d.journal.value.operations, ops[i].path)
  }

  /** A disk on which the loop of `apply_runtime` can still perform `rest`. */
  ghost predicate Ready(d: Disk, base: Tree, rest: seq<PlannedOp>) {
    && Tracks(d, base)
    && DistinctPlan(rest)
    && NoneJournaled(d, rest)
    && Staged(rest, d.staging)
  }

  /** Stopping right after journaling an overwrite leaves that path without a backup. */
  ghost function OpenWindow(steps: seq<Step>): set<Path> {
    if steps != [] && steps[|steps| - 1].LogOperation? && steps[|steps| - 1].op.Overwrites()
    then {steps[|steps| - 1].op.path} else {}
  }

  /** The live tree after the planned operations: deletions removed, the payload laid over. */
  function Patch(t: Tree, payload: Tree, ops: seq<PlannedOp>): Tree
    decreases |ops|
  {
    if ops == [] then t
    else Patch(PatchOne(t, payload, ops[0]), payload, ops[1..])
  }

  function PatchOne(t: Tree, payload: Tree, o: PlannedOp): Tree {
    if o.installs && o.path in payload then t[o.path := payload[o.path]] else t - {o.path}
  }

  /** `d'` has one more journal entry than `d`, for `o`, and differs elsewhere only at `o.path`. */
  ghost predicate Grown(d: Disk, d': Disk, o: PlannedOp) {
    && d.journal.Some? && d'.journal.Some?
    && d'.pending == d.pending
    && d'.journal.value.status == d.journal.value.status
    && GrownOps(d.journal.value.operations, d'.journal.value.operations, o, o.path in d.live)
    && SameOutside(d, d', o.path)
  }

  ghost predicate GrownOps(ops: seq<Operation>, ops': seq<Operation>, o: PlannedOp, existed: bool) {
    && |ops'| == |ops| + 1
    && ops' == ops + [ops'[|ops|]]
    && var op := ops'[|ops|];
       op.path == o.path && op.existed == existed && op.installRequested == o.installs
  }

  ghost predicate SameOutside(d: Disk, d': Disk, p: Path) {
    forall q :: q != p ==>
      Get(d'.live, q) == Get(d.live, q) && Get(d'.backup, q) == Get(d.backup, q)
      && Get(d'.staging, q) == Get(d.staging, q)
  }

  lemma {:induction false} JournaledGrown(ops: seq<Operation>, ops': seq<Operation>, o: PlannedOp, existed: bool,
                                          p: Path)
    requires GrownOps(ops, ops', o, existed)
    ensures Journaled(ops', p) <==> Journaled(ops, p) || p == o.path
  {
    assert ops'[..|ops'| - 1] == ops;
    JournaledInit(ops', p);
  }

  lemma {:induction false} OverwrittenGrown(ops: seq<Operation>, ops': seq<Operation>, o: PlannedOp, existed: bool)
    requires GrownOps(ops, ops', o, existed)
    ensures OverwrittenBy(ops') == OverwrittenBy(ops) + if existed && o.installs then {o.path} else {}
  {
    forall p | p in OverwrittenBy(ops)
      ensures p in OverwrittenBy(ops')
    {
      var i :| 0 <= i < |ops| && ops[i].Overwrites() && ops[i].path == p;
      assert ops'[i] == ops[i];
    }
    if existed && o.installs {
      assert ops'[|ops|].Overwrites();
    }
  }

  /** Growing the journal by an entry whose contents are accounted for keeps `Tracks`. */
  lemma {:induction false} GrownTracks(d: Disk, d': Disk, base: Tree, o: PlannedOp)
    requires Tracks(d, base) && !Journaled(d.journal.value.operations, o.path)
    requires Grown(d, d', o)
    requires var ops' := d'.journal.value.operations;
             OpTracks(ops'[|ops'| - 1], Get(d'.live, o.path), Get(d'.backup, o.path), Get(base, o.path))
    ensures Tracks(d', base)
    ensures Missing(d') == Missing(d) +
                           if o.path in d.live && o.installs && o.path !in d'.backup then {o.path} else {}
  {
    var ops, ops' := d.journal.value.operations, d'.journal.value.operations;
    forall p
      ensures TracksAt(d', base, p)
    {
      assert TracksAt(d, base, p);
      JournaledGrown(ops, ops', o, o.path in d.live, p);
      if p == o.path {
        forall i | 0 <= i < |ops'| && ops'[i].path == p
          ensures i == |ops|
        {
          assert i < |ops| ==> Journaled(ops, p);
        }
      }
    }
    DistinctGrown(ops, ops', o, o.path in d.live);
    OverwrittenGrown(ops, ops', o, o.path in d.live);
    forall p | p in OverwrittenBy(ops)
      ensures p in d'.backup <==> p in d.backup
    {
      assert Journaled(ops, p);
      assert Get(d'.backup, p) == Get(d.backup, p);
    }
  }

  lemma {:induction false} DistinctGrown(ops: seq<Operation>, ops': seq<Operation>, o: PlannedOp, existed: bool)
    requires DistinctOps(ops) && GrownOps(ops, ops', o, existed) && !Journaled(ops, o.path)
    ensures DistinctOps(ops')
  {
    forall i, j | 0 <= i < j < |ops'|
      ensures ops'[i].path != ops'[j].path
    {
      assert ops'[i] == ops[i];
      if j < |ops| {
        assert ops'[j] == ops[j];
      } else {
        assert ops'[i].path == o.path ==> Journaled(ops, o.path);
      }
    }
  }

  // ----- one path, step by step -----

  /** The journal entry of a path has been written. */
  ghost predicate Logged(d: Disk, d': Disk, o: PlannedOp) {
    && Grown(d, d', o)
    && Get(d'.live, o.path) == Get(d.live, o.path) && d'.backup == d.backup && d'.staging == d.staging
    && !d'.journal.value.operations[|d'.journal.value.operations| - 1].installed
  }

  /** The old file, if there was one, has been moved to the backup. */
  ghost predicate BackedUp(d: Disk, d': Disk, o: PlannedOp) {
    && Grown(d, d', o)
    && Get(d'.live, o.path) == None && Get(d'.backup, o.path) == Get(d.live, o.path)
    && d'.staging == d.staging
    && !d'.journal.value.operations[|d'.journal.value.operations| - 1].installed
  }

  /** The new file is in place. */
  ghost predicate Installed(d: Disk, d': Disk, o: PlannedOp) {
    && Grown(d, d', o)
    && o.installs
    && Get(d'.live, o.path) == Get(d.staging, o.path) && Get(d'.backup, o.path) == Get(d.live, o.path)
  }

  lemma {:induction false} LogStep(d: Disk, base: Tree, o: PlannedOp)
    requires Ready(d, base, [o])
    ensures Logged(d, Do(d, OpSteps(d, o)[0]), o)
    ensures o.path !in d.live ==> BackedUp(d, Do(d, OpSteps(d, o)[0]), o)
  {
    assert [o][0] == o;
    assert TracksAt(d, base, o.path);
  }

  lemma {:induction false} BackupSteps(d: Disk, d1: Disk, base: Tree, o: PlannedOp)
    requires Ready(d, base, [o]) && Logged(d, d1, o) && o.path in d.live
    ensures BackedUp(d, Do(d1, MoveToBackup(o.path)), o)
    ensures BackedUp(d, Do(Do(d1, MoveToBackup(o.path)), LogBackedUp), o)
  {
    assert o.path in d1.live;
  }

  lemma {:induction false} InstallSteps(d: Disk, d2: Disk, base: Tree, o: PlannedOp)
    requires Ready(d, base, [o]) && BackedUp(d, d2, o) && o.installs
    ensures Installed(d, Do(d2, Install(o.path)), o)
    ensures Installed(d, Do(Do(d2, Install(o.path)), LogInstalled), o)
  {
    assert [o][0] == o;
    assert o.path in d2.staging;
  }

  lemma {:induction false} OpStateTracks(d: Disk, d': Disk, base: Tree, o: PlannedOp)
    requires Ready(d, base, [o])
    requires Logged(d, d', o) || BackedUp(d, d', o) || Installed(d, d', o)
    ensures Tracks(d', base)
    ensures Missing(d') == Missing(d) +
                           if o.path in d.live && o.installs && o.path !in d'.backup then {o.path} else {}
  {
    assert [o][0] == o;
    assert TracksAt(d, base, o.path);
    GrownTracks(d, d', base, o);
  }

  /** The part of `OpSteps` that moves the old file away, and the part that installs the new one. */
  function MoveSteps(o: PlannedOp, existed: bool): seq<Step> {
    if existed then [MoveToBackup(o.path), LogBackedUp] else []
  }

  ghost predicate OpCutHolds(d: Disk, base: Tree, o: PlannedOp, k: nat)
    requires d.journal.Some? && k <= |OpSteps(d, o)|
  {
    var steps := OpSteps(d, o)[..k];
    var d' := Run(d, steps);
    && Grown(d, d', o)
    && Tracks(d', base)
    && Missing(d') == Missing(d) + OpenWindow(steps)
    && (k == |OpSteps(d, o)| ==> OpenWindow(steps) == {})
    && (k == |OpSteps(d, o)| ==> Get(d'.live, o.path) == if o.installs then Get(d.staging, o.path) else None)
  }

  /** One path of the update, cut after `k` of its steps. */
  lemma {:induction false} OpCut(d: Disk, base: Tree, o: PlannedOp, k: nat)
    requires Ready(d, base, [o]) && 0 < k <= |OpSteps(d, o)|
    ensures OpCutHolds(d, base, o, k)
  {
    var existed := o.path in d.live;
    if k == 1 {
      OpCutLog(d, base, o);
    } else if k - 1 <= |MoveSteps(o, existed)| {
      OpCutMove(d, base, o, k);
    } else {
      OpCutPlace(d, base, o, k);
    }
  }

  lemma {:induction false} OpCutLog(d: Disk, base: Tree, o: PlannedOp)
    requires Ready(d, base, [o])
    ensures OpCutHolds(d, base, o, 1)
  {
    var first := OpSteps(d, o)[0];
    assert OpSteps(d, o)[..1] == [first];
    RunOne(d, first);
    LogStep(d, base, o);
    OpStateTracks(d, Do(d, first), base, o);
    assert TracksAt(d, base, o.path);
    assert [o][0] == o;
  }

  lemma {:induction false} OpCutMove(d: Disk, base: Tree, o: PlannedOp, k: nat)
    requires Ready(d, base, [o]) && o.path in d.live && 2 <= k <= 3
    ensures OpCutHolds(d, base, o, k)
  {
    var all := OpSteps(d, o);
    var move := [MoveToBackup(o.path), LogBackedUp];
    LogStep(d, base, o);
    var d1 := Do(d, all[0]);
    BackupSteps(d, d1, base, o);
    RunOne(d, all[0]);
    RunOne(d1, MoveToBackup(o.path));
    RunTwo(d1, MoveToBackup(o.path), LogBackedUp);
    var tail := if k == 2 then [MoveToBackup(o.path)] else move;
    assert all[..k] == [all[0]] + tail;
    RunConcat(d, [all[0]], tail);
    OpStateTracks(d, Run(d, all[..k]), base, o);
    assert all[..k][k - 1] == tail[k - 2];
  }

  /** Where installing starts: the journal entry written, the old file out of the way. */
  lemma {:induction false} MovedAway(d: Disk, base: Tree, o: PlannedOp)
    requires Ready(d, base, [o])
    ensures BackedUp(d, Run(d, [OpSteps(d, o)[0]] + MoveSteps(o, o.path in d.live)), o)
  {
    var first := OpSteps(d, o)[0];
    var move := MoveSteps(o, o.path in d.live);
    LogStep(d, base, o);
    var d1 := Do(d, first);
    RunConcat(d, [first], move);
    RunOne(d, first);
    if o.path in d.live {
      BackupSteps(d, d1, base, o);
      RunTwo(d1, MoveToBackup(o.path), LogBackedUp);
    }
  }

  lemma {:induction false} OpCutPlace(d: Disk, base: Tree, o: PlannedOp, k: nat)
    requires Ready(d, base, [o]) && o.installs
    requires 1 + |MoveSteps(o, o.path in d.live)| < k <= |OpSteps(d, o)|
    ensures OpCutHolds(d, base, o, k)
  {
    var all := OpSteps(d, o);
    var away := [all[0]] + MoveSteps(o, o.path in d.live);
    var d2 := Run(d, away);
    MovedAway(d, base, o);
    InstallSteps(d, d2, base, o);
    RunOne(d2, Install(o.path));
    RunTwo(d2, Install(o.path), LogInstalled);
    var tail := if k == |away| + 1 then [Install(o.path)] else [Install(o.path), LogInstalled];
    assert all[..k] == away + tail;
    RunConcat(d, away, tail);
    OpStateTracks(d, Run(d, all[..k]), base, o);
    assert all[..k][k - 1] == tail[k - 1 - |away|];
  }

  // ----- the loop -----

  lemma {:induction false} ReadyNext(d: Disk, base: Tree, ops: seq<PlannedOp>, d1: Disk)
    requires ops != [] && Ready(d, base, ops) && Grown(d, d1, ops[0]) && Tracks(d1, base)
    ensures Ready(d, base, [ops[0]])
    ensures Ready(d1, base, ops[1..])
  {
    var rest := ops[1..];
    forall i | 0 <= i < |rest|
      ensures !Journaled(d1.journal.value.operations, rest[i].path)
      ensures rest[i].installs ==> rest[i].path in d1.staging
    {
      assert rest[i] == ops[i + 1];
      JournaledGrown(d.journal.value.operations, d1.journal.value.operations, ops[0], ops[0].path in d.live,
                     rest[i].path);
      assert Get(d1.staging, rest[i].path) == Get(d.staging, rest[i].path);
    }
  }

  lemma {:induction false} ReadyFirst(d: Disk, base: Tree, ops: seq<PlannedOp>)
    requires ops != [] && Ready(d, base, ops)
    ensures Ready(d, base, [ops[0]])
  {
    assert [ops[0]][0] == ops[0];
  }

  ghost predicate LoopCutHolds(d: Disk, base: Tree, ops: seq<PlannedOp>, k: nat)
    requires d.journal.Some? && k <= |LoopSteps(d, ops)|
  {
    var steps := LoopSteps(d, ops)[..k];
    var d' := Run(d, steps);
    && Tracks(d', base)
    && Missing(d') == Missing(d) + OpenWindow(steps)
    && d'.pending == d.pending
    && d'.journal.value.status == d.journal.value.status
    && (k == |LoopSteps(d, ops)| ==> OpenWindow(steps) == {})
  }

  /**
   The apply loop cut after any number of steps: `Tracks` holds, and the only path without a
   backup is the one whose overwrite was journaled by the very last step.
   */
  lemma {:induction false} LoopCut(d: Disk, base: Tree, ops: seq<PlannedOp>, k: nat)
    requires Ready(d, base, ops) && k <= |LoopSteps(d, ops)|
    ensures LoopCutHolds(d, base, ops, k)
    decreases |ops|
  {
    var steps := LoopSteps(d, ops);
    if k == 0 {
      assert steps[..k] == [];
    } else {
      var first := OpSteps(d, ops[0]);
      var d1 := Run(d, first);
      ReadyFirst(d, base, ops);
      if k < |first| {
        assert steps[..k] == first[..k];
        OpCut(d, base, ops[0], k);
      } else {
        assert first[..|first|] == first;
        OpCut(d, base, ops[0], |first|);
        ReadyNext(d, base, ops, d1);
        LoopCut(d1, base, ops[1..], k - |first|);
        LoopCutRest(d, base, ops, k);
      }
    }
  }

  /** The induction step of `LoopCut`. */
  lemma {:induction false} LoopCutRest(d: Disk, base: Tree, ops: seq<PlannedOp>, k: nat)
    requires d.journal.Some? && ops != [] && |OpSteps(d, ops[0])| <= k <= |LoopSteps(d, ops)|
    requires OpCutHolds(d, base, ops[0], |OpSteps(d, ops[0])|)
    requires OpSteps(d, ops[0])[..|OpSteps(d, ops[0])|] == OpSteps(d, ops[0])
    requires LoopCutHolds(Run(d, OpSteps(d, ops[0])), base, ops[1..], k - |OpSteps(d, ops[0])|)
    ensures LoopCutHolds(d, base, ops, k)
  {
    var steps := LoopSteps(d, ops);
    var first := OpSteps(d, ops[0]);
    var d1 := Run(d, first);
    var rest := LoopSteps(d1, ops[1..])[..k - |first|];
    assert steps[..k] == first + rest;
    RunConcat(d, first, rest);
    if rest == [] {
      assert steps[..k] == first;
      assert Run(d, steps[..k]) == d1;
    } else {
      assert steps[..k][k - 1] == rest[|rest| - 1];
      assert OpenWindow(steps[..k]) == OpenWindow(rest);
    }
  }

  lemma {:induction false} PatchSameStaging(t: Tree, a: Tree, b: Tree, ops: seq<PlannedOp>)
    requires forall i :: 0 <= i < |ops| ==> Get(a, ops[i].path) == Get(b, ops[i].path)
    ensures Patch(t, a, ops) == Patch(t, b, ops)
    decreases |ops|
  {
    if ops != [] {
      assert Get(a, ops[0].path) == Get(b, ops[0].path);
      PatchSameStaging(PatchOne(t, a, ops[0]), a, b, ops[1..]);
    }
  }

  /** The loop run to its end patches the live tree. */
  lemma {:induction false} LoopPatches(d: Disk, base: Tree, ops: seq<PlannedOp>)
    requires Ready(d, base, ops)
    ensures Run(d, LoopSteps(d, ops)).live == Patch(d.live, d.staging, ops)
    decreases |ops|
  {
    if ops != [] {
      var first := OpSteps(d, ops[0]);
      var d1 := Run(d, first);
      ReadyFirst(d, base, ops);
      assert first[..|first|] == first;
      OpCut(d, base, ops[0], |first|);
      ReadyNext(d, base, ops, d1);
      RunConcat(d, first, LoopSteps(d1, ops[1..]));
      LoopPatches(d1, base, ops[1..]);
      assert [ops[0]][0].path in d.staging || !ops[0].installs;
      forall p
        ensures Get(d1.live, p) == Get(PatchOne(d.live, d.staging, ops[0]), p)
      {
      }
      MapsAgree(d1.live, PatchOne(d.live, d.staging, ops[0]));
      forall i | 0 <= i < |ops[1..]|
        ensures Get(d1.staging, ops[1..][i].path) == Get(d.staging, ops[1..][i].path)
      {
        assert ops[1..][i] == ops[i + 1];
      }
      PatchSameStaging(d1.live, d1.staging, d.staging, ops[1..]);
    }
  }

  /** The journal entry of a path that is done. */
  function Done(o: PlannedOp, live: Tree): Operation {
    Operation(o.path, o.path in live, o.installs, o.installs, o.path in live)
  }

  /** The journal `j` with one more entry. */
  function With(j: Journal, op: Operation): Option<Journal> {
    Some(j.(operations := j.operations + [op]))
  }

  lemma {:induction false} LogMarks(d: Disk, j: Journal, op: Operation)
    requires d.journal == With(j, op)
    ensures Do(d, LogBackedUp).journal == With(j, op.(backedUp := true))
    ensures Do(d, LogInstalled).journal == With(j, op.(installed := true))
  {
    var all := j.operations + [op];
    var last := |all| - 1;
    assert all[last := op.(backedUp := true)] == j.operations + [op.(backedUp := true)];
    assert all[last := op.(installed := true)] == j.operations + [op.(installed := true)];
  }

  lemma {:induction false} MoveMarks(d: Disk, j: Journal, op: Operation, o: PlannedOp, existed: bool)
    requires d.journal == With(j, op) && !op.backedUp
    ensures Run(d, MoveSteps(o, existed)).journal == With(j, op.(backedUp := existed))
  {
    if existed {
      RunTwo(d, MoveToBackup(o.path), LogBackedUp);
      LogMarks(Do(d, MoveToBackup(o.path)), j, op);
    }
  }

  /** The part of `OpSteps` that installs the new file. */
  function PlaceSteps(o: PlannedOp): seq<Step> {
    if o.installs then [Install(o.path), LogInstalled] else []
  }

  lemma {:induction false} PlaceMarks(d: Disk, j: Journal, op: Operation, o: PlannedOp)
    requires d.journal == With(j, op) && !op.installed
    ensures Run(d, PlaceSteps(o)).journal == With(j, op.(installed := o.installs))
  {
    if o.installs {
      RunTwo(d, Install(o.path), LogInstalled);
      LogMarks(Do(d, Install(o.path)), j, op);
    }
  }

  lemma {:induction false} OpJournal(d: Disk, o: PlannedOp)
    requires d.journal.Some?
    ensures Run(d, OpSteps(d, o)).journal == With(d.journal.value, Done(o, d.live))
  {
    hide Do, Run;
    var j, existed, log := d.journal.value, o.path in d.live, OpSteps(d, o)[0];
    var move, place := MoveSteps(o, existed), PlaceSteps(o);
    assert OpSteps(d, o) == [log] + (move + place);
    var d1 := Run(d, [log]);
    LogRuns(d, log);
    RunConcat(d, [log], move + place);
    RunConcat(d1, move, place);
    MoveMarks(d1, j, log.op, o, existed);
    PlaceMarks(Run(d1, move), j, log.op.(backedUp := existed), o);
  }

  lemma {:induction false} LogRuns(d: Disk, log: Step)
    requires d.journal.Some? && log.LogOperation?
    ensures Run(d, [log]).journal == With(d.journal.value, log.op)
  {
    RunOne(d, log);
  }

  /** The loop run to its end has journaled every path in order: whether it was there, and what was done. */
  lemma {:induction false} LoopJournal(d: Disk, base: Tree, ops: seq<PlannedOp>)
    requires Ready(d, base, ops)
    ensures Run(d, LoopSteps(d, ops)).journal ==
            Some(d.journal.value.(operations := d.journal.value.operations
                                                + seq(|ops|, i requires 0 <= i < |ops| => Done(ops[i], d.live))))
    decreases |ops|
  {
    var done := seq(|ops|, i requires 0 <= i < |ops| => Done(ops[i], d.live));
    if ops == [] {
      assert d.journal.value.operations + done == d.journal.value.operations;
    } else {
      var first := OpSteps(d, ops[0]);
      var d1 := Run(d, first);
      ReadyFirst(d, base, ops);
      assert first[..|first|] == first;
      OpCut(d, base, ops[0], |first|);
      ReadyNext(d, base, ops, d1);
      OpJournal(d, ops[0]);
      RunConcat(d, first, LoopSteps(d1, ops[1..]));
      LoopJournal(d1, base, ops[1..]);
      OthersStay(d, d1, ops);
      assert d.journal.value.operations + done == d1.journal.value.operations + done[1..];
    }
  }

  lemma {:induction false} OthersStay(d: Disk, d1: Disk, ops: seq<PlannedOp>)
    requires ops != [] && DistinctPlan(ops) && SameOutside(d, d1, ops[0].path)
    ensures seq(|ops|, i requires 0 <= i < |ops| => Done(ops[i], d.live))[1..] ==
            seq(|ops[1..]|, i requires 0 <= i < |ops[1..]| => Done(ops[1..][i], d1.live))
  {
    forall i | 0 < i < |ops|
      ensures Done(ops[i], d.live) == Done(ops[i], d1.live)
    {
      assert ops[0].path != ops[i].path;
      assert Get(d.live, ops[i].path) == Get(d1.live, ops[i].path);
    }
  }

  // ----- a whole apply, cut anywhere, then one recovery -----

  /** What holds when `apply_pending` has finished `recover_prior_runtime`. */
  ghost predicate Settled(d: Disk) {
    !NeedsRollback(d)
  }

  /** The update can be applied: distinct paths, everything to install is in the payload. */
  ghost predicate Applicable(payload: Tree, ops: seq<PlannedOp>) {
    DistinctPlan(ops) && Staged(ops, payload)
  }

  /** The disk when the loop starts. */
  function Prepared(d: Disk, payload: Tree): Disk {
    d.(staging := payload, backup := map[], journal := Some(Journal(Applying, [])))
  }

  lemma {:induction false} PrepareRuns(d: Disk, payload: Tree)
    requires Settled(d)
    ensures PrepareSteps(d, payload) == [Stage(payload), ClearBackup, StartJournal]
    ensures Run(d, PrepareSteps(d, payload)) == Prepared(d, payload)
  {
    var tail := [ClearBackup, StartJournal];
    assert PrepareSteps(d, payload) == [Stage(payload)] + tail;
    RunConcat(d, [Stage(payload)], tail);
    RunOne(d, Stage(payload));
    RunTwo(Do(d, Stage(payload)), ClearBackup, StartJournal);
  }

  /** Cut inside the preparation: the live tree is untouched and nothing asks for a rollback. */
  lemma {:induction false} PrepareCut(d: Disk, payload: Tree, k: nat)
    requires Settled(d) && k < 3
    ensures k <= |PrepareSteps(d, payload)|
    ensures var d' := Run(d, PrepareSteps(d, payload)[..k]);
            d'.live == d.live && d'.journal == d.journal && d'.pending == d.pending
  {
    PrepareRuns(d, payload);
    var steps := PrepareSteps(d, payload)[..k];
    if k == 0 {
      assert steps == [];
    } else if k == 1 {
      assert steps == [Stage(payload)];
      RunOne(d, Stage(payload));
    } else {
      assert steps == [Stage(payload), ClearBackup];
      RunTwo(d, Stage(payload), ClearBackup);
    }
  }

  lemma {:induction false} PreparedReady(d: Disk, payload: Tree, ops: seq<PlannedOp>)
    requires Applicable(payload, ops)
    ensures Ready(Prepared(d, payload), d.live, ops)
    ensures Missing(Prepared(d, payload)) == {}
  {
    forall p
      ensures TracksAt(Prepared(d, payload), d.live, p)
    {
    }
  }

  lemma {:induction false} ApplyStepsShape(d: Disk, payload: Tree, ops: seq<PlannedOp>)
    requires Settled(d)
    ensures var prepare, loop := PrepareSteps(d, payload), LoopSteps(Prepared(d, payload), ops);
            && ApplySteps(d, payload, ops) == prepare + loop + FinishSteps
            && |prepare| == 3 && |FinishSteps| == 2
  {
    PrepareRuns(d, payload);
  }

  lemma {:induction false} ApplyCutInLoop(d: Disk, payload: Tree, ops: seq<PlannedOp>, k: nat)
    requires Settled(d) && Applicable(payload, ops)
    requires 3 <= k <= 3 + |LoopSteps(Prepared(d, payload), ops)|
    ensures |ApplySteps(d, payload, ops)| == |LoopSteps(Prepared(d, payload), ops)| + 5
    ensures var all := ApplySteps(d, payload, ops);
            var d' := Run(d, all[..k]);
            && Tracks(d', d.live) && Missing(d') == OpenWindow(all[..k])
            && NeedsRollback(d') && !d'.pending
            && (k + 2 == |all| ==> d'.live == Patch(d.live, payload, ops) && Missing(d') == {})
  {
    ApplyStepsShape(d, payload, ops);
    var all := ApplySteps(d, payload, ops);
    var prepare := PrepareSteps(d, payload);
    var d3 := Prepared(d, payload);
    var loop := LoopSteps(d3, ops);
    PrepareRuns(d, payload);
    PreparedReady(d, payload, ops);
    assert all[..k] == prepare + loop[..k - 3];
    RunConcat(d, prepare, loop[..k - 3]);
    LoopCut(d3, d.live, ops, k - 3);
    if k > 3 {
      assert all[..k][k - 1] == loop[..k - 3][k - 4];
    } else {
      assert loop[..0] == [] && all[..k][2] == StartJournal;
    }
    if k + 2 == |all| {
      assert loop[..k - 3] == loop;
      LoopPatches(d3, d.live, ops);
    }
  }

  lemma {:induction false} ApplyCutAtEnd(d: Disk, payload: Tree, ops: seq<PlannedOp>, k: nat)
    requires Settled(d) && Applicable(payload, ops)
    requires |ApplySteps(d, payload, ops)| - 2 < k <= |ApplySteps(d, payload, ops)|
    ensures var all := ApplySteps(d, payload, ops);
            var d' := Run(d, all[..k]);
            && Tracks(d', d.live) && Missing(d') == {} && OpenWindow(all[..k]) == {}
            && d'.live == Patch(d.live, payload, ops)
            && (k == |all| - 1 ==> !NeedsRollback(d'))
            && (k == |all| ==> d'.pending)
  {
    ApplyStepsShape(d, payload, ops);
    var all := ApplySteps(d, payload, ops);
    var body := PrepareSteps(d, payload) + LoopSteps(Prepared(d, payload), ops);
    ApplyCutInLoop(d, payload, ops, |all| - 2);
    assert all[..|all| - 2] == body;
    var r := k - |body|;
    assert all[..k] == body + FinishSteps[..r];
    RunConcat(d, body, FinishSteps[..r]);
    FinishCut(Run(d, body), d.live, r);
    assert all[..k][k - 1] == FinishSteps[r - 1];
  }

  /**
   Every cut of a whole apply. Up to the end of the loop the disk tracks the old tree, with the
   open window as the only loss; after the loop the new tree is complete.
   */
  lemma {:induction false} ApplyCut(d: Disk, payload: Tree, ops: seq<PlannedOp>, k: nat)
    requires Settled(d) && Applicable(payload, ops) && k <= |ApplySteps(d, payload, ops)|
    ensures var all := ApplySteps(d, payload, ops);
            var d' := Run(d, all[..k]);
            && |all| >= 5
            && (k < 3 ==> d'.live == d.live && !NeedsRollback(d') && OpenWindow(all[..k]) == {})
            && (3 <= k ==> Tracks(d', d.live) && Missing(d') == OpenWindow(all[..k]))
            && (3 <= k <= |all| - 2 ==> NeedsRollback(d') && !d'.pending)
            && (|all| - 2 <= k ==> d'.live == Patch(d.live, payload, ops) && Missing(d') == {})
            && (k == |all| - 1 ==> !NeedsRollback(d'))
            && (k == |all| ==> d'.pending)
  {
    ApplyStepsShape(d, payload, ops);
    var all := ApplySteps(d, payload, ops);
    if k < 3 {
      PrepareCut(d, payload, k);
      assert all[..k] == PrepareSteps(d, payload)[..k];
    } else if k <= |all| - 2 {
      ApplyCutInLoop(d, payload, ops, k);
    } else {
      ApplyCutAtEnd(d, payload, ops, k);
    }
  }

  lemma {:induction false} FinishCut(d: Disk, base: Tree, r: nat)
    requires Tracks(d, base) && 0 < r <= 2
    ensures var d' := Run(d, FinishSteps[..r]);
            && Tracks(d', base) && d'.live == d.live && Missing(d') == Missing(d)
            && (r == 1 ==> d'.pending == d.pending && d'.journal.value.status == PendingHealth)
            && (r == 2 ==> d'.pending)
  {
    StatusTracks(d, base, PendingHealth);
    StatusTracks(Do(d, LogStatus(PendingHealth)), base, PendingHealth);
    RunOne(d, LogStatus(PendingHealth));
    RunTwo(d, LogStatus(PendingHealth), SetPending);
    assert FinishSteps[..1] == [LogStatus(PendingHealth)];
    assert FinishSteps[..2] == FinishSteps;
  }

  /**
   Crash recovery. Cut an update after any of its steps and run one recovery: every path is back
   to its old content, except the one whose overwrite was journaled by the last step before the
   cut, which is lost. The exception that ends on the new tree instead is the cut between the
   `pending_health` status and the pending marker.
   */
  lemma {:induction false} CrashRecovery(d: Disk, payload: Tree, ops: seq<PlannedOp>, k: nat)
    requires Settled(d) && Applicable(payload, ops) && k <= |ApplySteps(d, payload, ops)|
    ensures var all := ApplySteps(d, payload, ops);
            var cut := Run(d, all[..k]);
            var d' := Run(cut, RecoverSteps(cut));
            && Settled(d')
            && d'.live ==
               if k == |all| - 1 then Patch(d.live, payload, ops)
               else d.live - OpenWindow(all[..k])
  {
    ApplyCut(d, payload, ops, k);
    var all := ApplySteps(d, payload, ops);
    var cut := Run(d, all[..k]);
    if k < 3 {
      PrepareRuns(d, payload);
      assert all[..k] == PrepareSteps(d, payload)[..k];
    } else if k != |all| - 1 {
      RollbackComplete(cut, d.live);
    }
    if k < 3 || k == |all| - 1 {
      assert Run(cut, RecoverSteps(cut)) == cut;
    }
    assert d.live - {} == d.live;
  }
}
