/** The updater itself, changing its files in place. */
module RuntimeUpdater {
  // `power` counts the durable steps until the power is cut; with none left nothing changes any
  // more. `errorIn` counts the steps until one of them raises. Every method is tied to the step
  // lists of `RuntimeDisk`, so the theorems about their prefixes are theorems about these methods.

  import opened Common
  import opened RuntimeDisk
  import opened UpdatePackage
  import opened PackageValidator
  import opened PackageBuilder
  import opened UpdateRuns

  datatype Control = Control(disk: Disk, power: nat, errorIn: nat, raised: bool)

  /** How many more steps take effect. */
  function Budget(c: Control): nat {
    if c.raised then 0 else Min(c.power, c.errorIn)
  }

  /** Attempting `steps` one after the other. */
  function Exec(c: Control, steps: seq<Step>): Control {
    var n := Min(|steps|, Budget(c));
    Control(Run(c.disk, steps[..n]), c.power - n, c.errorIn - n,
            c.raised || (|steps| > c.errorIn && c.power > c.errorIn))
  }

  /** Attempting `a` and then `b`; `b` matters only if `a` went through. */
  lemma {:induction false} ExecThen(c: Control, a: seq<Step>, b: seq<Step>, b': seq<Step>)
    requires |a| <= Budget(c) ==> b == b'
    ensures Exec(Exec(c, a), b') == Exec(c, a + b)
  {
    var c1 := Exec(c, a);
    if |a| <= Budget(c) {
      assert a[..|a|] == a;
      var n := Min(|b|, Budget(c1));
      assert (a + b)[..|a| + n] == a + b[..n];
      RunConcat(c.disk, a, b[..n]);
    } else {
      var n := Budget(c);
      assert (a + b)[..n] == a[..n];
      assert b'[..0] == [];
    }
  }

  /** No step is going to raise. */
  predicate NoError(c: Control) {
    !c.raised && c.errorIn == c.power
  }

  /** With no error ahead, attempting steps is doing them until the power is cut. */
  lemma {:induction false} ExecNoError(c: Control, steps: seq<Step>)
    requires NoError(c)
    ensures NoError(Exec(c, steps))
    ensures Exec(c, steps).disk == Run(c.disk, Taken(steps, c.power))
    ensures Exec(c, steps).power == c.power - Min(|steps|, c.power)
  {
  }

  /** A loop in which step number `error` raises, and what the two ways out of it do next. */
  lemma {:induction false} ExecLoop(c: Control, loop: seq<Step>, error: nat, onError: seq<Step>, finish: seq<Step>)
    requires NoError(c)
    ensures var c1 := Exec(c.(errorIn := error), loop);
            var c2 := c1.(errorIn := c1.power, raised := false);
            && (c1.raised ==> error < |loop| && c1.disk == Run(c.disk, loop[..error]))
            && Exec(c, if error < |loop| then loop[..error] + onError else loop + finish) ==
               if c1.raised then Exec(c2, onError) else Exec(c2, finish)
  {
    var c1 := Exec(c.(errorIn := error), loop);
    var c2 := c1.(errorIn := c1.power, raised := false);
    if error < |loop| {
      var done := loop[..error];
      if c1.raised {
        assert Exec(c, done) == c2 by {
          assert done[..error] == done;
        }
        ExecThen(c, done, onError, onError);
      } else {
        assert (done + onError)[..c.power] == loop[..c.power];
        assert c1.power == 0;
        assert finish[..0] == [];
      }
    } else {
      assert Exec(c, loop) == c2;
      ExecThen(c, loop, finish, finish);
    }
  }

  /** The `try` block of `apply_runtime`, with an error in place of step `error` of its loop. */
  function TransactSteps(d: Disk, ops: seq<PlannedOp>, error: nat): seq<Step> {
    var loop := LoopSteps(d, ops);
    if error < |loop| then loop[..error] + RollbackSteps(Run(d, loop[..error])) else loop + FinishSteps
  }

  /** All of `apply_runtime`, with an error in place of step `error` of its loop. */
  function FailingApplySteps(d: Disk, payload: Tree, ops: seq<PlannedOp>, error: nat): seq<Step> {
    var prepare := PrepareSteps(d, payload);
    prepare + TransactSteps(Run(d, prepare), ops, error)
  }

  /** Boot-time work: recovery and then, when the request passes every check, the update. */
  function PendingSteps(d: Disk, update: Option<Manifest>, payload: Tree, error: nat): seq<Step> {
    var recover := RecoverSteps(d);
    recover + if update.Some? then FailingApplySteps(Run(d, recover), payload, PlanOps(update.value), error) else []
  }

  /** The request after the checks of `apply_pending` on the recovered tree. */
  ghost function Checked(live: Tree, request: Option<Manifest>, names: set<string>, abiInRange: bool): Option<Manifest> {
    if request.Some? && ValidManifest(request.value, names) && Compatible(live, request.value, abiInRange)
    then request else None
  }

  lemma {:induction false} CheckedIs(live: Tree, request: Option<Manifest>, names: set<string>, abiInRange: bool)
    ensures Checked(live, request, names, abiInRange) ==
            if request.Some? && WellMade(request.value, names) && Fits(live, request.value, abiInRange)
            then request else None
  {
    if request.Some? {
      ValidIsWellMade(request.value, names);
      CompatibleIs(live, request.value, abiInRange);
    }
  }

  /** The disk after `apply_pending`, when the power lasts for `power` steps. */
  ghost function AfterPending(d: Disk, request: Option<Manifest>, names: set<string>, payload: Tree, abiInRange: bool,
                              error: nat, power: nat): Disk
  {
    var update := Checked(Run(d, RecoverSteps(d)).live, request, names, abiInRange);
    Run(d, Taken(PendingSteps(d, update, payload, error), power))
  }

  class Updater {
    var live: Tree
    var backup: Tree
    var staging: Tree
    var journal: Option<Journal>
    var pending: bool
    var power: nat
    var errorIn: nat
    var raised: bool

    function State(): Control
      reads this
    {
      Control(Disk(live, backup, staging, journal, pending), power, errorIn, raised)
    }

    constructor (d: Disk, power: nat)
      ensures State() == Control(d, power, power, false)
    {
      live, backup, staging, journal, pending := d.live, d.backup, d.staging, d.journal, d.pending;
      this.power, errorIn, raised := power, power, false;
    }

    /** Counts one attempted step; `go` says whether it takes effect. */
    method Attempt() returns (go: bool)
      modifies this`power, this`errorIn, this`raised
      ensures go == (Budget(old(State())) > 0)
      ensures go ==> power == old(power) - 1 && errorIn == old(errorIn) - 1 && raised == old(raised)
      ensures !go ==> power == old(power) && errorIn == old(errorIn)
                      && raised == (old(raised) || (old(power) > 0 && old(errorIn) == 0))
    {
      go := !raised && power > 0 && errorIn > 0;
      if go {
        power, errorIn := power - 1, errorIn - 1;
      } else if power > 0 && errorIn == 0 {
        raised := true;
      }
    }

    method JournalWrite(j: Journal, ghost s: Step)
      requires Do(State().disk, s) == State().disk.(journal := Some(j))
      modifies this`power, this`errorIn, this`raised, this`journal
      ensures State() == Exec(old(State()), [s])
      ensures old(journal).Some? ==> journal.Some?
    {
      RunOne(State().disk, s);
      assert [s][..1] == [s] && [s][..0] == [];
      var go := Attempt();
      if go {
        journal := Some(j);
      }
    }

    /** os.replace(target, backup) */
    method ReplaceTargetToBackup(p: Path)
      requires p in live
      modifies this`power, this`errorIn, this`raised, this`live, this`backup
      ensures State() == Exec(old(State()), [MoveToBackup(p)])
    {
      ghost var s := MoveToBackup(p);
      RunOne(State().disk, s);
      assert [s][..1] == [s] && [s][..0] == [];
      var go := Attempt();
      if go {
        backup := backup[p := live[p]];
        live := live - {p};
      }
    }

    /** os.replace(staged, target) */
    method ReplaceStagedToTarget(p: Path)
      modifies this`power, this`errorIn, this`raised, this`live, this`staging
      ensures State() == Exec(old(State()), [Install(p)])
    {
      ghost var s := Install(p);
      RunOne(State().disk, s);
      assert [s][..1] == [s] && [s][..0] == [];
      var go := Attempt();
      if go && p in staging {
        live := live[p := staging[p]];
        staging := staging - {p};
      }
    }

    /** os.replace(backup, target) */
    method ReplaceBackupToTarget(p: Path)
      requires p in backup
      modifies this`power, this`errorIn, this`raised, this`live, this`backup
      ensures State() == Exec(old(State()), [Restore(p)])
    {
      ghost var s := Restore(p);
      RunOne(State().disk, s);
      assert [s][..1] == [s] && [s][..0] == [];
      var go := Attempt();
      if go {
        live := live[p := backup[p]];
        backup := backup - {p};
      }
    }

    method RemoveTarget(p: Path)
      modifies this`power, this`errorIn, this`raised, this`live
      ensures State() == Exec(old(State()), [RemoveLive(p)])
    {
      ghost var s := RemoveLive(p);
      RunOne(State().disk, s);
      assert [s][..1] == [s] && [s][..0] == [];
      var go := Attempt();
      if go {
        live := live - {p};
      }
    }

    method SetPendingMarker(present: bool)
      modifies this`power, this`errorIn, this`raised, this`pending
      ensures State() == Exec(old(State()), [if present then SetPending else ClearPending])
    {
      ghost var s := if present then SetPending else ClearPending;
      RunOne(State().disk, s);
      assert [s][..1] == [s] && [s][..0] == [];
      var go := Attempt();
      if go {
        pending := present;
      }
    }

    /** extract_payload */
    method ExtractPayload(payload: Tree)
      modifies this`power, this`errorIn, this`raised, this`staging
      ensures State() == Exec(old(State()), [Stage(payload)])
    {
      ghost var s := Stage(payload);
      RunOne(State().disk, s);
      assert [s][..1] == [s] && [s][..0] == [];
      var go := Attempt();
      if go {
        staging := payload;
      }
    }

    /** remove_path(BACKUP_ROOT) and the first journal */
    method StartTransaction()
      modifies this`power, this`errorIn, this`raised, this`backup, this`journal
      ensures State() == Exec(old(State()), [ClearBackup, StartJournal])
    {
      ghost var c := State();
      ghost var s := ClearBackup;
      RunOne(State().disk, s);
      assert [s][..1] == [s] && [s][..0] == [];
      var go := Attempt();
      if go {
        backup := map[];
      }
      JournalWrite(Journal(Applying, []), StartJournal);
      ExecThen(c, [s], [StartJournal], [StartJournal]);
      assert [s] + [StartJournal] == [ClearBackup, StartJournal];
    }

    method UndoOperation(op: Operation)
      modifies this`power, this`errorIn, this`raised, this`live, this`backup
      ensures State() == Exec(old(State()), UndoOpSteps(old(State().disk), op))
    {
      ghost var c := State();
      ghost var d := c.disk;
      var p := op.path;
      ghost var a := if (op.installRequested || op.installed) && p in d.live then [RemoveLive(p)] else [];
      ghost var b := if op.existed && p in d.backup then [Restore(p)] else [];
      ExecNothing(c);
      if (op.installRequested || op.installed) && p in live {
        RemoveTarget(p);
      }
      ExecThen(c, a, b, b);
      ExecNothing(State());
      if op.existed && p in backup {
        ReplaceBackupToTarget(p);
      }
    }

    /** `rollback_runtime` */
    method RollbackRuntime()
      modifies this
      ensures State() == Exec(old(State()), RollbackSteps(old(State().disk)))
    {
      ghost var c := State();
      if journal.None? {
        SetPendingMarker(false);
        return;
      }
      var ops := journal.value.operations;
      ghost var undo := UndoSteps(c.disk, ops);
      var n := |ops|;
      assert ops[..n] == ops;
      while n > 0
        invariant n <= |ops|
        invariant journal == old(journal)
        invariant Exec(State(), UndoSteps(State().disk, ops[..n])) == Exec(c, undo)
      {
        ghost var before := State();
        ghost var first := UndoOpSteps(before.disk, ops[n - 1]);
        assert ops[..n][..n - 1] == ops[..n - 1];
        UndoOperation(ops[n - 1]);
        CompletedRun(before, first);
        ExecThen(before, first, UndoSteps(Run(before.disk, first), ops[..n - 1]),
                 UndoSteps(State().disk, ops[..n - 1]));
        n := n - 1;
      }
      assert ops[..0] == [];
      ExecNothing(State());
      ghost var c1 := State();
      JournalWrite(journal.value.(status := RolledBack), LogStatus(RolledBack));
      ghost var c2 := State();
      SetPendingMarker(false);
      ExecThen(c1, [LogStatus(RolledBack)], [ClearPending], [ClearPending]);
      assert [LogStatus(RolledBack)] + [ClearPending] == [LogStatus(RolledBack), ClearPending];
      ExecThen(c, undo, [LogStatus(RolledBack), ClearPending], [LogStatus(RolledBack), ClearPending]);
    }

    /** The body of the loop of `apply_runtime`. */
    method ApplyOperation(o: PlannedOp)
      requires journal.Some?
      modifies this
      ensures State() == Exec(old(State()), OpSteps(old(State().disk), o))
      ensures journal.Some?
    {
      ghost var c := State();
      var existed := o.path in live;
      var op := Operation(o.path, existed, o.installs, false, false);
      ghost var all := OpSteps(c.disk, o);
      ghost var done := [LogOperation(op)];
      JournalWrite(Journal(journal.value.status, journal.value.operations + [op]), LogOperation(op));
      ghost var c1 := State();
      ghost var move := if existed then [MoveToBackup(o.path), LogBackedUp] else [];
      if existed {
        ReplaceTargetToBackup(o.path);
        ghost var c2 := State();
        MarkLast(LogBackedUp);
        ExecThen(c1, [MoveToBackup(o.path)], [LogBackedUp], [LogBackedUp]);
        assert [MoveToBackup(o.path)] + [LogBackedUp] == move;
      } else {
        ExecNothing(c1);
      }
      ExecThen(c, done, move, move);
      ghost var c3 := State();
      ghost var place := if o.installs then [Install(o.path), LogInstalled] else [];
      if o.installs {
        ReplaceStagedToTarget(o.path);
        MarkLast(LogInstalled);
        ExecThen(c3, [Install(o.path)], [LogInstalled], [LogInstalled]);
        assert [Install(o.path)] + [LogInstalled] == place;
      } else {
        ExecNothing(c3);
      }
      ExecThen(c, done + move, place, place);
      assert all == done + move + place;
    }

    /** Sets a flag of the newest journal entry and writes the journal. */
    method MarkLast(s: Step)
      requires s == LogBackedUp || s == LogInstalled
      requires journal.Some?
      modifies this`power, this`errorIn, this`raised, this`journal
      ensures State() == Exec(old(State()), [s])
      ensures journal.Some?
    {
      var ops := journal.value.operations;
      if ops == [] {
        RunOne(State().disk, s);
        assert [s][..1] == [s] && [s][..0] == [];
        var go := Attempt();
      } else {
        var last := ops[|ops| - 1];
        var marked := if s == LogBackedUp then last.(backedUp := true) else last.(installed := true);
        JournalWrite(WithLast(journal.value, marked), s);
      }
    }

    /** The loop of `apply_runtime`. */
    method ApplyLoop(ops: seq<PlannedOp>)
      requires journal.Some?
      modifies this
      ensures State() == Exec(old(State()), LoopSteps(old(State().disk), ops))
      ensures journal.Some?
    {
      ghost var c := State();
      assert ops[0..] == ops;
      for i := 0 to |ops|
        invariant journal.Some?
        invariant Exec(State(), LoopSteps(State().disk, ops[i..])) == Exec(c, LoopSteps(c.disk, ops))
      {
        ghost var before := State();
        ghost var first := OpSteps(before.disk, ops[i]);
        assert ops[i..][0] == ops[i] && ops[i..][1..] == ops[i + 1..];
        ApplyOperation(ops[i]);
        CompletedRun(before, first);
        ExecThen(before, first, LoopSteps(Run(before.disk, first), ops[i + 1..]),
                 LoopSteps(State().disk, ops[i + 1..]));
      }
      ExecNothing(State());
    }

    /** `recover_prior_runtime` */
    method RecoverPriorRuntime()
      modifies this
      ensures State() == Exec(old(State()), RecoverSteps(old(State().disk)))
    {
      ExecNothing(State());
      if pending {
        RollbackRuntime();
      } else if journal.Some? && journal.value.status == Applying {
        RollbackRuntime();
      }
    }

    /** `apply_runtime` up to its loop. */
    method PrepareUpdate(payload: Tree)
      modifies this
      ensures State() == Exec(old(State()), PrepareSteps(old(State().disk), payload))
      ensures journal.Some? || Budget(State()) == 0
    {
      ghost var c := State();
      ExtractPayload(payload);
      ghost var a := [Stage(payload)];
      CompletedRun(c, a);
      RunOne(c.disk, Stage(payload));
      ghost var c1 := State();
      ghost var b := if c.disk.pending then RollbackSteps(Do(c.disk, Stage(payload))) else [];
      ghost var b' := if pending then RollbackSteps(State().disk) else [];
      ExecNothing(State());
      if pending {
        RollbackRuntime();
      }
      ExecThen(c, a, b, b');
      ghost var c2 := State();
      StartTransaction();
      Started(c2);
      ExecThen(c, a + b, [ClearBackup, StartJournal], [ClearBackup, StartJournal]);
    }

    /** The loop of `apply_runtime` with its exception handler, and what follows it. */
    method Transact(ops: seq<PlannedOp>, error: nat) returns (ok: bool)
      requires NoError(State()) && journal.Some?
      modifies this
      ensures State() == Exec(old(State()), TransactSteps(old(State().disk), ops, error))
      ensures power > 0 ==> (ok <==> error >= |LoopSteps(old(State().disk), ops)|)
    {
      ghost var c := State();
      ghost var loop := LoopSteps(c.disk, ops);
      ghost var onError := if error < |loop| then RollbackSteps(Run(c.disk, loop[..error])) else [];
      ExecLoop(c, loop, error, onError, FinishSteps);
      errorIn := error;
      ApplyLoop(ops);
      ok := !raised;
      raised, errorIn := false, power;
      if !ok {
        RollbackRuntime();
      } else {
        FinishUpdate();
      }
    }

    method FinishUpdate()
      requires journal.Some?
      modifies this
      ensures State() == Exec(old(State()), FinishSteps)
    {
      ghost var c := State();
      JournalWrite(journal.value.(status := PendingHealth), LogStatus(PendingHealth));
      SetPendingMarker(true);
      ExecThen(c, [LogStatus(PendingHealth)], [SetPending], [SetPending]);
      assert [LogStatus(PendingHealth)] + [SetPending] == FinishSteps;
    }

    /**
     `apply_runtime`, in which step number `error` of the loop raises if there is one: then the
     exception handler rolls back. `ok` says whether the update went through.
     */
    method ApplyRuntime(payload: Tree, m: Manifest, error: nat) returns (ok: bool)
      requires NoError(State())
      modifies this
      ensures State() == Exec(old(State()), FailingApplySteps(old(State().disk), payload, PlanOps(m), error))
      ensures power > 0 ==>
                (ok <==> error >= |LoopSteps(Run(old(State().disk), PrepareSteps(old(State().disk), payload)), PlanOps(m))|)
    {
      ghost var c := State();
      ghost var prepare := PrepareSteps(c.disk, payload);
      PrepareUpdate(payload);
      ExecNoError(c, prepare);
      CompletedRun(c, prepare);
      ghost var rest := TransactSteps(Run(c.disk, prepare), PlanOps(m), error);
      if power == 0 {
        Cut(c, prepare, prepare + rest);
        return false;
      }
      ok := Transact(PlanOps(m), error);
      ExecThen(c, prepare, rest, rest);
    }

    /** `apply_pending` for a runtime request. */
    method ApplyPending(request: Option<Manifest>, names: set<string>, payload: Tree, abiInRange: bool, error: nat)
      requires NoError(State())
      modifies this
      ensures State().disk == AfterPending(old(State().disk), request, names, payload, abiInRange, error, old(power))
      ensures var d := old(State().disk);
              var d1 := Run(d, RecoverSteps(d));
              State().disk ==
              if request.Some? && WellMade(request.value, names) && Fits(d1.live, request.value, abiInRange)
              then Run(d, Taken(RecoverSteps(d) + FailingApplySteps(d1, payload, PlanOps(request.value), error),
                                old(power)))
              else Run(d, Taken(RecoverSteps(d), old(power)))
    {
      ghost var c := State();
      ghost var recover := RecoverSteps(c.disk);
      ghost var d1 := Run(c.disk, recover);
      ghost var update := Checked(d1.live, request, names, abiInRange);
      ghost var all := PendingSteps(c.disk, update, payload, error);
      CheckedIs(d1.live, request, names, abiInRange);
      RecoverPriorRuntime();
      ExecNoError(c, recover);
      ExecNoError(c, all);
      CompletedRun(c, recover);
      if power == 0 {
        Cut(c, recover, all);
        return;
      }
      if request.Some? {
        var valid := ValidateManifest(request.value, names);
        if valid && Compatible(live, request.value, abiInRange) {
          ghost var steps := FailingApplySteps(d1, payload, PlanOps(request.value), error);
          ExecThen(c, recover, steps, steps);
          var _ := ApplyRuntime(payload, request.value, error);
          return;
        }
      }
      assert all == recover + [] == recover;
    }

    /** `mark_healthy`, its runtime half. */
    method MarkHealthy() returns (ok: bool)
      requires NoError(State())
      modifies this
      ensures ok <==> !(old(pending) && old(journal).None?)
      ensures State().disk == Run(old(State().disk),
                                  Taken(if old(pending) && ok then ConfirmSteps else [], old(power)))
    {
      ghost var c := State();
      ExecNoError(c, []);
      ExecNoError(c, ConfirmSteps);
      if pending {
        if journal.None? {
          return false;
        }
        JournalWrite(journal.value.(status := Healthy), LogStatus(Healthy));
        SetPendingMarker(false);
        ExecThen(c, [LogStatus(Healthy)], [ClearPending], [ClearPending]);
        assert [LogStatus(Healthy)] + [ClearPending] == ConfirmSteps;
      }
      ok := true;
    }
  }

  /** Once the power is gone during `a`, what would follow does not matter. */
  lemma {:induction false} Cut(c: Control, a: seq<Step>, all: seq<Step>)
    requires NoError(c) && a <= all && c.power <= |a|
    ensures Exec(c, all) == Exec(c, a)
  {
    assert all[..c.power] == a[..c.power];
  }

  lemma {:induction false} Started(c: Control)
    ensures var c1 := Exec(c, [ClearBackup, StartJournal]);
            c1.disk.journal.Some? || Budget(c1) == 0
  {
    RunTwo(c.disk, ClearBackup, StartJournal);
    assert [ClearBackup, StartJournal][..2] == [ClearBackup, StartJournal];
  }

  lemma {:induction false} ExecNothing(c: Control)
    ensures Exec(c, []) == c
  {
  }

  lemma {:induction false} CompletedRun(c: Control, steps: seq<Step>)
    ensures |steps| <= Budget(c) ==> Exec(c, steps).disk == Run(c.disk, steps)
  {
    assert steps[..|steps|] == steps;
  }

  // ----- the events of whole runs are what the updater does -----

  /** Recovery leaves nothing pending. */
  lemma {:induction false} RecoveryClearsPending(d: Disk)
    ensures !Run(d, RecoverSteps(d)).pending
  {
    var all := RecoverSteps(d);
    if NeedsRollback(d) {
      var n := |all| - 1;
      assert all == all[..n] + [ClearPending];
      RunConcat(d, all[..n], [ClearPending]);
      RunOne(Run(d, all[..n]), ClearPending);
    }
  }

  /** The manifest of an accepted request. */
  ghost function ManifestIn(world: World, live: Tree, request: Option<Package>, abi: bool): Option<Manifest>
    requires WellFormed(world)
  {
    if Accepted(world, live, request, abi) then Some(ManifestOf(world, request.value)) else None
  }

  lemma {:induction false} WholeUpdate(d: Disk, m: Manifest, error: nat)
    requires error >= |LoopSteps(Run(d, PrepareSteps(d, Payload(m.files))), PlanOps(m))|
    ensures FailingApplySteps(d, Payload(m.files), PlanOps(m), error) == ApplySteps(d, Payload(m.files), PlanOps(m))
  {
    var prepare := PrepareSteps(d, Payload(m.files));
    Assoc(prepare, LoopSteps(Run(d, prepare), PlanOps(m)), FinishSteps);
  }

  /**
   A boot of the run model is `ApplyPending` on an updater whose power lasts for `cut` steps, when
   no step of the loop raises.
   */
  lemma {:induction false} BootIsApplyPending(world: World, m: Device, request: Option<Package>, abi: bool, cut: nat,
                                              error: nat)
    requires WellFormed(world)
    requires var d1 := Run(m.disk, RecoverSteps(m.disk));
             Accepted(world, d1.live, request, abi) ==>
               error >= |UpdateSteps(world, d1, request, abi)|
    ensures var update := ManifestIn(world, Run(m.disk, RecoverSteps(m.disk)).live, request, abi);
            var payload := if update.Some? then Payload(update.value.files) else map[];
            Next(world, m, Boot(request, abi, cut)).disk ==
            Run(m.disk, Taken(PendingSteps(m.disk, update, payload, error), cut))
  {
    var recover := RecoverSteps(m.disk);
    var d1 := Run(m.disk, recover);
    PendingIsUpdate(world, m.disk, request, abi, error);
    CutAfter(m.disk, recover, UpdateSteps(world, d1, request, abi), cut);
  }

  lemma {:induction false} PendingIsUpdate(world: World, d: Disk, request: Option<Package>, abi: bool, error: nat)
    requires WellFormed(world)
    requires var d1 := Run(d, RecoverSteps(d));
             Accepted(world, d1.live, request, abi) ==> error >= |UpdateSteps(world, d1, request, abi)|
    ensures var d1 := Run(d, RecoverSteps(d));
            var update := ManifestIn(world, d1.live, request, abi);
            var payload := if update.Some? then Payload(update.value.files) else map[];
            PendingSteps(d, update, payload, error) == RecoverSteps(d) + UpdateSteps(world, d1, request, abi)
  {
    var d1 := Run(d, RecoverSteps(d));
    if Accepted(world, d1.live, request, abi) {
      WholeUpdate(d1, ManifestOf(world, request.value), error);
    }
  }

  /** A cut during the recovery, or during what follows it. */
  lemma {:induction false} CutAfter(d: Disk, recover: seq<Step>, update: seq<Step>, cut: nat)
    ensures Run(d, Taken(recover + update, cut)) ==
            if cut < |recover| then Run(d, recover[..cut]) else Run(Run(d, recover), Taken(update, cut - |recover|))
  {
    RunPrefixOfConcat(d, recover, update, Min(cut, |recover| + |update|));
    if cut >= |recover| {
      assert recover[..|recover|] == recover;
      assert Run(Run(d, recover), update[..0]) == Run(d, recover);
    }
  }

  lemma {:induction false} FailingSteps(d: Disk, m: Manifest, error: nat)
    requires var prepare := PrepareSteps(d, Payload(m.files));
             |prepare| <= error < |prepare| + |LoopSteps(Run(d, prepare), PlanOps(m))|
    ensures var prepare := PrepareSteps(d, Payload(m.files));
            var all := ApplySteps(d, Payload(m.files), PlanOps(m));
            error < |all| &&
            FailingApplySteps(d, Payload(m.files), PlanOps(m), error - |prepare|) ==
            all[..error] + RollbackSteps(Run(d, all[..error]))
  {
    var prepare := PrepareSteps(d, Payload(m.files));
    var loop := LoopSteps(Run(d, prepare), PlanOps(m));
    var all := ApplySteps(d, Payload(m.files), PlanOps(m));
    var e := error - |prepare|;
    assert all[..error] == prepare + loop[..e];
    RunConcat(d, prepare, loop[..e]);
    Assoc(prepare, loop[..e], RollbackSteps(Run(d, all[..error])));
  }

  /** What an updater attempts when step `error` of the accepted update raises. */
  ghost function FailingBootSteps(world: World, d: Disk, request: Option<Package>, abi: bool, error: nat): seq<Step>
    requires WellFormed(world)
    requires InLoop(UpdateSteps(world, Run(d, RecoverSteps(d)), request, abi), error)
  {
    var m := ManifestOf(world, request.value);
    PendingSteps(d, Some(m), Payload(m.files), error - 3)
  }

  /**
   An error at step `error` of an update and a rollback cut after `cut` steps, as the run model has
   it, end where the recovery, the steps before the error and the rollback lead when all of it is
   cut after that many steps.
   */
  lemma {:induction false} FailingUpdateIsPrefix(d: Disk, recover: seq<Step>, all: seq<Step>, error: nat, cut: nat)
    requires InLoop(all, error)
    ensures var d1 := Run(d, recover);
            FailingUpdate(d1, all, error, cut).disk ==
            Run(d, Taken(recover + (all[..error] + RollbackSteps(Run(d1, all[..error]))), |recover| + error + cut))
  {
    AfterError(d, recover, all[..error], RollbackSteps(Run(Run(d, recover), all[..error])), cut);
  }

  /** Those are the steps that `ApplyPending` attempts when that step of its loop raises. */
  lemma {:induction false} FailingBootAttempts(world: World, d: Disk, request: Option<Package>, abi: bool, error: nat)
    requires WellFormed(world)
    requires InLoop(UpdateSteps(world, Run(d, RecoverSteps(d)), request, abi), error)
    ensures var d1 := Run(d, RecoverSteps(d));
            var all := UpdateSteps(world, d1, request, abi);
            FailingBootSteps(world, d, request, abi, error) ==
            RecoverSteps(d) + (all[..error] + RollbackSteps(Run(d1, all[..error])))
  {
    var d1 := Run(d, RecoverSteps(d));
    var manifest := ManifestOf(world, request.value);
    RecoveryClearsPending(d);
    assert |PrepareSteps(d1, Payload(manifest.files))| == 3;
    FailingSteps(d1, manifest, error);
  }

  lemma {:induction false} AfterError(d: Disk, recover: seq<Step>, done: seq<Step>, rollback: seq<Step>, cut: nat)
    ensures Run(d, Taken(recover + (done + rollback), |recover| + |done| + cut)) ==
            Run(Run(Run(d, recover), done), Taken(rollback, cut))
  {
    assert Taken(recover + (done + rollback), |recover| + |done| + cut) == recover + (done + Taken(rollback, cut));
    RunConcat(d, recover, done + Taken(rollback, cut));
    RunConcat(Run(d, recover), done, Taken(rollback, cut));
  }
}
