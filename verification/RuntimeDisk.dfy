/** Durable state and atomic steps of a runtime update. */
module RuntimeDisk {
  // Every rename and every journal write of `apply_runtime`, `rollback_runtime` and
  // `mark_healthy` is one `Step`. A power cut is "stop after some prefix of the steps".

  import opened Common

  type Path = string

  /** What the package format records about a path, hashes being read as content equality. */
  datatype Content = File(data: string, mode: nat) | Symlink(target: string)

  type Tree = map<Path, Content>

  datatype Status = Applying | PendingHealth | Healthy | RolledBack

  datatype Operation = Operation(
    path: Path,
    existed: bool,
    installRequested: bool,
    installed: bool,
    backedUp: bool)
  {
    /** The update replaces a file that was already there. */
    predicate Overwrites() { existed && installRequested }
  }

  datatype Journal = Journal(status: Status, operations: seq<Operation>)

  datatype Disk = Disk(
    live: Tree,                // PLUMOS_ROOT
    backup: Tree,              // BACKUP_ROOT/files
    staging: Tree,             // STAGING_ROOT/runtime-<version>.partial
    journal: Option<Journal>,  // JOURNAL_FILE
    pending: bool)             // RUNTIME_PENDING exists

  datatype Step =
    | Stage(payload: Tree)            // extract_payload
    | ClearBackup                     // remove_path(BACKUP_ROOT)
    | StartJournal                    // first journal_write, no operations yet
    | LogOperation(op: Operation)     // append and journal_write
    | MoveToBackup(path: Path)        // os.replace(target, backup)
    | LogBackedUp                     // backed_up = True, journal_write
    | Install(path: Path)             // os.replace(staged, target)
    | LogInstalled                    // installed = True, journal_write
    | LogStatus(status: Status)       // journal_write with a new status
    | SetPending                      // atomic_json(RUNTIME_PENDING)
    | ClearPending                    // RUNTIME_PENDING.unlink
    | RemoveLive(path: Path)          // remove_path(target)
    | Restore(path: Path)             // os.replace(backup, target)

  function WithLast(j: Journal, op: Operation): Journal
    requires j.operations != []
  {
    j.(operations := j.operations[|j.operations| - 1 := op])
  }

  /** The effect of one atomic step. Renaming a missing source changes nothing. */
  function Do(d: Disk, s: Step): Disk {
    match s
    case Stage(payload) => d.(staging := payload)
    case ClearBackup => d.(backup := map[])
    case StartJournal => d.(journal := Some(Journal(Applying, [])))
    case LogOperation(op) =>
      if d.journal.Some? then
        d.(journal := Some(d.journal.value.(operations := d.journal.value.operations + [op])))
      else d
    case MoveToBackup(p) =>
      if p in d.live then d.(live := d.live - {p}, backup := d.backup[p := d.live[p]]) else d
    case LogBackedUp =>
      if d.journal.Some? && d.journal.value.operations != [] then
        var ops := d.journal.value.operations;
        d.(journal := Some(WithLast(d.journal.value, ops[|ops| - 1].(backedUp := true))))
      else d
    case Install(p) =>
      if p in d.staging then d.(live := d.live[p := d.staging[p]], staging := d.staging - {p}) else d
    case LogInstalled =>
      if d.journal.Some? && d.journal.value.operations != [] then
        var ops := d.journal.value.operations;
        d.(journal := Some(WithLast(d.journal.value, ops[|ops| - 1].(installed := true))))
      else d
    case LogStatus(status) =>
      if d.journal.Some? then d.(journal := Some(d.journal.value.(status := status))) else d
    case SetPending => d.(pending := true)
    case ClearPending => d.(pending := false)
    case RemoveLive(p) => d.(live := d.live - {p})
    case Restore(p) =>
      if p in d.backup then d.(live := d.live[p := d.backup[p]], backup := d.backup - {p}) else d
  }

  function Run(d: Disk, steps: seq<Step>): Disk
    decreases |steps|
  {
    if steps == [] then d else Run(Do(d, steps[0]), steps[1..])
  }

  lemma {:induction false} RunConcat(d: Disk, a: seq<Step>, b: seq<Step>)
    ensures Run(d, a + b) == Run(Run(d, a), b)
    decreases |a|
  {
    if a == [] {
      assert a + b == b;
    } else {
      assert (a + b)[0] == a[0] && (a + b)[1..] == a[1..] + b;
      RunConcat(Do(d, a[0]), a[1..], b);
    }
  }

  lemma {:induction false} RunOne(d: Disk, s: Step)
    ensures Run(d, [s]) == Do(d, s)
  {
    assert [s][1..] == [];
  }

  lemma {:induction false} RunTwo(d: Disk, s: Step, t: Step)
    ensures Run(d, [s, t]) == Do(Do(d, s), t)
  {
    assert [s, t] == [s] + [t];
    RunConcat(d, [s], [t]);
    RunOne(d, s);
    RunOne(Do(d, s), t);
  }

  /** A prefix of `a + b` is a prefix of `a`, or all of `a` and then a prefix of `b`. */
  lemma {:induction false} RunPrefixOfConcat(d: Disk, a: seq<Step>, b: seq<Step>, k: nat)
    requires k <= |a| + |b|
    ensures Run(d, (a + b)[..k]) ==
            if k <= |a| then Run(d, a[..k]) else Run(Run(d, a), b[..k - |a|])
  {
    if k <= |a| {
      assert (a + b)[..k] == a[..k];
    } else {
      assert (a + b)[..k] == a + b[..k - |a|];
      RunConcat(d, a, b[..k - |a|]);
    }
  }

  // ----- the step lists the program performs -----

  /** One path of the update: installed from the staging area, or deleted. */
  datatype PlannedOp = PlannedOp(path: Path, installs: bool)

  /** The body of the loop in `apply_runtime` for one path. */
  function OpSteps(d: Disk, o: PlannedOp): seq<Step> {
    [LogOperation(Operation(o.path, o.path in d.live, o.installs, false, false))]
    + (if o.path in d.live then [MoveToBackup(o.path), LogBackedUp] else [])
    + (if o.installs then [Install(o.path), LogInstalled] else [])
  }

  function LoopSteps(d: Disk, ops: seq<PlannedOp>): seq<Step>
    decreases |ops|
  {
    if ops == [] then []
    else OpSteps(d, ops[0]) + LoopSteps(Run(d, OpSteps(d, ops[0])), ops[1..])
  }

  /** The undoing of one journal entry in `rollback_runtime`. */
  function UndoOpSteps(d: Disk, op: Operation): seq<Step> {
    (if (op.installRequested || op.installed) && op.path in d.live then [RemoveLive(op.path)] else [])
    + (if op.existed && op.path in d.backup then [Restore(op.path)] else [])
  }

  /** Journal entries are undone last to first. */
  function UndoSteps(d: Disk, ops: seq<Operation>): seq<Step>
    decreases |ops|
  {
    if ops == [] then []
    else
      var s := UndoOpSteps(d, ops[|ops| - 1]);
      s + UndoSteps(Run(d, s), ops[..|ops| - 1])
  }

  /** All of `rollback_runtime`. */
  function RollbackSteps(d: Disk): seq<Step> {
    if d.journal.None? then [ClearPending]
    else UndoSteps(d, d.journal.value.operations) + [LogStatus(RolledBack), ClearPending]
  }

  /** The test that opens `recover_prior_runtime`. */
  predicate NeedsRollback(d: Disk) {
    d.pending || (d.journal.Some? && d.journal.value.status == Applying)
  }

  /** All of `recover_prior_runtime`. */
  function RecoverSteps(d: Disk): seq<Step> {
    if NeedsRollback(d) then RollbackSteps(d) else []
  }

  /** `apply_runtime` up to the point where the loop starts. */
  function PrepareSteps(d: Disk, payload: Tree): seq<Step> {
    [Stage(payload)]
    + (if d.pending then RollbackSteps(Do(d, Stage(payload))) else [])
    + [ClearBackup, StartJournal]
  }

  const FinishSteps: seq<Step> := [LogStatus(PendingHealth), SetPending]

  /** All of `apply_runtime` for an update that meets no error. */
  function ApplySteps(d: Disk, payload: Tree, ops: seq<PlannedOp>): seq<Step> {
    var prepare := PrepareSteps(d, payload);
    prepare + LoopSteps(Run(d, prepare), ops) + FinishSteps
  }
}
