/** The two places where a file is lost, shown at power cuts. */
module RuntimeLosses {
  import opened Common
  import opened RuntimeDisk
  import opened RuntimeApply

  /**
   Cut right after the first journal entry, before the old file has moved to the backup: the
   recovery removes the file that the update was going to overwrite.
   */
  lemma {:induction false} CutBeforeBackupLoses(d: Disk, p: Path, new': Content)
    requires Settled(d) && p in d.live
    ensures var payload, ops := map[p := new'], [PlannedOp(p, true)];
            var all := ApplySteps(d, payload, ops);
            && 4 <= |all|
            && var cut := Run(d, all[..4]);
               Run(cut, RecoverSteps(cut)).live == d.live - {p}
  {
    var payload, ops := map[p := new'], [PlannedOp(p, true)];
    var all := ApplySteps(d, payload, ops);
    PrepareRuns(d, payload);
    var prepared := Prepared(d, payload);
    var loop := LoopSteps(prepared, ops);
    var entry := LogOperation(Operation(p, true, true, false, false));
    assert loop == OpSteps(prepared, ops[0]) + LoopSteps(Run(prepared, OpSteps(prepared, ops[0])), ops[1..]);
    assert loop[0] == entry;
    assert all[..4] == PrepareSteps(d, payload) + [entry];
    CrashRecovery(d, payload, ops, 4);
    assert all[..4][3] == entry;
    assert OpenWindow(all[..4]) == {p};
  }

  /** One overwritten file with its backup, as after a whole update that was not confirmed. */
  function Unconfirmed(p: Path, old': Content, new': Content): Disk {
    Disk(map[p := new'], map[p := old'], map[],
         Some(Journal(PendingHealth, [Operation(p, true, true, true, true)])), true)
  }

  const ClosingSteps: seq<Step> := [LogStatus(RolledBack), ClearPending]

  /** A rollback cut after it has restored the old file, and then run again, removes that file. */
  lemma {:induction false} SecondRollbackLoses(p: Path, old': Content, new': Content)
    ensures var d := Unconfirmed(p, old', new');
            && |RollbackSteps(d)| == 4
            && Run(d, RollbackSteps(d)).live == map[p := old']
            && var cut := Run(d, RollbackSteps(d)[..2]);
               && cut.live == map[p := old']
               && Run(cut, RollbackSteps(cut)).live == map[]
  {
    var d := Unconfirmed(p, old', new');
    var restore: seq<Step> := [RemoveLive(p), Restore(p)];
    OneEntry(d, d.journal.value.operations[0]);
    assert RollbackSteps(d) == restore + ClosingSteps && RollbackSteps(d)[..2] == restore;
    RunTwo(d, RemoveLive(p), Restore(p));
    var cut := Run(d, restore);
    assert cut.live == map[p := old'] && p !in cut.backup;
    RunConcat(d, restore, ClosingSteps);
    RunTwo(cut, LogStatus(RolledBack), ClearPending);
    RollbackRemoves(cut, d.journal.value.operations[0]);
    assert cut.live - {p} == map[];
  }

  /** Without a backup, the rollback of an overwrite only removes. */
  lemma {:induction false} RollbackRemoves(d: Disk, op: Operation)
    requires d.journal.Some? && d.journal.value.operations == [op]
    requires op.Overwrites() && op.path in d.live && op.path !in d.backup
    ensures Run(d, RollbackSteps(d)).live == d.live - {op.path}
  {
    OneEntry(d, op);
    assert RollbackSteps(d) == [RemoveLive(op.path)] + ClosingSteps;
    RunConcat(d, [RemoveLive(op.path)], ClosingSteps);
    RunOne(d, RemoveLive(op.path));
    RunTwo(Do(d, RemoveLive(op.path)), LogStatus(RolledBack), ClearPending);
  }

  lemma {:induction false} OneEntry(d: Disk, op: Operation)
    ensures UndoSteps(d, [op]) == UndoOpSteps(d, op)
  {
    assert [op][..0] == [];
    assert UndoOpSteps(d, op) + [] == UndoOpSteps(d, op);
  }
}
