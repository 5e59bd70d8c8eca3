/** Which requests a boot installs. */
module PendingUpdates {
  // Said by what the installed files and the package contain, and which requests it refuses.

  import opened Common
  import opened Lines
  import opened ManagedPaths
  import opened RuntimeDisk
  import opened RuntimeRecovery
  import opened RuntimeApply
  import opened UpdatePackage
  import opened PackageValidator
  import opened PackageBuilder
  import opened UpdateRuns
  import opened RuntimeUpdater

  /** The steps of a boot that installs `m` without an error. */
  function InstallSteps(d: Disk, m: Manifest): seq<Step> {
    RecoverSteps(d) + ApplySteps(Run(d, RecoverSteps(d)), Payload(m.files), PlanOps(m))
  }

  /**
   A package from one release to another is installed by the next boot that keeps its power: the versions
   are those of the files, the vendor runtime is the installed one, and no changed symlink points out.
   */
  lemma {:induction false} PendingInstalls(d: Disk, args: BuildArgs, t: Tree, listing: seq<Path>, base: Tree,
                                           baseListing: seq<Path>, user: Tree, error: nat, power: nat)
    requires Lists(listing, t) && Lists(baseListing, base)
    requires IsRelease(Run(d, RecoverSteps(d)).live, base, user)
    requires HasLine(base, "VERSION", args.baseVersion) && HasLine(base, "COMPAT_VENDOR", "v90s-stockos-r1")
    requires HasLine(t, "VERSION", args.version) && args.vendorRuntime == "v90s-stockos-r1"
    requires args.version != args.baseVersion
    requires forall p :: p in t && ManagedRuntimePath(p) && Get(base, p) != Some(t[p]) && t[p].Symlink? ==>
                           HarmlessTarget(t[p].target)
    requires power >= |InstallSteps(d, DiffManifest(args, t, listing, base, baseListing))|
    requires error >= |InstallSteps(d, DiffManifest(args, t, listing, base, baseListing))|
    ensures var m := DiffManifest(args, t, listing, base, baseListing);
            var d' := AfterPending(d, Some(m), ArchiveNames(m.files), Payload(m.files), true, error, power);
            && IsRelease(d'.live, t, user) && d'.pending
            && Run(d', RecoverSteps(d')).live == Run(d, RecoverSteps(d)).live
  {
    var m := DiffManifest(args, t, listing, base, baseListing);
    var d1 := Run(d, RecoverSteps(d));
    BuiltManifestAccepted(args, t, listing, base, baseListing);
    BuiltFits(args, d1.live, t, listing, base, baseListing, user);
    CompatibleIs(d1.live, m, true);
    BuiltManifestApplicable(args, t, listing, base, baseListing);
    RecoveryIsSettled(d);
    InstallRuns(d, m, error, power);
    PatchGivesTarget(args, d1.live, t, listing, base, baseListing, user);
    UnconfirmedReturns(Run(d1, ApplySteps(d1, Payload(m.files), PlanOps(m))), d1.live);
  }

  lemma {:induction false} RecoveryIsSettled(d: Disk)
    ensures Settled(Run(d, RecoverSteps(d)))
  {
    if !NeedsRollback(d) {
    } else if d.journal.None? {
      assert RollbackSteps(d) == [ClearPending];
      RunOne(d, ClearPending);
    } else {
      var undo := UndoSteps(d, d.journal.value.operations);
      RunConcat(d, undo, [LogStatus(RolledBack), ClearPending]);
      RunTwo(Run(d, undo), LogStatus(RolledBack), ClearPending);
    }
  }

  /** Without an error, what a boot attempts is the recovery and the apply. */
  lemma {:induction false} InstallAttempts(d: Disk, m: Manifest, error: nat)
    requires error >= |InstallSteps(d, m)|
    ensures PendingSteps(d, Some(m), Payload(m.files), error) == InstallSteps(d, m)
  {
    var d1 := Run(d, RecoverSteps(d));
    var prepare := PrepareSteps(d1, Payload(m.files));
    var all := ApplySteps(d1, Payload(m.files), PlanOps(m));
    assert |InstallSteps(d, m)| == |RecoverSteps(d)| + |all|;
    assert |all| >= |LoopSteps(Run(d1, prepare), PlanOps(m))|;
    WholeUpdate(d1, m, error);
  }

  lemma {:induction false} InstallRuns(d: Disk, m: Manifest, error: nat, power: nat)
    requires Applicable(Payload(m.files), PlanOps(m)) && Settled(Run(d, RecoverSteps(d)))
    requires ValidManifest(m, ArchiveNames(m.files)) && Compatible(Run(d, RecoverSteps(d)).live, m, true)
    requires power >= |InstallSteps(d, m)| && error >= |InstallSteps(d, m)|
    ensures var d1 := Run(d, RecoverSteps(d));
            var d' := AfterPending(d, Some(m), ArchiveNames(m.files), Payload(m.files), true, error, power);
            && d' == Run(d1, ApplySteps(d1, Payload(m.files), PlanOps(m)))
            && d'.live == Patch(d1.live, Payload(m.files), PlanOps(m)) && d'.pending && Owes(d', d1.live)
  {
    InstallAttempts(d, m, error);
    WholeInstall(d, m, power);
    ApplyDone(Run(d, RecoverSteps(d)), Payload(m.files), PlanOps(m));
  }

  lemma {:induction false} WholeInstall(d: Disk, m: Manifest, power: nat)
    requires power >= |InstallSteps(d, m)|
    ensures var d1 := Run(d, RecoverSteps(d));
            Run(d, Taken(InstallSteps(d, m), power)) == Run(d1, ApplySteps(d1, Payload(m.files), PlanOps(m)))
  {
    var recover := RecoverSteps(d);
    var update := ApplySteps(Run(d, recover), Payload(m.files), PlanOps(m));
    assert Taken(recover + update, power) == recover + update;
    RunConcat(d, recover, update);
  }

  /** The release the device is on and the package built from it fit together. */
  lemma {:induction false} BuiltFits(args: BuildArgs, live: Tree, t: Tree, listing: seq<Path>, base: Tree,
                                     baseListing: seq<Path>, user: Tree)
    requires forall p :: p in listing ==> p in t
    requires IsRelease(live, base, user)
    requires HasLine(base, "VERSION", args.baseVersion) && HasLine(base, "COMPAT_VENDOR", "v90s-stockos-r1")
    requires args.vendorRuntime == "v90s-stockos-r1" && args.version != args.baseVersion
    ensures Fits(live, DiffManifest(args, t, listing, base, baseListing), true)
    ensures Agrees(live, t, base)
  {
    assert ManagedRuntimePath("VERSION") && ManagedRuntimePath("COMPAT_VENDOR");
    assert Get(live, "VERSION") == Get(base, "VERSION") && Get(live, "COMPAT_VENDOR") == Get(base, "COMPAT_VENDOR");
    OneLineOnly(base["VERSION"].data, args.baseVersion, args.version);
  }

  lemma {:induction false} OneLineOnly(text: string, line: string, other: string)
    requires IsLine(text, line) && line != other
    ensures !IsLine(text, other)
  {
    StripIs(text, line);
    StripIs(text, other);
  }

  /** What the installed files say against a package. */
  ghost predicate Unfit(live: Tree, m: Manifest, abiInRange: bool) {
    || HasLine(live, "VERSION", m.version)
    || (m.sourceVersion != "*" && exists line :: HasLine(live, "VERSION", line) && line != m.sourceVersion)
    || (exists line :: HasLine(live, "COMPAT_VENDOR", line) && line != m.vendorRuntime)
    || !abiInRange
  }

  /** A request for the installed version, from another version or for another vendor runtime changes nothing. */
  lemma {:induction false} PendingRefused(d: Disk, m: Manifest, names: set<string>, payload: Tree, abiInRange: bool,
                                          error: nat, power: nat)
    requires Unfit(Run(d, RecoverSteps(d)).live, m, abiInRange)
    ensures AfterPending(d, Some(m), names, payload, abiInRange, error, power) ==
            Run(d, Taken(RecoverSteps(d), power))
  {
    var live := Run(d, RecoverSteps(d)).live;
    CompatibleIs(live, m, abiInRange);
    if line :| HasLine(live, "VERSION", line) && line != m.sourceVersion {
      OneLineOnly(live["VERSION"].data, line, m.sourceVersion);
    }
    if line :| HasLine(live, "COMPAT_VENDOR", line) && line != m.vendorRuntime {
      OneLineOnly(live["COMPAT_VENDOR"].data, line, m.vendorRuntime);
    }
    assert RecoverSteps(d) + [] == RecoverSteps(d);
  }

  /** A file with the version on its only line holds that line. */
  lemma {:induction false} VersionFile(t: Tree, name: Path, version: string)
    requires name in t && t[name].File? && t[name].data == version + "\n"
    requires version != "" && version[0] > ' ' && version[|version| - 1] > ' '
    requires version[0] <= '~' && version[|version| - 1] <= '~'
    ensures HasLine(t, name, version)
  {
    OneLine(version);
    StripIs(version + "\n", version);
  }
}
