/** Whole runs of the runtime updater. */
module UpdateRuns {
  // A run is any sequence of boots, power cuts, failed applies and health confirmations, with
  // packages diffed between released trees.

  import opened Common
  import opened Lines
  import opened ManagedPaths
  import opened RuntimeDisk
  import opened RuntimeRecovery
  import opened RuntimeApply
  import opened UpdatePackage
  import opened PackageValidator
  import opened PackageBuilder

  /** A released source tree and the listing a directory walk of it gives. */
  datatype Release = Release(tree: Tree, listing: seq<Path>)

  /** Released trees by version. */
  type World = map<string, Release>

  /** What the builder checks of each tree before it makes a package; "*" is no version. */
  ghost predicate WellFormed(world: World) {
    forall v :: v in world ==>
      v != "*" && Lists(world[v].listing, world[v].tree) && LineMatches(world[v].tree, "VERSION", v)
  }

  /**
   A package to a release: built against a base tree or, without one, holding the whole release, and
   labelled with the version it is for, or "*" for any.
   */
  datatype Package = Package(base: Option<string>, source: string, to: string, runtimeAbi: string)

  predicate Known(world: World, pkg: Package) {
    pkg.to in world && (pkg.base.Some? ==> pkg.base.value in world)
  }

  function Base(world: World, pkg: Package): Release
    requires Known(world, pkg)
  {
    if pkg.base.Some? then world[pkg.base.value] else Release(map[], [])
  }

  function ManifestOf(world: World, pkg: Package): Manifest
    requires Known(world, pkg)
    requires forall p :: p in world[pkg.to].listing ==> p in world[pkg.to].tree
  {
    DiffManifest(BuildArgs(pkg.to, pkg.source, VENDOR_RUNTIME, pkg.runtimeAbi),
                 world[pkg.to].tree, world[pkg.to].listing, Base(world, pkg).tree, Base(world, pkg).listing)
  }

  /** The installed tree has what the package takes for granted. */
  ghost predicate Suits(world: World, live: Tree, pkg: Package)
    requires Known(world, pkg)
  {
    Agrees(live, world[pkg.to].tree, Base(world, pkg).tree)
  }

  function LineOr(t: Tree, name: Path, default: string): string {
    match ReadLine(t, name)
    case Some(line) => line
    case None => default
  }

  /** `current_compatibility` for a runtime package, the ABI range test being an input. */
  predicate Compatible(live: Tree, m: Manifest, abiInRange: bool) {
    var current := LineOr(live, "VERSION", "unknown");
    && LineOr(live, "COMPAT_VENDOR", VENDOR_RUNTIME) == m.vendorRuntime
    && m.sourceVersion in {"*", current}
    && m.version != current
    && abiInRange
  }

  /** What the updater reads as a line: the file's, or the default where it cannot be read. */
  ghost predicate Reads(t: Tree, name: Path, default: string, line: string) {
    if name in t && t[name].File? then IsLine(t[name].data, line) else line == default
  }

  /** The package is for this device, for the installed version or any, and for another version than that. */
  ghost predicate Fits(live: Tree, m: Manifest, abiInRange: bool) {
    && Reads(live, "COMPAT_VENDOR", "v90s-stockos-r1", m.vendorRuntime)
    && (m.sourceVersion == "*" || Reads(live, "VERSION", "unknown", m.sourceVersion))
    && !Reads(live, "VERSION", "unknown", m.version)
    && abiInRange
  }

  lemma {:induction false} ReadsIs(t: Tree, name: Path, default: string, line: string)
    ensures LineOr(t, name, default) == line <==> Reads(t, name, default, line)
  {
    if name in t && t[name].File? {
      StripIs(t[name].data, line);
    }
  }

  /** The compatibility check, in terms of the texts of the files. */
  lemma {:induction false} CompatibleIs(live: Tree, m: Manifest, abiInRange: bool)
    ensures Compatible(live, m, abiInRange) <==> Fits(live, m, abiInRange)
  {
    ReadsIs(live, "COMPAT_VENDOR", "v90s-stockos-r1", m.vendorRuntime);
    ReadsIs(live, "VERSION", "unknown", m.sourceVersion);
    ReadsIs(live, "VERSION", "unknown", m.version);
  }

  /** The request file names a known package that passes every check of `apply_pending`. */
  ghost predicate Accepted(world: World, live: Tree, request: Option<Package>, abiInRange: bool)
    requires WellFormed(world)
  {
    && request.Some? && Known(world, request.value)
    && var m := ManifestOf(world, request.value);
    && ValidManifest(m, ArchiveNames(m.files)) && Compatible(live, m, abiInRange)
  }

  /** An accepted package suits the installed tree, or it was built against its own target and carries nothing. */
  ghost predicate SuitedIfAccepted(world: World, live: Tree, request: Option<Package>, abiInRange: bool)
    requires WellFormed(world)
  {
    Accepted(world, live, request, abiInRange) ==>
      request.value.base == Some(request.value.to) || Suits(world, live, request.value)
  }

  ghost function UpdateSteps(world: World, d: Disk, request: Option<Package>, abiInRange: bool): seq<Step>
    requires WellFormed(world)
  {
    if Accepted(world, d.live, request, abiInRange) then
      var m := ManifestOf(world, request.value);
      ApplySteps(d, Payload(m.files), PlanOps(m))
    else []
  }

  /** The device: its disk, and whether `apply_pending` has returned since power-on. */
  datatype Device = Device(disk: Disk, up: bool)

  datatype Event =
    // apply_pending at power-on; power is cut after `cut` steps if there are that many
    | Boot(request: Option<Package>, abiInRange: bool, cut: nat)
    // the same, but the apply meets an error instead of its step number `error`, and the
    // rollback that an error in the loop triggers is itself cut after `cut` steps
    | FailingBoot(request: Option<Package>, abiInRange: bool, error: nat, cut: nat)
    // mark_healthy, once the frontend runs
    | Confirm(cut: nat)
    | PowerOff

  function Taken(steps: seq<Step>, k: nat): seq<Step> {
    steps[..Min(k, |steps|)]
  }

  const ConfirmSteps: seq<Step> := [LogStatus(Healthy), ClearPending]

  /** The error falls on a step of the loop, which is what the exception handler covers. */
  predicate InLoop(steps: seq<Step>, error: nat) {
    3 <= error && error + 2 < |steps|
  }

  /** An update cut after `k` steps if there are that many. */
  function CutUpdate(d: Disk, update: seq<Step>, k: nat): Device {
    Device(Run(d, Taken(update, k)), k >= |update|)
  }

  /** An update in which step `error` raises, and the rollback if the loop was running. */
  function FailingUpdate(d: Disk, update: seq<Step>, error: nat, cut: nat): Device {
    var d2 := Run(d, Taken(update, error));
    if InLoop(update, error) then
      var rollback := RollbackSteps(d2);
      Device(Run(d2, Taken(rollback, cut)), cut >= |rollback|)
    else Device(d2, true)
  }

  ghost function Next(world: World, m: Device, e: Event): Device
    requires WellFormed(world)
  {
    var d := m.disk;
    match e
    case Boot(request, abi, cut) =>
      var recover := RecoverSteps(d);
      if cut < |recover| then Device(Run(d, recover[..cut]), false)
      else CutUpdate(Run(d, recover), UpdateSteps(world, Run(d, recover), request, abi), cut - |recover|)
    case FailingBoot(request, abi, error, cut) =>
      var d1 := Run(d, RecoverSteps(d));
      FailingUpdate(d1, UpdateSteps(world, d1, request, abi), error, cut)
    case Confirm(cut) =>
      if m.up && d.pending && d.journal.Some? then
        Device(Run(d, Taken(ConfirmSteps, cut)), cut >= |ConfirmSteps|)
      else m
    case PowerOff => m.(up := false)
  }

  /**
   A rollback is not cut at a place from which the next boot would remove restored files: it
   has restored no overwritten file yet, or it will not be run again.
   */
  ghost predicate SafeRollbackCut(d: Disk, cut: nat) {
    var all := RollbackSteps(d);
    || d.journal.None?
    || cut >= |all|
    || Overwritten(d) * Restored(all[..cut]) == {}
    || (cut == |all| - 1 && !d.pending)
  }

  /**
   The cuts and errors of an event lie outside the two windows in which an overwritten file is lost:
   the power is not cut and no step raises between an overwrite's journal entry and its backup move,
   and no rollback is cut that will have to be run again after it has restored such a file.
   */
  ghost predicate Outside(world: World, m: Device, e: Event)
    requires WellFormed(world)
  {
    var d := m.disk;
    match e
    case Boot(request, abi, cut) =>
      var recover := RecoverSteps(d);
      if cut < |recover| then SafeRollbackCut(d, cut)
      else OpenWindow(Taken(UpdateSteps(world, Run(d, recover), request, abi), cut - |recover|)) == {}
    case FailingBoot(request, abi, error, cut) =>
      var d1 := Run(d, RecoverSteps(d));
      var update := UpdateSteps(world, d1, request, abi);
      && OpenWindow(Taken(update, error)) == {}
      && (InLoop(update, error) ==> SafeRollbackCut(Run(d1, Taken(update, error)), cut))
    case Confirm(_) => true
    case PowerOff => true
  }

  /** If `n` reaches the end of the update, it is one that suits the tree. */
  ghost predicate FittingFrom(world: World, d: Disk, request: Option<Package>, abiInRange: bool, n: nat)
    requires WellFormed(world)
  {
    |UpdateSteps(world, d, request, abiInRange)| <= n ==> SuitedIfAccepted(world, d.live, request, abiInRange)
  }

  /** An update that gets so far that its tree stays is one that suits the tree before it. */
  ghost predicate Fitting(world: World, m: Device, e: Event)
    requires WellFormed(world)
  {
    var recover := RecoverSteps(m.disk);
    var d := Run(m.disk, recover);
    match e
    case Boot(request, abi, cut) => |recover| <= cut ==> FittingFrom(world, d, request, abi, cut - |recover| + 1)
    case FailingBoot(request, abi, error, _) => FittingFrom(world, d, request, abi, error + 2)
    case Confirm(_) => true
    case PowerOff => true
  }

  /** What an event must meet to keep old or new; `EventExactly` says that it is no more than needed. */
  ghost predicate Safe(world: World, m: Device, e: Event)
    requires WellFormed(world)
  {
    Outside(world, m, e) && Fitting(world, m, e)
  }

  // ----- the invariant -----

  /** The managed tree is wholly one release, the other files are the user's. */
  ghost predicate WholeRelease(world: World, user: Tree, t: Tree) {
    exists v :: v in world && IsRelease(t, world[v].tree, user)
  }

  /** A rollback is due and would lead back to `base` without loss. */
  ghost predicate Owes(d: Disk, base: Tree) {
    Tracks(d, base) && Missing(d) == {}
  }

  ghost predicate OwesRelease(world: World, user: Tree, d: Disk) {
    exists base :: Owes(d, base) && WholeRelease(world, user, base)
  }

  ghost predicate Consistent(world: World, user: Tree, d: Disk) {
    if NeedsRollback(d) then OwesRelease(world, user, d) else WholeRelease(world, user, d.live)
  }

  ghost predicate Inv(world: World, user: Tree, m: Device) {
    && Consistent(world, user, m.disk)
    && (m.up ==> WholeRelease(world, user, m.disk.live))
  }

  /** What the user sees: a whole release now, if the updater has returned, and after recovery in any case. */
  ghost predicate OldOrNewNow(world: World, user: Tree, m: Device) {
    && (m.up ==> WholeRelease(world, user, m.disk.live))
    && WholeRelease(world, user, Run(m.disk, RecoverSteps(m.disk)).live)
  }

  /** A rollback that is due would lead back to a whole release, but for the overwrites without a backup. */
  ghost predicate Traced(world: World, user: Tree, d: Disk) {
    NeedsRollback(d) ==> exists base :: Tracks(d, base) && WholeRelease(world, user, base)
  }

  /** Different releases have different VERSION files, which are managed. */
  lemma {:induction false} VersionDecides(world: World, v: string, w: string)
    requires WellFormed(world) && v in world && w in world && v != w
    ensures ManagedRuntimePath("VERSION") && Get(world[v].tree, "VERSION") != Get(world[w].tree, "VERSION")
  {
    assert LineMatches(world[v].tree, "VERSION", v) && LineMatches(world[w].tree, "VERSION", w);
  }

  /** A tree that is a whole release beside the user's files is none once paths of it are lost. */
  lemma {:induction false} LossShows(world: World, user: Tree, base: Tree, lost: set<Path>)
    requires WellFormed(world) && WholeRelease(world, user, base)
    requires lost != {} && lost <= base.Keys
    ensures !WholeRelease(world, user, base - lost)
  {
    var v :| v in world && IsRelease(base, world[v].tree, user);
    forall w | w in world
      ensures !IsRelease(base - lost, world[w].tree, user)
    {
      LossyIsNo(world, user, base, lost, v, w);
    }
  }

  lemma {:induction false} LossyIsNo(world: World, user: Tree, base: Tree, lost: set<Path>, v: string, w: string)
    requires WellFormed(world) && v in world && w in world && IsRelease(base, world[v].tree, user)
    requires lost != {} && lost <= base.Keys
    ensures !IsRelease(base - lost, world[w].tree, user)
  {
    var t := base - lost;
    if v == w {
      var p :| p in lost;
      assert Get(t, p) != Get(base, p);
    } else {
      VersionDecides(world, v, w);
      assert LineMatches(world[w].tree, "VERSION", w);
      assert Get(base, "VERSION") == Get(world[v].tree, "VERSION");
      assert Get(t, "VERSION") != Get(world[w].tree, "VERSION");
    }
  }

  lemma {:induction false} MissingInBase(d: Disk, base: Tree)
    requires Tracks(d, base)
    ensures Missing(d) <= base.Keys
  {
    forall p | p in Missing(d)
      ensures p in base
    {
      assert TracksAt(d, base, p);
    }
  }

  /** A complete rollback gives a whole release if and only if no overwritten file lacks its backup. */
  lemma {:induction false} LosslessExactly(world: World, user: Tree, d: Disk, base: Tree)
    requires WellFormed(world) && Tracks(d, base) && WholeRelease(world, user, base)
    ensures WholeRelease(world, user, base - Missing(d)) <==> Missing(d) == {}
    ensures WholeRelease(world, user, Run(d, RollbackSteps(d)).live) <==> Missing(d) == {}
    ensures OwesRelease(world, user, d) <==> Missing(d) == {}
  {
    RollbackComplete(d, base);
    if Missing(d) == {} {
      assert base - {} == base;
      assert Owes(d, base);
    } else {
      MissingInBase(d, base);
      LossShows(world, user, base, Missing(d));
    }
  }

  /** The invariant is what the user sees. */
  lemma {:induction false} InvIsSeen(world: World, user: Tree, m: Device)
    requires WellFormed(world) && Traced(world, user, m.disk)
    ensures Inv(world, user, m) <==> OldOrNewNow(world, user, m)
  {
    var d := m.disk;
    if NeedsRollback(d) {
      var base :| Tracks(d, base) && WholeRelease(world, user, base);
      LosslessExactly(world, user, d, base);
    }
  }

  /** After a complete recovery the tree is wholly one release. */
  lemma {:induction false} RecoverySettles(world: World, user: Tree, d: Disk)
    requires Consistent(world, user, d)
    ensures var d1 := Run(d, RecoverSteps(d));
            Settled(d1) && WholeRelease(world, user, d1.live)
  {
    if NeedsRollback(d) {
      var base :| Owes(d, base) && WholeRelease(world, user, base);
      RollbackComplete(d, base);
      assert base - Missing(d) == base;
    }
  }

  /** A rollback, cut or complete, loses nothing if and only if every backup was there and the cut was a safe one. */
  lemma {:induction false} RollbackExactly(world: World, user: Tree, d: Disk, base: Tree, cut: nat)
    requires WellFormed(world) && NeedsRollback(d) && Tracks(d, base) && WholeRelease(world, user, base)
    ensures var all := RollbackSteps(d);
            var d' := Run(d, Taken(all, cut));
            && Traced(world, user, d')
            && (Inv(world, user, Device(d', cut >= |all|)) <==> Missing(d) == {} && SafeRollbackCut(d, cut))
  {
    if cut >= |RollbackSteps(d)| {
      assert Taken(RollbackSteps(d), cut) == RollbackSteps(d);
      LosslessExactly(world, user, d, base);
      RollbackComplete(d, base);
    } else {
      CutRollbackExactly(world, user, d, base, cut);
    }
  }

  lemma {:induction false} CutRollbackExactly(world: World, user: Tree, d: Disk, base: Tree, cut: nat)
    requires WellFormed(world) && NeedsRollback(d) && Tracks(d, base) && WholeRelease(world, user, base)
    requires cut < |RollbackSteps(d)|
    ensures var d' := Run(d, RollbackSteps(d)[..cut]);
            && Traced(world, user, d')
            && (Consistent(world, user, d') <==> Missing(d) == {} && SafeRollbackCut(d, cut))
  {
    CutRollbackOwes(d, base, cut);
    var d' := Run(d, RollbackSteps(d)[..cut]);
    if NeedsRollback(d') {
      LosslessExactly(world, user, d', base);
    } else {
      LosslessExactly(world, user, d, base);
    }
  }

  /** A cut rollback has to be run again unless only the marker was left, and then lacks what it restored. */
  lemma {:induction false} CutRollbackOwes(d: Disk, base: Tree, cut: nat)
    requires NeedsRollback(d) && Tracks(d, base) && cut < |RollbackSteps(d)|
    ensures var d' := Run(d, RollbackSteps(d)[..cut]);
            var restored := Overwritten(d) * Restored(RollbackSteps(d)[..cut]);
            && Tracks(d', base)
            && (NeedsRollback(d') <==> cut != |RollbackSteps(d)| - 1 || d.pending)
            && (!NeedsRollback(d') ==> d'.live == base - Missing(d))
            && (Missing(d') == {} <==> Missing(d) == {} && restored == {})
  {
    RollbackCut(d, base, cut);
    var again := Overwritten(d) * Restored(RollbackSteps(d)[..cut]);
    assert Missing(Run(d, RollbackSteps(d)[..cut])) == Missing(d) + again;
    assert Missing(d) + again == {} <==> Missing(d) == {} && again == {} by {
      assert Missing(d) <= Missing(d) + again && again <= Missing(d) + again;
    }
    if cut == |RollbackSteps(d)| - 1 && !d.pending {
      UndoneBeforeStatus(d, base, cut);
    }
  }

  /** When only the removal of the pending marker is left, every path is already undone. */
  lemma {:induction false} UndoneBeforeStatus(d: Disk, base: Tree, cut: nat)
    requires Tracks(d, base) && cut == |RollbackSteps(d)| - 1 && !d.pending
    ensures !NeedsRollback(Run(d, RollbackSteps(d)[..cut]))
    ensures Run(d, RollbackSteps(d)[..cut]).live == base - Missing(d)
  {
    var all := RollbackSteps(d);
    RollbackCut(d, base, cut);
    RollbackComplete(d, base);
    assert all == all[..cut] + [ClearPending];
    RunConcat(d, all[..cut], [ClearPending]);
    RunOne(Run(d, all[..cut]), ClearPending);
  }

  /** On a whole release, VERSION tells which one it is. */
  lemma {:induction false} InstalledVersion(world: World, user: Tree, t: Tree, v: string)
    requires WellFormed(world) && WholeRelease(world, user, t)
    requires v in world && v in {"*", LineOr(t, "VERSION", "unknown")}
    ensures IsRelease(t, world[v].tree, user)
  {
    var w :| w in world && IsRelease(t, world[w].tree, user);
    assert ManagedRuntimePath("VERSION");
    assert Get(t, "VERSION") == Get(world[w].tree, "VERSION");
    assert LineMatches(world[w].tree, "VERSION", w);
  }

  lemma {:induction false} AcceptedApplicable(world: World, live: Tree, request: Option<Package>, abi: bool)
    requires WellFormed(world) && Accepted(world, live, request, abi)
    ensures var m := ManifestOf(world, request.value); Applicable(Payload(m.files), PlanOps(m))
  {
    var pkg := request.value;
    var base, to := Base(world, pkg), world[pkg.to];
    var args := BuildArgs(pkg.to, pkg.source, VENDOR_RUNTIME, pkg.runtimeAbi);
    BuiltManifestApplicable(args, to.tree, to.listing, base.tree, base.listing);
  }

  /** An accepted package can be applied, and gives its target release if and only if it suits the tree. */
  lemma {:induction false} AcceptedInstalls(world: World, user: Tree, live: Tree, request: Option<Package>, abi: bool)
    requires WellFormed(world) && WholeRelease(world, user, live)
    requires Accepted(world, live, request, abi)
    ensures var m := ManifestOf(world, request.value);
            && Applicable(Payload(m.files), PlanOps(m))
            && (IsRelease(Patch(live, Payload(m.files), PlanOps(m)), world[request.value.to].tree, user) <==>
                Suits(world, live, request.value))
  {
    var pkg := request.value;
    var base, to := Base(world, pkg), world[pkg.to];
    var args := BuildArgs(pkg.to, pkg.source, VENDOR_RUNTIME, pkg.runtimeAbi);
    AcceptedApplicable(world, live, request, abi);
    PatchGivesTarget(args, live, to.tree, to.listing, base.tree, base.listing, user);
  }

  /** A package built against the release it names as its source suits every tree that accepts it. */
  lemma {:induction false} NamedSourceSuits(world: World, user: Tree, live: Tree, request: Option<Package>, abi: bool)
    requires WellFormed(world) && WholeRelease(world, user, live)
    requires Accepted(world, live, request, abi) && request.value.base == Some(request.value.source)
    ensures IsRelease(live, world[request.value.source].tree, user)
    ensures Suits(world, live, request.value)
  {
    InstalledVersion(world, user, live, request.value.source);
  }

  /** A package of a whole release suits a tree if and only if the tree has no managed path the release lacks. */
  lemma {:induction false} WholePackageSuits(world: World, live: Tree, pkg: Package)
    requires WellFormed(world) && Known(world, pkg) && pkg.base.None?
    ensures Suits(world, live, pkg) <==>
            forall p :: p in live && ManagedRuntimePath(p) ==> p in world[pkg.to].tree
  {
    var t := world[pkg.to].tree;
    if Suits(world, live, pkg) {
      forall p | p in live && ManagedRuntimePath(p)
        ensures p in t
      {
        assert Get(map[], p) == Get(t, p) || p in t;
      }
    }
  }

  /**
   An accepted package leaves a whole release, its target or the release before it, if and only if it suits
   the tree or carries nothing.
   */
  lemma {:induction false} AcceptedLeavesWhole(world: World, user: Tree, live: Tree, request: Option<Package>,
                                               abi: bool)
    requires WellFormed(world) && WholeRelease(world, user, live)
    requires Accepted(world, live, request, abi)
    ensures var m := ManifestOf(world, request.value);
            WholeRelease(world, user, Patch(live, Payload(m.files), PlanOps(m))) <==>
            SuitedIfAccepted(world, live, request, abi)
  {
    var pkg := request.value;
    var base, to := Base(world, pkg), world[pkg.to];
    var m := ManifestOf(world, pkg);
    var patched := Patch(live, Payload(m.files), PlanOps(m));
    forall p
      ensures Get(patched, p) ==
              if ManagedRuntimePath(p) && Get(base.tree, p) != Get(to.tree, p) then Get(to.tree, p) else Get(live, p)
    {
      PatchedTree(BuildArgs(pkg.to, pkg.source, VENDOR_RUNTIME, pkg.runtimeAbi), live, to.tree, to.listing,
                  base.tree, base.listing, p);
    }
    if pkg.base == Some(pkg.to) {
      MapsAgree(patched, live);
    } else {
      AcceptedInstalls(world, user, live, request, abi);
      forall w | w in world && w != pkg.to
        ensures !IsRelease(patched, world[w].tree, user)
      {
        VersionDecides(world, pkg.to, w);
        if pkg.base.Some? {
          VersionDecides(world, pkg.base.value, pkg.to);
        }
        assert LineMatches(to.tree, "VERSION", pkg.to);
        assert Get(patched, "VERSION") == Get(to.tree, "VERSION");
      }
    }
  }

  /** The steps of an apply, cut after `k` of them: when the invariant holds, the device up or not. */
  lemma {:induction false} ApplyExactly(world: World, user: Tree, d: Disk, payload: Tree, ops: seq<PlannedOp>, k: nat,
                                        up: bool)
    requires WellFormed(world) && Settled(d) && WholeRelease(world, user, d.live) && Applicable(payload, ops)
    requires var n := |ApplySteps(d, payload, ops)|; (up ==> k < 3 || n <= k + 2) && (n <= k ==> up)
    ensures var all := ApplySteps(d, payload, ops);
            var d' := Run(d, Taken(all, k));
            && Traced(world, user, d')
            && (Inv(world, user, Device(d', up)) <==>
                && OpenWindow(Taken(all, k)) == {}
                && (|all| <= k + (if up then 2 else 1) ==> WholeRelease(world, user, Patch(d.live, payload, ops))))
  {
    var all := ApplySteps(d, payload, ops);
    ApplyCut(d, payload, ops, Min(k, |all|));
    var d' := Run(d, Taken(all, k));
    if NeedsRollback(d') {
      LosslessExactly(world, user, d', d.live);
    }
  }

  /** The same for the steps of an update, whatever is requested. */
  lemma {:induction false} UpdateExactly(world: World, user: Tree, d: Disk, request: Option<Package>, abi: bool, k: nat,
                                         up: bool)
    requires WellFormed(world) && Settled(d) && WholeRelease(world, user, d.live)
    requires up ==> !InLoop(UpdateSteps(world, d, request, abi), k)
    requires |UpdateSteps(world, d, request, abi)| <= k ==> up
    ensures var update := UpdateSteps(world, d, request, abi);
            var d' := Run(d, Taken(update, k));
            && Traced(world, user, d')
            && (Inv(world, user, Device(d', up)) <==>
                && OpenWindow(Taken(update, k)) == {}
                && FittingFrom(world, d, request, abi, k + (if up then 2 else 1)))
  {
    if Accepted(world, d.live, request, abi) {
      var m := ManifestOf(world, request.value);
      AcceptedApplicable(world, d.live, request, abi);
      AcceptedLeavesWhole(world, user, d.live, request, abi);
      ApplyExactly(world, user, d, Payload(m.files), PlanOps(m), k, up);
    } else {
      assert Taken(UpdateSteps(world, d, request, abi), k) == [];
    }
  }

  lemma {:induction false} CutUpdateExactly(world: World, user: Tree, d: Disk, request: Option<Package>, abi: bool,
                                            k: nat)
    requires WellFormed(world) && Settled(d) && WholeRelease(world, user, d.live)
    ensures var update := UpdateSteps(world, d, request, abi);
            var m := CutUpdate(d, update, k);
            && Traced(world, user, m.disk)
            && (Inv(world, user, m) <==>
                OpenWindow(Taken(update, k)) == {} && FittingFrom(world, d, request, abi, k + 1))
  {
    UpdateExactly(world, user, d, request, abi, k, k >= |UpdateSteps(world, d, request, abi)|);
  }

  /** A raised step in the loop leaves a rollback due, which loses what the open window holds. */
  lemma {:induction false} ErrorInLoop(world: World, d: Disk, request: Option<Package>, abi: bool, error: nat)
    requires WellFormed(world) && Settled(d) && InLoop(UpdateSteps(world, d, request, abi), error)
    ensures var taken := UpdateSteps(world, d, request, abi)[..error];
            && Taken(UpdateSteps(world, d, request, abi), error) == taken
            && NeedsRollback(Run(d, taken))
            && Tracks(Run(d, taken), d.live) && Missing(Run(d, taken)) == OpenWindow(taken)
  {
    var m := ManifestOf(world, request.value);
    AcceptedApplicable(world, d.live, request, abi);
    ApplyCut(d, Payload(m.files), PlanOps(m), error);
  }

  lemma {:induction false} CutRecoveryExactly(world: World, user: Tree, d: Disk, cut: nat)
    requires WellFormed(world) && Consistent(world, user, d) && cut < |RecoverSteps(d)|
    ensures var d' := Run(d, RecoverSteps(d)[..cut]);
            && Traced(world, user, d')
            && (Consistent(world, user, d') <==> SafeRollbackCut(d, cut))
  {
    var base :| Owes(d, base) && WholeRelease(world, user, base);
    CutRollbackExactly(world, user, d, base, cut);
  }

  lemma {:induction false} BootExactly(world: World, user: Tree, m: Device, request: Option<Package>, abi: bool,
                                       cut: nat)
    requires WellFormed(world) && Inv(world, user, m)
    ensures var e := Boot(request, abi, cut);
            && Traced(world, user, Next(world, m, e).disk)
            && (Inv(world, user, Next(world, m, e)) <==> Safe(world, m, e))
  {
    var recover := RecoverSteps(m.disk);
    if cut < |recover| {
      CutRecoveryExactly(world, user, m.disk, cut);
    } else {
      RecoverySettles(world, user, m.disk);
      CutUpdateExactly(world, user, Run(m.disk, recover), request, abi, cut - |recover|);
    }
  }

  lemma {:induction false} FailingBootExactly(world: World, user: Tree, m: Device, e: Event)
    requires WellFormed(world) && Inv(world, user, m) && e.FailingBoot?
    ensures Traced(world, user, Next(world, m, e).disk)
    ensures Inv(world, user, Next(world, m, e)) <==> Safe(world, m, e)
  {
    RecoverySettles(world, user, m.disk);
    var d1 := Run(m.disk, RecoverSteps(m.disk));
    var update := UpdateSteps(world, d1, e.request, e.abiInRange);
    if InLoop(update, e.error) {
      ErrorInLoop(world, d1, e.request, e.abiInRange, e.error);
      RollbackExactly(world, user, Run(d1, Taken(update, e.error)), d1.live, e.cut);
    } else {
      UpdateExactly(world, user, d1, e.request, e.abiInRange, e.error, true);
    }
  }

  lemma {:induction false} ConfirmKeeps(world: World, user: Tree, m: Device, e: Event)
    requires WellFormed(world) && Inv(world, user, m) && e.Confirm?
    ensures Inv(world, user, Next(world, m, e))
  {
    if m.up && m.disk.pending && m.disk.journal.Some? {
      var base :| Owes(m.disk, base) && WholeRelease(world, user, base);
      ConfirmCut(m.disk, base, e.cut);
    }
  }

  /** From a device that satisfies the invariant, an event keeps it if and only if it is safe. */
  lemma {:induction false} EventExactly(world: World, user: Tree, m: Device, e: Event)
    requires WellFormed(world) && Inv(world, user, m)
    ensures Traced(world, user, Next(world, m, e).disk)
    ensures Inv(world, user, Next(world, m, e)) <==> Safe(world, m, e)
  {
    match e {
      case Boot(request, abi, cut) => BootExactly(world, user, m, request, abi, cut);
      case FailingBoot(_, _, _, _) => FailingBootExactly(world, user, m, e);
      case Confirm(_) =>
        ConfirmKeeps(world, user, m, e);
        InvTraced(world, user, Next(world, m, e));
      case PowerOff => InvTraced(world, user, m);
    }
  }

  lemma {:induction false} InvTraced(world: World, user: Tree, m: Device)
    requires Inv(world, user, m)
    ensures Traced(world, user, m.disk)
  {
    if NeedsRollback(m.disk) {
      var base :| Owes(m.disk, base) && WholeRelease(world, user, base);
      assert Tracks(m.disk, base);
    }
  }

  lemma {:induction false} ConfirmCut(d: Disk, base: Tree, cut: nat)
    requires d.pending && Owes(d, base)
    ensures var d' := Run(d, Taken(ConfirmSteps, cut));
            && d'.live == d.live
            && (if cut < 2 then d'.pending && Owes(d', base) else !NeedsRollback(d'))
  {
    var taken := Taken(ConfirmSteps, cut);
    if cut == 0 {
      assert taken == [];
    } else if cut == 1 {
      assert taken == [LogStatus(Healthy)];
      RunOne(d, LogStatus(Healthy));
      StatusTracks(d, base, Healthy);
    } else {
      assert taken == ConfirmSteps;
      RunTwo(d, LogStatus(Healthy), ClearPending);
    }
  }

  ghost function RunEvents(world: World, m: Device, events: seq<Event>): Device
    requires WellFormed(world)
    decreases |events|
  {
    if events == [] then m else RunEvents(world, Next(world, m, events[0]), events[1..])
  }

  ghost predicate AllSafe(world: World, m: Device, events: seq<Event>)
    requires WellFormed(world)
    decreases |events|
  {
    events == [] || (Safe(world, m, events[0]) && AllSafe(world, Next(world, m, events[0]), events[1..]))
  }

  /** The invariant holds after every run that starts with it. */
  lemma {:induction false} RunKeeps(world: World, user: Tree, m: Device, events: seq<Event>)
    requires WellFormed(world) && Inv(world, user, m) && AllSafe(world, m, events)
    ensures Inv(world, user, RunEvents(world, m, events))
    decreases |events|
  {
    if events != [] {
      EventExactly(world, user, m, events[0]);
      RunKeeps(world, user, Next(world, m, events[0]), events[1..]);
    }
  }

  /**
   Old or new, over whole runs: starting from one release with no update under way, after any
   sequence of boots, cuts and errors outside the two windows, updates that suit where they get to
   their end, and health confirmations, the tree is wholly one release whenever `apply_pending` has
   returned, and at any other time a complete recovery makes it so. Files outside the managed set
   are never touched.
   */
  lemma {:induction false} OldOrNew(world: World, user: Tree, d: Disk, events: seq<Event>)
    requires WellFormed(world) && !NeedsRollback(d) && WholeRelease(world, user, d.live)
    requires AllSafe(world, Device(d, true), events)
    ensures OldOrNewNow(world, user, RunEvents(world, Device(d, true), events))
  {
    RunKeeps(world, user, Device(d, true), events);
    var m := RunEvents(world, Device(d, true), events);
    InvTraced(world, user, m);
    InvIsSeen(world, user, m);
  }

  /**
   The conditions on a run are exact: the first event of a run that is not safe breaks it. Either the
   updater then returns on a tree that is no whole release, or recovery leads to such a tree.
   */
  lemma {:induction false} OldOrNewExactly(world: World, user: Tree, d: Disk, events: seq<Event>, e: Event)
    requires WellFormed(world) && !NeedsRollback(d) && WholeRelease(world, user, d.live)
    requires AllSafe(world, Device(d, true), events)
    ensures var m := RunEvents(world, Device(d, true), events);
            OldOrNewNow(world, user, Next(world, m, e)) <==> Safe(world, m, e)
  {
    RunKeeps(world, user, Device(d, true), events);
    var m := RunEvents(world, Device(d, true), events);
    EventExactly(world, user, m, e);
    InvIsSeen(world, user, Next(world, m, e));
  }

  /** Every package of the event was built against the release it names as its source. */
  predicate SourceNamed(e: Event) {
    (e.Boot? || e.FailingBoot?) && e.request.Some? ==> e.request.value.base == Some(e.request.value.source)
  }

  ghost predicate AllOutside(world: World, m: Device, events: seq<Event>)
    requires WellFormed(world)
    decreases |events|
  {
    events == [] || (Outside(world, m, events[0]) && AllOutside(world, Next(world, m, events[0]), events[1..]))
  }

  lemma {:induction false} NamedFits(world: World, user: Tree, m: Device, e: Event)
    requires WellFormed(world) && Inv(world, user, m) && SourceNamed(e)
    ensures Fitting(world, m, e)
  {
    if e.Boot? || e.FailingBoot? {
      RecoverySettles(world, user, m.disk);
      var live := Run(m.disk, RecoverSteps(m.disk)).live;
      if Accepted(world, live, e.request, e.abiInRange) {
        NamedSourceSuits(world, user, live, e.request, e.abiInRange);
      }
    }
  }

  lemma {:induction false} NamedRunSafe(world: World, user: Tree, m: Device, events: seq<Event>)
    requires WellFormed(world) && Inv(world, user, m) && AllOutside(world, m, events)
    requires forall e :: e in events ==> SourceNamed(e)
    ensures AllSafe(world, m, events)
    decreases |events|
  {
    if events != [] {
      NamedFits(world, user, m, events[0]);
      EventExactly(world, user, m, events[0]);
      NamedRunSafe(world, user, Next(world, m, events[0]), events[1..]);
    }
  }

  /**
   With packages that were all built against the release they name as their source, nothing has to be
   asked of the installed trees: old or new holds after every run outside the two windows.
   */
  lemma {:induction false} NamedOldOrNew(world: World, user: Tree, d: Disk, events: seq<Event>)
    requires WellFormed(world) && !NeedsRollback(d) && WholeRelease(world, user, d.live)
    requires AllOutside(world, Device(d, true), events)
    requires forall e :: e in events ==> SourceNamed(e)
    ensures OldOrNewNow(world, user, RunEvents(world, Device(d, true), events))
  {
    NamedRunSafe(world, user, Device(d, true), events);
    OldOrNew(world, user, d, events);
  }

  /**
   An update in whose loop a step raises, with the rollback that follows it: the tree is as it was, except
   that the file is lost whose overwrite had been journaled but not yet moved to the backup.
   */
  lemma {:induction false} FailedUpdateLeaves(world: World, d: Disk, request: Option<Package>, abi: bool, error: nat,
                                              cut: nat)
    requires WellFormed(world) && Settled(d) && Accepted(world, d.live, request, abi)
    requires InLoop(UpdateSteps(world, d, request, abi), error)
    requires cut >= |RollbackSteps(Run(d, UpdateSteps(world, d, request, abi)[..error]))|
    ensures var update := UpdateSteps(world, d, request, abi);
            var m := FailingUpdate(d, update, error, cut);
            && m.up && Settled(m.disk)
            && m.disk.live == d.live - OpenWindow(update[..error])
            && OpenWindow(update[..error]) <= d.live.Keys
  {
    var update := UpdateSteps(world, d, request, abi);
    ErrorInLoop(world, d, request, abi, error);
    FailingRollsBack(d, update, error, cut);
    MissingInBase(Run(d, update[..error]), d.live);
  }

  lemma {:induction false} FailingRollsBack(d: Disk, update: seq<Step>, error: nat, cut: nat)
    requires InLoop(update, error) && Tracks(Run(d, update[..error]), d.live)
    requires cut >= |RollbackSteps(Run(d, update[..error]))|
    ensures var m := FailingUpdate(d, update, error, cut);
            m.up && Settled(m.disk) && m.disk.live == d.live - Missing(Run(d, update[..error]))
  {
    var d2 := Run(d, update[..error]);
    RollbackComplete(d2, d.live);
    assert Taken(update, error) == update[..error];
    assert Taken(RollbackSteps(d2), cut) == RollbackSteps(d2);
  }

  /** An apply run to its end: the patched tree, pending, with the old one owed. */
  lemma {:induction false} ApplyDone(d: Disk, payload: Tree, ops: seq<PlannedOp>)
    requires Settled(d) && Applicable(payload, ops)
    ensures var d1 := Run(d, ApplySteps(d, payload, ops));
            d1.live == Patch(d.live, payload, ops) && d1.pending && Owes(d1, d.live)
  {
    var all := ApplySteps(d, payload, ops);
    assert all[..|all|] == all;
    ApplyCut(d, payload, ops, |all|);
  }

  /**
   One update from request to confirmation: the accepted package installs exactly its target release
   if and only if it suits the tree; unconfirmed, the next recovery returns to the tree before it;
   confirmed, it stays.
   */
  lemma {:induction false} UpdateLifecycle(world: World, user: Tree, d: Disk, request: Option<Package>, abi: bool)
    requires WellFormed(world) && Settled(d) && WholeRelease(world, user, d.live)
    requires Accepted(world, d.live, request, abi)
    ensures var d1 := Run(d, UpdateSteps(world, d, request, abi));
            var d2 := Run(d1, ConfirmSteps);
            && (IsRelease(d1.live, world[request.value.to].tree, user) <==> Suits(world, d.live, request.value))
            && Run(d1, RecoverSteps(d1)).live == d.live
            && Run(d2, RecoverSteps(d2)).live == d1.live
  {
    var m := ManifestOf(world, request.value);
    AcceptedInstalls(world, user, d.live, request, abi);
    ApplyDone(d, Payload(m.files), PlanOps(m));
    var d1 := Run(d, UpdateSteps(world, d, request, abi));
    UnconfirmedReturns(d1, d.live);
    ConfirmedStays(d1, d.live);
  }

  lemma {:induction false} UnconfirmedReturns(d: Disk, base: Tree)
    requires d.pending && Owes(d, base)
    ensures Run(d, RecoverSteps(d)).live == base
  {
    RollbackComplete(d, base);
    assert base - Missing(d) == base;
  }

  lemma {:induction false} ConfirmedStays(d: Disk, base: Tree)
    requires d.pending && Owes(d, base)
    ensures var d' := Run(d, ConfirmSteps);
            Run(d', RecoverSteps(d')).live == d.live
  {
    ConfirmCut(d, base, 2);
    assert Taken(ConfirmSteps, 2) == ConfirmSteps;
  }
}
