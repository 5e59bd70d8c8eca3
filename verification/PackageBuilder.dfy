/** The diff side of a runtime update. */
module PackageBuilder {
  // Inventories of two source trees, the manifest made from them, and what the updater's validator
  // and its transaction make of it.

  import opened Common
  import opened Lines
  import opened ManagedPaths
  import opened RuntimeDisk
  import opened RuntimeApply
  import opened UpdatePackage
  import opened PackageValidator

  /** The managed part of a tree. */
  function Managed(t: Tree): Tree {
    map p | p in t && ManagedRuntimePath(p) :: t[p]
  }

  ghost predicate NoDuplicates(s: seq<Path>) {
    forall i, j :: 0 <= i < j < |s| ==> s[i] != s[j]
  }

  /** `listing` names every file and symlink of `t` once, as a directory walk does. */
  ghost predicate Lists(listing: seq<Path>, t: Tree) {
    && NoDuplicates(listing)
    && (forall p :: p in t <==> p in listing)
    && (forall p :: p in listing ==> RealPath(p))
  }

  /** The managed entries of the new tree that the base tree does not have in the same form. */
  function ChangedEntries(listing: seq<Path>, t: Tree, base: Tree): seq<Entry>
    requires forall p :: p in listing ==> p in t
  {
    if listing == [] then []
    else
      var n := |listing| - 1;
      var p := listing[n];
      var before := ChangedEntries(listing[..n], t, base);
      if ManagedRuntimePath(p) && Get(Managed(base), p) != Some(t[p]) then before + [Entry(p, t[p])] else before
  }

  /** The managed paths of the base tree that the new tree no longer has. */
  function DeletedPaths(baseListing: seq<Path>, t: Tree): seq<Path> {
    if baseListing == [] then []
    else
      var n := |baseListing| - 1;
      var p := baseListing[n];
      var before := DeletedPaths(baseListing[..n], t);
      if ManagedRuntimePath(p) && p !in t then before + [p] else before
  }

  lemma {:induction false} ChangedEntriesAre(listing: seq<Path>, t: Tree, base: Tree)
    requires NoDuplicates(listing) && forall p :: p in listing ==> p in t
    ensures var files := ChangedEntries(listing, t, base);
            && DistinctEntries(files)
            && (forall e :: e in files <==>
                  e.path in listing && ManagedRuntimePath(e.path)
                  && Get(t, e.path) == Some(e.content) && Get(base, e.path) != Some(e.content))
    decreases |listing|
  {
    if listing != [] {
      var n := |listing| - 1;
      assert listing == listing[..n] + [listing[n]];
      ChangedEntriesAre(listing[..n], t, base);
      var before := ChangedEntries(listing[..n], t, base);
      forall i | 0 <= i < |before|
        ensures before[i].path != listing[n]
      {
        assert before[i] in before;
      }
    }
  }

  lemma {:induction false} DeletedPathsAre(baseListing: seq<Path>, t: Tree)
    requires NoDuplicates(baseListing)
    ensures var deleted := DeletedPaths(baseListing, t);
            && NoDuplicates(deleted)
            && (forall p :: p in deleted <==> p in baseListing && ManagedRuntimePath(p) && p !in t)
    decreases |baseListing|
  {
    if baseListing != [] {
      var n := |baseListing| - 1;
      assert baseListing == baseListing[..n] + [baseListing[n]];
      DeletedPathsAre(baseListing[..n], t);
    }
  }

  // ----- building -----

  /** `read_text(root / name).strip()`; None where reading fails. */
  function ReadLine(t: Tree, name: Path): Option<string> {
    if name in t && t[name].File? then Some(Strip(t[name].data)) else None
  }

  /** The command-line values that end up in a runtime manifest. */
  datatype BuildArgs = BuildArgs(version: string, baseVersion: string, vendorRuntime: string, runtimeAbi: string)

  /** `read_required_line` compared with a command-line value. */
  predicate LineMatches(t: Tree, name: Path, value: string) {
    ReadLine(t, name) == Some(value) && value != ""
  }

  /** The file is there and holds the line, between blanks at most. */
  ghost predicate HasLine(t: Tree, name: Path, line: string) {
    name in t && t[name].File? && IsLine(t[name].data, line)
  }

  lemma {:induction false} ReadLineIs(t: Tree, name: Path, line: string)
    ensures ReadLine(t, name) == Some(line) <==> HasLine(t, name, line)
  {
    if name in t && t[name].File? {
      StripIs(t[name].data, line);
    }
  }

  function DiffManifest(args: BuildArgs, t: Tree, listing: seq<Path>, base: Tree, baseListing: seq<Path>): Manifest
    requires forall p :: p in listing ==> p in t
  {
    var files := ChangedEntries(listing, t, base);
    Manifest(1, "runtime", "powkiddy-v90s", "aarch64", args.vendorRuntime, args.baseVersion, args.version,
             TotalSize(files), files, DeletedPaths(baseListing, t))
  }

  /** `runtime_inventory`: the managed entries of a tree. */
  method RuntimeInventory(listing: seq<Path>, t: Tree) returns (inventory: map<Path, Content>)
    requires Lists(listing, t)
    ensures inventory == Managed(t)
  {
    inventory := map[];
    for i := 0 to |listing|
      invariant forall p :: p in inventory <==> p in listing[..i] && ManagedRuntimePath(p)
      invariant forall p :: p in inventory ==> p in t && inventory[p] == t[p]
    {
      assert listing[i] in listing;
      if ManagedRuntimePath(listing[i]) {
        inventory := inventory[listing[i] := t[listing[i]]];
      }
    }
    assert listing[..|listing|] == listing;
  }

  lemma {:induction false} ChangedOne(listing: seq<Path>, t: Tree, base: Tree, i: nat)
    requires i < |listing| && forall p :: p in listing ==> p in t
    ensures var p := listing[i];
            var inventory, baseInventory := Managed(t), Managed(base);
            var before := ChangedEntries(listing[..i], t, base);
            && p in t
            && (forall q :: q in listing[..i + 1] ==> q in t)
            && ChangedEntries(listing[..i + 1], t, base) ==
               if p in inventory && !(p in baseInventory && baseInventory[p] == inventory[p])
               then before + [Entry(p, inventory[p])] else before
  {
    assert listing[i] in listing;
    assert listing[..i + 1][..i] == listing[..i];
  }

  /** One turn of the loop over the new inventory. */
  method AddChanged(changed: seq<Entry>, size: nat, p: Path, inventory: map<Path, Content>,
                    baseInventory: map<Path, Content>)
    returns (changed': seq<Entry>, size': nat)
    requires size == TotalSize(changed)
    ensures changed' == if p in inventory && !(p in baseInventory && baseInventory[p] == inventory[p])
                        then changed + [Entry(p, inventory[p])] else changed
    ensures size' == TotalSize(changed')
  {
    if p !in inventory || (p in baseInventory && baseInventory[p] == inventory[p]) {
      return changed, size;
    }
    var entry := Entry(p, inventory[p]);
    OneMoreSize(changed, entry);
    return changed + [entry], size + entry.Size();
  }

  /** The loop over the new inventory. */
  method ChangedFiles(listing: seq<Path>, t: Tree, inventory: map<Path, Content>, base: Tree,
                      baseInventory: map<Path, Content>)
    returns (changed: seq<Entry>, size: nat)
    requires Lists(listing, t) && inventory == Managed(t) && baseInventory == Managed(base)
    ensures changed == ChangedEntries(listing, t, base) && size == TotalSize(changed)
  {
    changed, size := [], 0;
    for i := 0 to |listing|
      invariant changed == ChangedEntries(listing[..i], t, base)
      invariant size == TotalSize(changed)
    {
      ChangedOne(listing, t, base, i);
      changed, size := AddChanged(changed, size, listing[i], inventory, baseInventory);
    }
    assert listing[..|listing|] == listing;
  }

  /** The loop over the base inventory. */
  method DeletedFiles(t: Tree, inventory: map<Path, Content>, baseListing: seq<Path>, base: Tree,
                      baseInventory: map<Path, Content>)
    returns (deleted: seq<Path>)
    requires Lists(baseListing, base) && inventory == Managed(t) && baseInventory == Managed(base)
    ensures deleted == DeletedPaths(baseListing, t)
  {
    deleted := [];
    for i := 0 to |baseListing|
      invariant deleted == DeletedPaths(baseListing[..i], t)
    {
      assert baseListing[..i + 1][..i] == baseListing[..i];
      assert baseListing[i] in baseListing;
      if baseListing[i] in baseInventory && baseListing[i] !in inventory {
        deleted := deleted + [baseListing[i]];
      }
    }
    assert baseListing[..|baseListing|] == baseListing;
  }

  /** `build_runtime`: refuses a tree whose metadata disagrees with the arguments, else diffs. */
  method BuildRuntime(args: BuildArgs, t: Tree, listing: seq<Path>, base: Tree, baseListing: seq<Path>)
    returns (r: Result<Manifest>)
    requires Lists(listing, t) && Lists(baseListing, base)
    ensures r.Ok? <==>
              && HasLine(t, "VERSION", args.version) && args.version != ""
              && HasLine(t, "COMPAT_VENDOR", args.vendorRuntime) && args.vendorRuntime != ""
              && HasLine(t, "RUNTIME_ABI", args.runtimeAbi) && args.runtimeAbi != ""
    ensures r.Ok? ==> r.value == DiffManifest(args, t, listing, base, baseListing)
    ensures r.Ok? ==> r.value.version == args.version && r.value.sourceVersion == args.baseVersion
  {
    ReadLineIs(t, "VERSION", args.version);
    ReadLineIs(t, "COMPAT_VENDOR", args.vendorRuntime);
    ReadLineIs(t, "RUNTIME_ABI", args.runtimeAbi);
    if !LineMatches(t, "VERSION", args.version) {
      return Err("--version does not match runtime VERSION");
    }
    if !LineMatches(t, "COMPAT_VENDOR", args.vendorRuntime) {
      return Err("--vendor-runtime does not match runtime COMPAT_VENDOR");
    }
    if !LineMatches(t, "RUNTIME_ABI", args.runtimeAbi) {
      return Err("--runtime-abi does not match runtime RUNTIME_ABI");
    }
    var inventory := RuntimeInventory(listing, t);
    var baseInventory := RuntimeInventory(baseListing, base);
    var changed, size := ChangedFiles(listing, t, inventory, base, baseInventory);
    var deleted := DeletedFiles(t, inventory, baseListing, base, baseInventory);
    return Ok(Manifest(1, "runtime", "powkiddy-v90s", "aarch64", args.vendorRuntime, args.baseVersion,
                       args.version, size, changed, deleted));
  }

  /** Member names of the archive written for a manifest. */
  function ArchiveNames(files: seq<Entry>): set<string> {
    {"META/manifest.json", "META/manifest.sig"} + set e | e in files :: "payload/" + e.path
  }

  // ----- what the validator and the updater make of a built package -----

  /**
   The validator accepts a package made by the builder exactly when no changed symlink points
   at an absolute target or through "..".
   */
  lemma {:induction false} BuiltManifestAccepted(args: BuildArgs, t: Tree, listing: seq<Path>, base: Tree,
                                                 baseListing: seq<Path>)
    requires Lists(listing, t) && Lists(baseListing, base)
    requires args.vendorRuntime == "v90s-stockos-r1"
    ensures var m := DiffManifest(args, t, listing, base, baseListing);
            ValidManifest(m, ArchiveNames(m.files)) <==>
            forall p :: p in t && ManagedRuntimePath(p) && Get(base, p) != Some(t[p]) && t[p].Symlink?
                        ==> HarmlessTarget(t[p].target)
  {
    var m := DiffManifest(args, t, listing, base, baseListing);
    var names := ArchiveNames(m.files);
    ChangedEntriesAre(listing, t, base);
    BuiltScope(args, t, listing, base, baseListing);
    forall e | e in m.files
      ensures SafeRelative(e.path) && "payload/" + e.path in names
    {
      SafeRelativeMeansReal(e.path);
    }
    forall e | e in m.files && e.content.Symlink?
      ensures HarmlessTarget(e.content.target) <==> !EscapingTarget(e.content.target)
    {
      HarmlessIs(e.content.target);
    }
    if ValidManifest(m, names) {
      forall p | p in t && ManagedRuntimePath(p) && Get(base, p) != Some(t[p]) && t[p].Symlink?
        ensures HarmlessTarget(t[p].target)
      {
        HarmlessIs(t[p].target);
        assert Entry(p, t[p]) in m.files;
      }
    }
  }

  /** A built package declares what its archive holds, and touches managed paths only. */
  lemma {:induction false} BuiltScope(args: BuildArgs, t: Tree, listing: seq<Path>, base: Tree, baseListing: seq<Path>)
    requires Lists(listing, t) && Lists(baseListing, base)
    ensures var m := DiffManifest(args, t, listing, base, baseListing);
            ValidScope(m, ArchiveNames(m.files))
  {
    var m := DiffManifest(args, t, listing, base, baseListing);
    ChangedEntriesAre(listing, t, base);
    DeletedPathsAre(baseListing, t);
    forall p | p in m.delete
      ensures SafeRelative(p)
    {
      SafeRelativeMeansReal(p);
    }
    forall n | n in ArchiveNames(m.files) && "payload/" <= n
      ensures n[|"payload/"|..] in DeclaredPaths(m.files)
    {
      PayloadName(m.files, n);
    }
  }

  lemma {:induction false} PayloadName(files: seq<Entry>, n: string)
    requires n in ArchiveNames(files) && "payload/" <= n
    ensures n[|"payload/"|..] in DeclaredPaths(files)
  {
    assert n[0] == 'p';
    assert n != "META/manifest.json" && n != "META/manifest.sig";
    var e :| e in files && n == "payload/" + e.path;
    assert n[|"payload/"|..] == e.path;
  }

  // ----- diff, then patch -----

  lemma {:induction false} PatchAt(t: Tree, payload: Tree, ops: seq<PlannedOp>, p: Path)
    requires DistinctPlan(ops) && Staged(ops, payload)
    ensures (forall i :: 0 <= i < |ops| ==> ops[i].path != p) ==> Get(Patch(t, payload, ops), p) == Get(t, p)
    ensures forall i :: 0 <= i < |ops| && ops[i].path == p ==>
              Get(Patch(t, payload, ops), p) == if ops[i].installs then Get(payload, p) else None
    decreases |ops|
  {
    if ops != [] {
      var t1 := PatchOne(t, payload, ops[0]);
      assert Staged(ops[1..], payload) by {
        forall i | 0 <= i < |ops[1..]| && ops[1..][i].installs
          ensures ops[1..][i].path in payload
        {
          assert ops[1..][i] == ops[i + 1];
        }
      }
      PatchAt(t1, payload, ops[1..], p);
      forall i | 0 < i < |ops|
        ensures ops[i] == ops[1..][i - 1]
      {
      }
      if ops[0].path == p {
        forall i | 0 <= i < |ops[1..]|
          ensures ops[1..][i].path != p
        {
          assert ops[1..][i] == ops[i + 1];
        }
      }
    }
  }

  /** Membership in the plan of a manifest. */
  lemma {:induction false} PlanOpsAre(m: Manifest)
    requires DistinctEntries(m.files) && NoDuplicates(m.delete)
    requires forall e, p :: e in m.files && p in m.delete ==> e.path != p
    ensures Applicable(Payload(m.files), PlanOps(m))
    ensures forall o :: o in PlanOps(m) <==>
              if o.installs then exists e :: e in m.files && e.path == o.path else o.path in m.delete
  {
    var fileOps, deleteOps := FileOps(m.files), DeleteOps(m.delete);
    var all := fileOps + deleteOps;
    assert DistinctPlan(all) by {
      forall i, j | 0 <= i < j < |all|
        ensures all[i].path != all[j].path
      {
        if i < |m.files| <= j {
          assert m.files[i] in m.files && m.delete[j - |m.files|] in m.delete;
        }
      }
    }
    SortOpsSorts(all);
    DistinctPermutation(all, PlanOps(m));
    forall o
      ensures o in PlanOps(m) <==> o in all
    {
      assert o in PlanOps(m) <==> o in multiset(PlanOps(m));
      assert o in all <==> o in multiset(all);
    }
    forall o
      ensures o in all <==> if o.installs then exists e :: e in m.files && e.path == o.path else o.path in m.delete
    {
      AllOpsAre(m, o);
    }
    forall i | 0 <= i < |PlanOps(m)| && PlanOps(m)[i].installs
      ensures PlanOps(m)[i].path in Payload(m.files)
    {
      assert PlanOps(m)[i] in PlanOps(m);
      var e :| e in m.files && e.path == PlanOps(m)[i].path;
      var j :| 0 <= j < |m.files| && m.files[j] == e;
      PayloadAt(m.files, j);
    }
  }

  lemma {:induction false} AllOpsAre(m: Manifest, o: PlannedOp)
    ensures o in FileOps(m.files) + DeleteOps(m.delete) <==>
            if o.installs then exists e :: e in m.files && e.path == o.path else o.path in m.delete
  {
    var fileOps, deleteOps := FileOps(m.files), DeleteOps(m.delete);
    if o.installs && exists e :: e in m.files && e.path == o.path {
      var e :| e in m.files && e.path == o.path;
      var j :| 0 <= j < |m.files| && m.files[j] == e;
      assert fileOps[j] == o;
    }
    if !o.installs && o.path in m.delete {
      var j :| 0 <= j < |m.delete| && m.delete[j] == o.path;
      assert deleteOps[j] == o;
    }
    if o in fileOps {
      var j :| 0 <= j < |fileOps| && fileOps[j] == o;
      assert m.files[j] in m.files;
    }
    if o in deleteOps {
      var j :| 0 <= j < |deleteOps| && deleteOps[j] == o;
      assert m.delete[j] in m.delete;
    }
  }

  /** A tree whose managed part is that of `release` and whose other paths are those of `user`. */
  ghost predicate IsRelease(t: Tree, release: Tree, user: Tree) {
    forall p :: Get(t, p) == if ManagedRuntimePath(p) then Get(release, p) else Get(user, p)
  }

  lemma {:induction false} BuiltManifestApplicable(args: BuildArgs, t: Tree, listing: seq<Path>, base: Tree,
                                                   baseListing: seq<Path>)
    requires Lists(listing, t) && Lists(baseListing, base)
    ensures var m := DiffManifest(args, t, listing, base, baseListing);
            && DistinctEntries(m.files) && NoDuplicates(m.delete)
            && (forall e, p :: e in m.files && p in m.delete ==> e.path != p)
            && Applicable(Payload(m.files), PlanOps(m))
  {
    var m := DiffManifest(args, t, listing, base, baseListing);
    ChangedEntriesAre(listing, t, base);
    DeletedPathsAre(baseListing, t);
    PlanOpsAre(m);
  }

  /** Where the base tree already agrees with the new one, the live tree does too. */
  ghost predicate Agrees(live: Tree, t: Tree, base: Tree) {
    forall p :: ManagedRuntimePath(p) && Get(base, p) == Get(t, p) ==> Get(live, p) == Get(t, p)
  }

  /** What applying a built package leaves at each path of any tree. */
  lemma {:induction false} PatchedTree(args: BuildArgs, live: Tree, t: Tree, listing: seq<Path>, base: Tree,
                                       baseListing: seq<Path>, p: Path)
    requires Lists(listing, t) && Lists(baseListing, base)
    ensures var m := DiffManifest(args, t, listing, base, baseListing);
            Get(Patch(live, Payload(m.files), PlanOps(m)), p) ==
            if ManagedRuntimePath(p) && Get(base, p) != Get(t, p) then Get(t, p) else Get(live, p)
  {
    var m := DiffManifest(args, t, listing, base, baseListing);
    var payload, ops := Payload(m.files), PlanOps(m);
    ChangedEntriesAre(listing, t, base);
    DeletedPathsAre(baseListing, t);
    PlanOpsAre(m);
    if i :| 0 <= i < |ops| && ops[i].path == p {
      assert ops[i] in ops;
      PatchedPath(m, live, t, i);
    } else {
      PatchAt(live, payload, ops, p);
      assert PlannedOp(p, false) !in ops && PlannedOp(p, true) !in ops;
      if ManagedRuntimePath(p) && p in t {
        assert Entry(p, t[p]) !in m.files;
      }
    }
  }

  /**
   Diff, then patch, for any tree, base and target: laid over a tree, a package gives the target's
   managed part and leaves every other path alone, if and only if the tree has what the package takes
   for granted: wherever base and target agree, the tree agrees with them.
   */
  lemma {:induction false} PatchGivesTarget(args: BuildArgs, live: Tree, t: Tree, listing: seq<Path>, base: Tree,
                                            baseListing: seq<Path>, user: Tree)
    requires Lists(listing, t) && Lists(baseListing, base)
    requires forall p :: !ManagedRuntimePath(p) ==> Get(live, p) == Get(user, p)
    ensures var m := DiffManifest(args, t, listing, base, baseListing);
            IsRelease(Patch(live, Payload(m.files), PlanOps(m)), t, user) <==> Agrees(live, t, base)
  {
    var m := DiffManifest(args, t, listing, base, baseListing);
    var patched := Patch(live, Payload(m.files), PlanOps(m));
    forall p
      ensures Get(patched, p) ==
              if ManagedRuntimePath(p) && Get(base, p) != Get(t, p) then Get(t, p) else Get(live, p)
    {
      PatchedTree(args, live, t, listing, base, baseListing, p);
    }
    if IsRelease(patched, t, user) {
      forall p | ManagedRuntimePath(p) && Get(base, p) == Get(t, p)
        ensures Get(live, p) == Get(t, p)
      {
        assert Get(patched, p) == Get(live, p);
      }
    }
  }

  /**
   Diff, then patch: laid over a tree whose managed part is the base tree's, the package makes
   the managed part exactly the new tree's and leaves every other path alone.
   */
  lemma {:induction false} DiffThenPatch(args: BuildArgs, live: Tree, t: Tree, listing: seq<Path>, base: Tree,
                                         baseListing: seq<Path>, user: Tree)
    requires Lists(listing, t) && Lists(baseListing, base)
    requires IsRelease(live, base, user)
    ensures var m := DiffManifest(args, t, listing, base, baseListing);
            IsRelease(Patch(live, Payload(m.files), PlanOps(m)), t, user)
  {
    PatchGivesTarget(args, live, t, listing, base, baseListing, user);
  }

  /** A planned path ends up as the new tree has it. */
  lemma {:induction false} PatchedPath(m: Manifest, live: Tree, t: Tree, i: nat)
    requires DistinctEntries(m.files) && Applicable(Payload(m.files), PlanOps(m)) && i < |PlanOps(m)|
    requires var o := PlanOps(m)[i];
             if o.installs then exists e :: e in m.files && e.path == o.path else o.path in m.delete
    requires forall e :: e in m.files ==> Get(t, e.path) == Some(e.content)
    requires forall p :: p in m.delete ==> p !in t
    ensures var p := PlanOps(m)[i].path;
            Get(Patch(live, Payload(m.files), PlanOps(m)), p) == Get(t, p)
  {
    var o := PlanOps(m)[i];
    PatchAt(live, Payload(m.files), PlanOps(m), o.path);
    if o.installs {
      var e :| e in m.files && e.path == o.path;
      var j :| 0 <= j < |m.files| && m.files[j] == e;
      PayloadAt(m.files, j);
    }
  }
}
