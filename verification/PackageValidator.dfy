/** The validator of packages. */
module PackageValidator {
  // Its loops, and what it accepts, said once in the program's terms and once in terms of the texts.

  import opened Common
  import opened Strings
  import opened ManagedPaths
  import opened RuntimeDisk
  import opened UpdatePackage
  import Utf8

  function TotalSize(files: seq<Entry>): nat {
    if files == [] then 0 else TotalSize(files[..|files| - 1]) + files[|files| - 1].Size()
  }

  lemma {:induction false} OneMoreSize(files: seq<Entry>, e: Entry)
    ensures TotalSize(files + [e]) == TotalSize(files) + e.Size()
  {
    assert (files + [e])[..|files|] == files;
  }

  predicate AcceptableEntry(e: Entry, names: set<string>) {
    && SafeRelative(e.path)
    && "payload/" + e.path in names
    && (e.content.Symlink? ==> !EscapingTarget(e.content.target))
  }

  predicate ValidHeader(m: Manifest) {
    && m.format == FORMAT_VERSION
    && m.packageType in {"runtime", "system"}
    && m.deviceId == DEVICE_ID && m.architecture == ARCHITECTURE
    && m.vendorRuntime == VENDOR_RUNTIME
  }

  ghost predicate ValidEntries(files: seq<Entry>, names: set<string>) {
    && DistinctEntries(files)
    && forall i :: 0 <= i < |files| ==> AcceptableEntry(files[i], names)
  }

  predicate Deletable(p: Path) {
    SafeRelative(p) && ManagedRuntimePath(p)
  }

  predicate ValidDeletes(delete: seq<Path>) {
    forall i :: 0 <= i < |delete| ==> Deletable(delete[i])
  }

  function DeclaredPaths(files: seq<Entry>): set<Path> {
    set e | e in files :: e.path
  }

  /** Payload members are declared, and the declared paths suit the type of package. */
  predicate ValidScope(m: Manifest, names: set<string>) {
    var declared := DeclaredPaths(m.files);
    && (forall n :: n in names && "payload/" <= n ==> n[|"payload/"|..] in declared)
    && (if m.packageType == "runtime" then
          (forall p :: p in declared ==> ManagedRuntimePath(p)) && ValidDeletes(m.delete)
        else
          declared == {"system.squashfs"})
  }

  /** What `validate_manifest` demands of a runtime or system manifest. */
  ghost predicate ValidManifest(m: Manifest, names: set<string>) {
    && ValidHeader(m)
    && ValidEntries(m.files, names)
    && TotalSize(m.files) == m.payloadBytes
    && ValidScope(m, names)
  }

  lemma {:induction false} OneMoreEntry(files: seq<Entry>, names: set<string>, i: nat)
    requires i < |files| && ValidEntries(files[..i], names)
    ensures ValidEntries(files[..i + 1], names) <==>
            files[i].path !in DeclaredPaths(files[..i]) && AcceptableEntry(files[i], names)
    ensures !ValidEntries(files[..i + 1], names) ==> !ValidEntries(files, names)
    ensures DeclaredPaths(files[..i + 1]) == DeclaredPaths(files[..i]) + {files[i].path}
  {
    var done, more := files[..i], files[..i + 1];
    assert more == done + [files[i]] && more[i] == files[i];
    forall j | 0 <= j < i
      ensures done[j] in done && more[j] == done[j] == files[j]
    {
    }
    if files[i].path in DeclaredPaths(done) {
      var j :| 0 <= j < i && done[j].path == files[i].path;
      assert more[j].path == more[i].path;
    }
    if ValidEntries(files, names) {
      MoreInvalid(files, names, i);
    }
  }

  lemma {:induction false} MoreInvalid(files: seq<Entry>, names: set<string>, i: nat)
    requires i < |files| && ValidEntries(files, names)
    ensures ValidEntries(files[..i + 1], names)
  {
    forall j | 0 <= j < i + 1
      ensures files[..i + 1][j] == files[j]
    {
    }
  }

  /** The loop of `validate_manifest` over the declared files. */
  method CheckEntries(files: seq<Entry>, names: set<string>)
    returns (ok: bool, declared: set<Path>, declaredBytes: nat)
    ensures ok <==> ValidEntries(files, names)
    ensures ok ==> declared == DeclaredPaths(files) && declaredBytes == TotalSize(files)
  {
    declared, declaredBytes := {}, 0;
    for i := 0 to |files|
      invariant declared == DeclaredPaths(files[..i])
      invariant ValidEntries(files[..i], names)
      invariant declaredBytes == TotalSize(files[..i])
    {
      var e := files[i];
      assert files[..i + 1] == files[..i] + [e];
      assert files[..i + 1][..i] == files[..i];
      OneMoreEntry(files, names, i);
      if e.path in declared || !AcceptableEntry(e, names) {
        return false, declared, declaredBytes;
      }
      declared := declared + {e.path};
      declaredBytes := declaredBytes + e.Size();
    }
    assert files[..|files|] == files;
    ok := true;
  }

  /** A loop that stops at the first path a test refuses. */
  method AllPass(paths: seq<Path>, test: Path -> bool) returns (ok: bool)
    ensures ok <==> forall i :: 0 <= i < |paths| ==> test(paths[i])
  {
    for i := 0 to |paths|
      invariant forall j :: 0 <= j < i ==> test(paths[j])
    {
      if !test(paths[i]) {
        return false;
      }
    }
    ok := true;
  }

  /** The loop of `validate_manifest` over the deletion list. */
  method CheckDeletes(delete: seq<Path>) returns (ok: bool)
    ensures ok <==> ValidDeletes(delete)
  {
    ok := AllPass(delete, Deletable);
  }

  // ----- the same in terms of the texts -----

  /** The target neither starts at the root nor has ".." between its slashes. */
  ghost predicate HarmlessTarget(target: string) {
    && (target != "" ==> target[0] != '/')
    && forall i: nat :: !PartAt(target, i, "..", '/')
  }

  lemma {:induction false} HarmlessIs(target: string)
    ensures HarmlessTarget(target) <==> !EscapingTarget(target)
  {
    SplitHolds(target, '/', "..");
  }

  predicate StartsWith(p: Path, prefix: string) {
    |prefix| <= |p| && p[..|prefix|] == prefix
  }

  /** What PortMaster installs is the user's. */
  predicate PortMasters(p: Path) {
    || StartsWith(p, "apps/portmaster/installed.json")
    || StartsWith(p, "apps/portmaster/upstream/")
    || StartsWith(p, "apps/portmaster/upstream.previous/")
  }

  /** The frontend, launcher and emulator settings that an update brings. */
  predicate ShippedConfig(p: Path) {
    || StartsWith(p, "config/frontend/apps.json") || StartsWith(p, "config/frontend/boot-splash.png")
    || StartsWith(p, "config/frontend/menus.json") || StartsWith(p, "config/frontend/scraper-rescue-seeds.tsv")
    || StartsWith(p, "config/frontend/scraper-sources.tsv") || StartsWith(p, "config/frontend/systems.json")
    || StartsWith(p, "config/frontend/themes.json")
    || StartsWith(p, "config/retroarch/plumos-v90s-retroarch-route")
    || StartsWith(p, "config/retroarch/v90s-powervr-quicknes.cfg") || StartsWith(p, "config/standalone/")
  }

  /** The paths that the package builder collects, with its own lists. */
  predicate Collected(p: Path) {
    || p == "COMPAT_VENDOR" || p == "MOUNT_PATH" || p == "RUNTIME_ABI"
    || p == "VERSION" || p == "checksums.sha256" || p == "manifest.json"
    || (!PortMasters(p)
        && (ShippedConfig(p)
            || Split(p, '/')[0] in ["adb", "apps", "audio-router", "bin", "cores", "factory-defaults", "fonts",
                                    "frontend", "gnu", "info", "lib", "licenses", "media", "music", "picoarch", "samba",
                                    "share", "ssh", "standalone", "themes"]))
  }

  /** The builder's and the updater's lists of managed paths agree. */
  lemma {:induction false} SameLists(p: Path)
    ensures Collected(p) <==> ManagedRuntimePath(p)
  {
    PersistentIs(p);
    ShippedIs(p);
  }

  lemma {:induction false} PersistentIs(p: Path)
    ensures PortMasters(p) <==> StartsWithAny(p, PERSISTENT_PREFIXES)
  {
    var l := PERSISTENT_PREFIXES;
    assert |l| == 3;
    forall i | 0 <= i < 3
      ensures l[i] <= p <==> StartsWith(p, l[i])
    {
    }
    if PortMasters(p) {
      assert l[0] <= p || l[1] <= p || l[2] <= p;
    }
  }

  lemma {:induction false} ShippedIs(p: Path)
    ensures ShippedConfig(p) <==> StartsWithAny(p, MANAGED_CONFIG_PREFIXES)
  {
    var l := MANAGED_CONFIG_PREFIXES;
    assert |l| == 10;
    forall i | 0 <= i < 10
      ensures l[i] <= p <==> StartsWith(p, l[i])
    {
    }
    if ShippedConfig(p) {
      assert l[0] <= p || l[1] <= p || l[2] <= p || l[3] <= p || l[4] <= p || l[5] <= p || l[6] <= p || l[7] <= p
             || l[8] <= p || l[9] <= p;
    }
  }

  /** The length of a character in UTF-8, as section 3 of RFC 3629 tables it. */
  function Octets(c: char): nat {
    var n := c as int;
    if n <= 0x7F then 1 else if n <= 0x7FF then 2 else if n <= 0xFFFF then 3 else 4
  }

  function TextOctets(text: string): nat {
    if text == "" then 0 else TextOctets(text[..|text| - 1]) + Octets(text[|text| - 1])
  }

  /** The bytes of the files, and of the targets of the symlinks, from the first entry on. */
  function PayloadOctets(files: seq<Entry>): nat {
    if files == [] then 0
    else (match files[0].content
          case File(data, _) => |data|
          case Symlink(target) => TextOctets(target)) + PayloadOctets(files[1..])
  }

  lemma {:induction false} TextOctetsIs(text: string)
    ensures EncodedLength(text) == TextOctets(text)
    decreases |text|
  {
    if text != "" {
      TextOctetsFirst(text);
      TextOctetsIs(text[1..]);
    }
  }

  lemma {:induction false} TextOctetsFirst(text: string)
    requires text != ""
    ensures TextOctets(text) == Octets(text[0]) + TextOctets(text[1..])
    decreases |text|
  {
    var n := |text| - 1;
    if n > 0 {
      TextOctetsFirst(text[..n]);
      assert text[..n][1..] == text[1..][..n - 1];
    }
  }

  lemma {:induction false} PayloadOctetsIs(files: seq<Entry>)
    ensures TotalSize(files) == PayloadOctets(files)
    decreases |files|
  {
    if files != [] {
      TotalSizeFirst(files);
      PayloadOctetsIs(files[1..]);
      if files[0].content.Symlink? {
        TextOctetsIs(files[0].content.target);
      }
    }
  }

  lemma {:induction false} TotalSizeFirst(files: seq<Entry>)
    requires files != []
    ensures TotalSize(files) == files[0].Size() + TotalSize(files[1..])
    decreases |files|
  {
    var n := |files| - 1;
    if n > 0 {
      TotalSizeFirst(files[..n]);
      assert files[..n][1..] == files[1..][..n - 1];
    }
  }

  ghost predicate EntryWellMade(e: Entry, names: set<string>) {
    && (e.path == "." || RealPath(e.path))
    && "payload/" + e.path in names
    && (e.content.Symlink? ==> HarmlessTarget(e.content.target))
  }

  ghost predicate HeaderWellMade(m: Manifest) {
    && m.format == 1 && (m.packageType == "runtime" || m.packageType == "system")
    && m.deviceId == "powkiddy-v90s" && m.architecture == "aarch64" && m.vendorRuntime == "v90s-stockos-r1"
  }

  ghost predicate PathsWellMade(m: Manifest, names: set<string>) {
    && (forall p :: "payload/" + p in names ==> exists e :: e in m.files && e.path == p)
    && (m.packageType == "runtime" ==>
          && (forall e :: e in m.files ==> Collected(e.path))
          && (forall p :: p in m.delete ==> (p == "." || RealPath(p)) && Collected(p)))
    && (m.packageType == "system" ==> |m.files| == 1 && m.files[0].path == "system.squashfs")
  }

  /** A package for this device: what its manifest says, and which files it may carry and delete. */
  ghost predicate WellMade(m: Manifest, names: set<string>) {
    && HeaderWellMade(m)
    && (forall i, j :: 0 <= i < j < |m.files| ==> m.files[i].path != m.files[j].path)
    && (forall e :: e in m.files ==> EntryWellMade(e, names))
    && PayloadOctets(m.files) == m.payloadBytes
    && PathsWellMade(m, names)
  }

  lemma {:induction false} EntryWellMadeIs(e: Entry, names: set<string>)
    ensures EntryWellMade(e, names) <==> AcceptableEntry(e, names)
  {
    SafeRelativeMeansReal(e.path);
    if e.content.Symlink? {
      HarmlessIs(e.content.target);
    }
  }

  lemma {:induction false} DeclaredIs(files: seq<Entry>, names: set<string>)
    ensures (forall p :: "payload/" + p in names ==> exists e :: e in files && e.path == p) <==>
            (forall n :: n in names && "payload/" <= n ==> n[|"payload/"|..] in DeclaredPaths(files))
  {
    if forall p :: "payload/" + p in names ==> exists e :: e in files && e.path == p {
      forall n | n in names && "payload/" <= n
        ensures n[|"payload/"|..] in DeclaredPaths(files)
      {
        assert n == "payload/" + n[|"payload/"|..];
      }
    }
    if forall n :: n in names && "payload/" <= n ==> n[|"payload/"|..] in DeclaredPaths(files) {
      forall p | "payload/" + p in names
        ensures exists e :: e in files && e.path == p
      {
        var n := "payload/" + p;
        assert "payload/" <= n && n[|"payload/"|..] == p;
        assert p in DeclaredPaths(files);
      }
    }
  }

  lemma {:induction false} OnlyImage(files: seq<Entry>)
    requires DistinctEntries(files)
    ensures DeclaredPaths(files) == {"system.squashfs"} <==> |files| == 1 && files[0].path == "system.squashfs"
  {
    assert |files| > 1 ==> files[0].path != files[1].path;
    if DeclaredPaths(files) == {"system.squashfs"} {
      forall i | 0 <= i < |files|
        ensures files[i].path == "system.squashfs"
      {
        assert files[i] in files && files[i].path in DeclaredPaths(files);
      }
      assert "system.squashfs" in DeclaredPaths(files);
    }
    if |files| == 1 {
      assert files == [files[0]];
    }
  }

  lemma {:induction false} PathMeans(p: Path)
    ensures Collected(p) <==> ManagedRuntimePath(p)
    ensures Deletable(p) <==> (p == "." || RealPath(p)) && Collected(p)
  {
    SameLists(p);
    SafeRelativeMeansReal(p);
  }

  lemma {:induction false} PathsWellMadeIs(m: Manifest, names: set<string>)
    requires HeaderWellMade(m) && DistinctEntries(m.files)
    ensures PathsWellMade(m, names) <==> ValidScope(m, names)
  {
    hide Collected, ManagedRuntimePath, Deletable, RealPath, SafeRelative;
    DeclaredIs(m.files, names);
    OnlyImage(m.files);
    forall p
      ensures Collected(p) <==> ManagedRuntimePath(p)
      ensures Deletable(p) <==> (p == "." || RealPath(p)) && Collected(p)
    {
      PathMeans(p);
    }
    assert (forall e :: e in m.files ==> Collected(e.path)) <==>
           (forall p :: p in DeclaredPaths(m.files) ==> ManagedRuntimePath(p));
    assert (forall p :: p in m.delete ==> Deletable(p)) <==> ValidDeletes(m.delete);
  }

  /** The validator accepts exactly the well-made packages. */
  lemma {:induction false} ValidIsWellMade(m: Manifest, names: set<string>)
    ensures ValidManifest(m, names) <==> WellMade(m, names)
  {
    assert ValidHeader(m) <==> HeaderWellMade(m);
    if HeaderWellMade(m) && DistinctEntries(m.files) {
      forall e
        ensures EntryWellMade(e, names) <==> AcceptableEntry(e, names)
      {
        EntryWellMadeIs(e, names);
      }
      PayloadOctetsIs(m.files);
      PathsWellMadeIs(m, names);
    }
  }

  /** Whatever an accepted runtime package carries or deletes, it leaves alone what PortMaster installed. */
  lemma {:induction false} UserPathsKept(m: Manifest, names: set<string>, p: Path)
    requires ValidManifest(m, names) && m.packageType == "runtime"
    requires p in m.delete || exists e :: e in m.files && e.path == p
    ensures !PortMasters(p)
    ensures StartsWith(p, "config/") ==> ShippedConfig(p)
  {
    ValidIsWellMade(m, names);
    CollectedIsShipped(p);
  }

  lemma {:induction false} CollectedIsShipped(p: Path)
    requires Collected(p)
    ensures !PortMasters(p)
    ensures StartsWith(p, "config/") ==> ShippedConfig(p)
  {
    if StartsWith(p, "config/") {
      ConfigRoot(p);
    }
  }

  lemma {:induction false} ConfigRoot(p: Path)
    requires StartsWith(p, "config/")
    ensures Split(p, '/')[0] == "config" && p[0] == 'c' && p[1] == 'o' && p[2] == 'n'
  {
    assert p[..7] == "config/" && p[6] == '/';
    assert p[0..6] == p[..7][..6] == "config";
    assert PartAt(p, 0, "config", '/');
    SplitFirst(p, '/', "config");
  }

  /** Where following the components of a path from a directory leads, if it never steps above the root. */
  function Follow(dir: seq<string>, parts: seq<string>): Option<seq<string>>
    decreases |parts|
  {
    if parts == [] then Some(dir)
    else if parts[0] == "" || parts[0] == "." then Follow(dir, parts[1..])
    else if parts[0] == ".." then if dir == [] then None else Follow(dir[..|dir| - 1], parts[1..])
    else Follow(dir + [parts[0]], parts[1..])
  }

  /** From the directory that holds it, an accepted symlink never leads out of that directory. */
  lemma {:induction false} SymlinkStaysInside(m: Manifest, names: set<string>, e: Entry, dir: seq<string>, k: nat)
    requires ValidManifest(m, names) && e in m.files && e.content.Symlink?
    requires k <= |Split(e.content.target, '/')|
    ensures e.content.target != "" ==> e.content.target[0] != '/'
    ensures var reached := Follow(dir, Split(e.content.target, '/')[..k]); reached.Some? && dir <= reached.value
  {
    var parts := Split(e.content.target, '/');
    assert AcceptableEntry(e, names);
    forall i | 0 <= i < k
      ensures parts[..k][i] != ".."
    {
      assert parts[..k][i] in parts;
    }
    FollowsDown(dir, parts[..k]);
  }

  lemma {:induction false} FollowsDown(dir: seq<string>, parts: seq<string>)
    requires forall i :: 0 <= i < |parts| ==> parts[i] != ".."
    ensures Follow(dir, parts).Some? && dir <= Follow(dir, parts).value
    decreases |parts|
  {
    if parts != [] {
      FollowsDown(if parts[0] == "" || parts[0] == "." then dir else dir + [parts[0]], parts[1..]);
    }
  }

  method ValidateManifest(m: Manifest, names: set<string>) returns (accepted: bool)
    ensures accepted <==> ValidManifest(m, names)
    ensures accepted <==> WellMade(m, names)
  {
    ValidIsWellMade(m, names);
    if !ValidHeader(m) {
      return false;
    }
    var ok, declared, declaredBytes := CheckEntries(m.files, names);
    if !ok || exists n :: n in names && "payload/" <= n && n[|"payload/"|..] !in declared {
      return false;
    }
    if declaredBytes != m.payloadBytes {
      return false;
    }
    if m.packageType == "runtime" {
      if exists p :: p in declared && !ManagedRuntimePath(p) {
        return false;
      }
      accepted := CheckDeletes(m.delete);
    } else {
      accepted := declared == {"system.squashfs"};
    }
  }
}
