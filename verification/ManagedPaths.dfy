/** Which paths an update may name, and which it owns. */
module ManagedPaths {
  import opened Strings

  const METADATA_LAST: set<string> := {"VERSION", "manifest.json", "checksums.sha256"}

  const MANAGED_ROOTS: set<string> := {
    "adb", "apps", "audio-router", "bin", "cores", "factory-defaults",
    "fonts", "frontend", "gnu", "info", "lib", "licenses", "media",
    "music", "picoarch", "samba", "share", "ssh", "standalone", "themes"
  }

  const MANAGED_ROOT_FILES: set<string> := {"COMPAT_VENDOR", "MOUNT_PATH", "RUNTIME_ABI"} + METADATA_LAST

  const MANAGED_CONFIG_PREFIXES: seq<string> := [
    "config/frontend/apps.json",
    "config/frontend/boot-splash.png",
    "config/frontend/menus.json",
    "config/frontend/scraper-rescue-seeds.tsv",
    "config/frontend/scraper-sources.tsv",
    "config/frontend/systems.json",
    "config/frontend/themes.json",
    "config/retroarch/plumos-v90s-retroarch-route",
    "config/retroarch/v90s-powervr-quicknes.cfg",
    "config/standalone/"
  ]

  const PERSISTENT_PREFIXES: seq<string> := [
    "apps/portmaster/installed.json",
    "apps/portmaster/upstream/",
    "apps/portmaster/upstream.previous/"
  ]

  predicate StartsWithAny(s: string, prefixes: seq<string>) {
    exists i :: 0 <= i < |prefixes| && prefixes[i] <= s
  }

  predicate ManagedRuntimePath(relative: string) {
    if relative in MANAGED_ROOT_FILES then true
    else if StartsWithAny(relative, PERSISTENT_PREFIXES) then false
    else if StartsWithAny(relative, MANAGED_CONFIG_PREFIXES) then true
    else Split(relative, '/')[0] in MANAGED_ROOTS
  }

  /** The components `PurePosixPath` keeps. */
  function PureParts(parts: seq<string>): (kept: seq<string>)
    ensures forall i :: 0 <= i < |kept| ==> kept[i] in parts && kept[i] != "" && kept[i] != "."
    decreases |parts|
  {
    if parts == [] then []
    else if parts[0] == "" || parts[0] == "." then PureParts(parts[1..])
    else [parts[0]] + PureParts(parts[1..])
  }

  predicate IsAbsolute(value: string) {
    value != "" && value[0] == '/'
  }

  /** `str(PurePosixPath(value))` for a relative value. */
  function PureText(value: string): string {
    var kept := PureParts(Split(value, '/'));
    if kept == [] then "." else Join(kept, '/')
  }

  predicate SafeRelative(value: string) {
    && value != ""
    && !IsAbsolute(value)
    && ".." !in PureParts(Split(value, '/'))
    && PureText(value) == value
  }

  /** A path below a root as a directory walk reports it. */
  predicate RealPath(value: string) {
    forall i :: 0 <= i < |Split(value, '/')| ==> Split(value, '/')[i] !in {"", ".", ".."}
  }

  lemma {:induction false} PurePartsKeepsAll(parts: seq<string>)
    requires forall i :: 0 <= i < |parts| ==> parts[i] != "" && parts[i] != "."
    ensures PureParts(parts) == parts
    decreases |parts|
  {
    if parts != [] {
      PurePartsKeepsAll(parts[1..]);
    }
  }

  /** Apart from ".", the accepted values are exactly the paths a directory walk can produce. */
  lemma {:induction false} SafeRelativeMeansReal(value: string)
    ensures SafeRelative(value) <==> value == "." || RealPath(value)
  {
    var parts := Split(value, '/');
    JoinSplit(value, '/');
    if RealPath(value) {
      PurePartsKeepsAll(parts);
      assert parts[0] != "";
      assert forall i :: 0 <= i < |parts| ==> parts[i] != "..";
    } else if value == "." {
      DotIsSafe();
    } else if SafeRelative(value) {
      var kept := PureParts(parts);
      SplitJoin(kept, '/');
      assert parts == kept;
      assert RealPath(value);
    }
  }

  lemma {:induction false} SplitDot()
    ensures Split(".", '/') == ["."]
  {
    assert "."[1..] == "";
    assert ['.'] + "" == ".";
  }

  lemma {:induction false} DotIsSafe()
    ensures SafeRelative(".")
  {
    SplitDot();
    assert PureParts(["."]) == [];
  }

  /** The check `validate_manifest` makes on the target of a symlink. */
  predicate EscapingTarget(target: string) {
    IsAbsolute(target) || ".." in Split(target, '/')
  }
}
