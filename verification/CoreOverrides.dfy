/**
 The core override file: two lists in one document, with fields that are left out when unset. The
 second list is found although the entries of the first one may contain any text, and what is left
 out is read as unset; the loader clears optional values it does not know.
 */
module CoreOverrides {
  import opened Common
  import opened Decimal
  import opened JsonText
  import opened JsonReader
  import opened JsonObjects
  import opened SavedLists
  import opened StateFiles

  datatype SystemOverride = SystemOverride(systemId: string, launchProfile: string, cpuPolicy: string, cpuFreqKhz: int)

  datatype RomOverride = RomOverride(
    systemId: string,
    relativePath: string,
    launchProfile: string,
    cpuPolicy: string,
    cpuFreqKhz: int,
    contentSuffix: string,
    audioDriver: string,
    audioLatencyMs: int,
    force60fps: string,
    cycles: string)

  datatype Overrides = Overrides(systems: seq<SystemOverride>, roms: seq<RomOverride>)

  /** A number that is written only when it is positive. */
  function NumberField(key: string, n: int): seq<Field> {
    if n > 0 then [Field(key, Literal(Digits(n)))] else []
  }

  function PolicyFields(cpuPolicy: string, cpuFreqKhz: int): seq<Field> {
    if cpuPolicy == "" then [] else TextField("cpu_policy", cpuPolicy) + NumberField("cpu_freq_khz", cpuFreqKhz)
  }

  function SystemFields(e: SystemOverride): seq<Field> {
    TextField("system_id", e.systemId)
    + (OptionalField("launch_profile", e.launchProfile) + PolicyFields(e.cpuPolicy, e.cpuFreqKhz))
  }

  function RomFields(e: RomOverride): seq<Field> {
    TextField("system_id", e.systemId)
    + (TextField("relative_path", e.relativePath)
       + (OptionalField("launch_profile", e.launchProfile)
          + (PolicyFields(e.cpuPolicy, e.cpuFreqKhz) + RomOptionFields(e))))
  }

  function RomOptionFields(e: RomOverride): seq<Field> {
    OptionalField("content_suffix", e.contentSuffix)
    + (OptionalField("audio_driver", e.audioDriver)
       + (NumberField("audio_latency_ms", e.audioLatencyMs)
          + (OptionalField("dosbox_pure_force60fps", e.force60fps)
             + OptionalField("dosbox_pure_cycles", e.cycles))))
  }

  /** The loader reads the frequency and then discards it. */
  function ParseSystem(obj: string): SystemOverride {
    SystemOverride(GetString(obj, "system_id", 64, ""), GetString(obj, "launch_profile", 128, ""),
                   GetString(obj, "cpu_policy", 32, ""), 0)
  }

  function ParseRom(obj: string): RomOverride {
    RomOverride(GetString(obj, "system_id", 64, ""), GetString(obj, "relative_path", TEXT_PATH_MAX, ""),
                GetString(obj, "launch_profile", 128, ""), GetString(obj, "cpu_policy", 32, ""), 0,
                GetString(obj, "content_suffix", 256, ""), GetString(obj, "audio_driver", 16, ""),
                GetLong(obj, "audio_latency_ms", 0), GetString(obj, "dosbox_pure_force60fps", 16, ""),
                GetString(obj, "dosbox_pure_cycles", 32, ""))
  }

  /** Optional values the loader does not recognise are cleared. */
  function CleanRom(e: RomOverride): RomOverride {
    e.(contentSuffix := if ValidContentSuffix(e.contentSuffix) then e.contentSuffix else "",
       audioDriver := if ValidAudioDriver(e.audioDriver) then e.audioDriver else "",
       audioLatencyMs := if 0 < e.audioLatencyMs <= 1000 then e.audioLatencyMs else 0,
       force60fps := if ValidDosboxBool(e.force60fps) then e.force60fps else "",
       cycles := if ValidDosboxCycles(e.cycles) then e.cycles else "")
  }

  predicate ValidChoice(launchProfile: string, cpuPolicy: string) {
    && (launchProfile == "" || ValidLaunchProfile(launchProfile))
    && (cpuPolicy == "" || ValidCpuPolicy(cpuPolicy))
  }

  function KeepSystem(entries: seq<SystemOverride>, e: SystemOverride): seq<SystemOverride> {
    if ValidSystemId(e.systemId) && ValidChoice(e.launchProfile, e.cpuPolicy) then entries + [e] else entries
  }

  function AddSystem(entries: seq<SystemOverride>, obj: string): seq<SystemOverride> {
    KeepSystem(entries, ParseSystem(obj))
  }

  function KeepRom(entries: seq<RomOverride>, e: RomOverride): seq<RomOverride> {
    if ValidSystemId(e.systemId) && ValidRelativePath(e.relativePath) && ValidChoice(e.launchProfile, e.cpuPolicy)
    then entries + [CleanRom(e)] else entries
  }

  function AddRom(entries: seq<RomOverride>, obj: string): seq<RomOverride> {
    KeepRom(entries, ParseRom(obj))
  }

  function SaveOverrides(state: Overrides): string {
    TwoListFile("system_overrides", FieldLists(state.systems, SystemFields),
                "rom_overrides", FieldLists(state.roms, RomFields))
  }

  /** A list that is not found is empty. */
  function LoadOverrides(text: string): Overrides {
    Overrides(
      match FindContainer(text, "system_overrides", '[', ']')
      case None => []
      case Some(body) => LoadEntries(body, [], MAX_SYSTEM_CORE_OVERRIDES, AddSystem),
      match FindContainer(text, "rom_overrides", '[', ']')
      case None => []
      case Some(body) => LoadEntries(body, [], MAX_ROM_CORE_OVERRIDES, AddRom))
  }

  /** A system override as it comes back, the frequency dropped. */
  function SystemBack(e: SystemOverride): SystemOverride {
    SystemOverride(Back(e.systemId, 64), Back(e.launchProfile, 128), Back(e.cpuPolicy, 32), 0)
  }

  function RomBack(e: RomOverride): RomOverride {
    RomOverride(Back(e.systemId, 64), Back(e.relativePath, 1024), Back(e.launchProfile, 128),
                Back(e.cpuPolicy, 32), 0, Back(e.contentSuffix, 256), Back(e.audioDriver, 16),
                if e.audioLatencyMs > 0 then e.audioLatencyMs else 0, Back(e.force60fps, 16), Back(e.cycles, 32))
  }

  function RestoreSystem(entries: seq<SystemOverride>, e: SystemOverride): seq<SystemOverride> {
    KeepSystem(entries, SystemBack(e))
  }

  function RestoreRom(entries: seq<RomOverride>, e: RomOverride): seq<RomOverride> {
    KeepRom(entries, RomBack(e))
  }

  predicate GoodSystem(e: SystemOverride) {
    && ValidSystemId(e.systemId) && Holds(e.systemId, 64)
    && ValidChoice(e.launchProfile, e.cpuPolicy) && Holds(e.launchProfile, 128) && Holds(e.cpuPolicy, 32)
    && e.cpuFreqKhz == 0
  }

  predicate GoodRom(e: RomOverride) {
    && ValidSystemId(e.systemId) && Holds(e.systemId, 64)
    && ValidRelativePath(e.relativePath) && Holds(e.relativePath, 1024)
    && ValidChoice(e.launchProfile, e.cpuPolicy) && Holds(e.launchProfile, 128) && Holds(e.cpuPolicy, 32)
    && e.cpuFreqKhz == 0
    && Holds(e.contentSuffix, 256) && Holds(e.audioDriver, 16) && Holds(e.force60fps, 16) && Holds(e.cycles, 32)
    && CleanRom(e) == e
  }

  // ----- looking fields up -----

  lemma {:induction false} OverrideKeyFacts()
    ensures Ident("cpu_policy") && Ident("cpu_freq_khz") && Ident("content_suffix") && Ident("audio_driver")
    ensures Ident("audio_latency_ms") && Ident("dosbox_pure_force60fps") && Ident("dosbox_pure_cycles")
  {
  }

  lemma {:induction false} NumberGood(key: string, n: int)
    requires Ident(key)
    ensures GoodFields(NumberField(key, n))
  {
    if n > 0 {
      DigitsAreDigits(n);
      assert Digit(Digits(n)[0]);
    }
  }

  lemma {:induction false} GoodConcat(a: seq<Field>, b: seq<Field>)
    requires GoodFields(a) && GoodFields(b)
    ensures GoodFields(a + b)
  {
  }

  lemma {:induction false} PolicyGood(cpuPolicy: string, cpuFreqKhz: int)
    ensures GoodFields(PolicyFields(cpuPolicy, cpuFreqKhz))
  {
    OverrideKeyFacts();
    NumberGood("cpu_freq_khz", cpuFreqKhz);
    GoodConcat(TextField("cpu_policy", cpuPolicy), NumberField("cpu_freq_khz", cpuFreqKhz));
  }

  lemma {:induction false} SystemGood(e: SystemOverride)
    ensures GoodFields(SystemFields(e))
  {
    KeyFacts();
    PolicyGood(e.cpuPolicy, e.cpuFreqKhz);
    var rest := OptionalField("launch_profile", e.launchProfile);
    GoodConcat(rest, PolicyFields(e.cpuPolicy, e.cpuFreqKhz));
    GoodConcat(TextField("system_id", e.systemId), rest + PolicyFields(e.cpuPolicy, e.cpuFreqKhz));
  }

  lemma {:induction false} RomOptionsGood(e: RomOverride)
    ensures GoodFields(RomOptionFields(e))
  {
    OverrideKeyFacts();
    var f5 := OptionalField("dosbox_pure_cycles", e.cycles);
    var f4 := OptionalField("dosbox_pure_force60fps", e.force60fps);
    var f3 := NumberField("audio_latency_ms", e.audioLatencyMs);
    var f2 := OptionalField("audio_driver", e.audioDriver);
    NumberGood("audio_latency_ms", e.audioLatencyMs);
    GoodConcat(f4, f5);
    GoodConcat(f3, f4 + f5);
    GoodConcat(f2, f3 + (f4 + f5));
    GoodConcat(OptionalField("content_suffix", e.contentSuffix), f2 + (f3 + (f4 + f5)));
  }

  lemma {:induction false} RomGood(e: RomOverride)
    ensures GoodFields(RomFields(e))
  {
    KeyFacts();
    RomOptionsGood(e);
    PolicyGood(e.cpuPolicy, e.cpuFreqKhz);
    var f4 := PolicyFields(e.cpuPolicy, e.cpuFreqKhz) + RomOptionFields(e);
    var f3 := OptionalField("launch_profile", e.launchProfile);
    var f2 := TextField("relative_path", e.relativePath);
    GoodConcat(PolicyFields(e.cpuPolicy, e.cpuFreqKhz), RomOptionFields(e));
    GoodConcat(f3, f4);
    GoodConcat(f2, f3 + f4);
    GoodConcat(TextField("system_id", e.systemId), f2 + (f3 + f4));
  }

  function TextValue(s: string): Option<Value> {
    if s == "" then None else Some(Text(s))
  }

  lemma {:induction false} OptionalLookup(key: string, s: string, wanted: string)
    ensures Lookup(OptionalField(key, s), wanted) == if key == wanted then TextValue(s) else None
    ensures Lookup(TextField(key, s), wanted) == if key == wanted then Some(Text(s)) else None
  {
    if s != "" {
      assert OptionalField(key, s)[1..] == [];
    }
    assert TextField(key, s)[1..] == [];
  }

  lemma {:induction false} NumberLookup(key: string, n: int, wanted: string)
    ensures Lookup(NumberField(key, n), wanted) == if key == wanted && n > 0 then Some(Literal(Digits(n))) else None
  {
    if n > 0 {
      assert NumberField(key, n)[1..] == [];
    }
  }

  lemma {:induction false} PolicyLookup(cpuPolicy: string, cpuFreqKhz: int, wanted: string)
    requires wanted != "cpu_freq_khz"
    ensures Lookup(PolicyFields(cpuPolicy, cpuFreqKhz), wanted) ==
            if wanted == "cpu_policy" then TextValue(cpuPolicy) else None
  {
    OptionalLookup("cpu_policy", cpuPolicy, wanted);
    NumberLookup("cpu_freq_khz", cpuFreqKhz, wanted);
    LookupConcat(TextField("cpu_policy", cpuPolicy), NumberField("cpu_freq_khz", cpuFreqKhz), wanted);
  }

  lemma {:induction false} SystemLookup(e: SystemOverride, wanted: string)
    requires wanted != "cpu_freq_khz"
    ensures Lookup(SystemFields(e), wanted) ==
            if wanted == "system_id" then Some(Text(e.systemId))
            else if wanted == "launch_profile" then TextValue(e.launchProfile)
            else if wanted == "cpu_policy" then TextValue(e.cpuPolicy)
            else None
  {
    var f2, f3 := OptionalField("launch_profile", e.launchProfile), PolicyFields(e.cpuPolicy, e.cpuFreqKhz);
    OptionalLookup("system_id", e.systemId, wanted);
    OptionalLookup("launch_profile", e.launchProfile, wanted);
    PolicyLookup(e.cpuPolicy, e.cpuFreqKhz, wanted);
    LookupConcat(f2, f3, wanted);
    LookupConcat(TextField("system_id", e.systemId), f2 + f3, wanted);
  }

  lemma {:induction false} RomOptionLookup(e: RomOverride, wanted: string)
    ensures Lookup(RomOptionFields(e), wanted) ==
            if wanted == "content_suffix" then TextValue(e.contentSuffix)
            else if wanted == "audio_driver" then TextValue(e.audioDriver)
            else if wanted == "audio_latency_ms" then
              (if e.audioLatencyMs > 0 then Some(Literal(Digits(e.audioLatencyMs))) else None)
            else if wanted == "dosbox_pure_force60fps" then TextValue(e.force60fps)
            else if wanted == "dosbox_pure_cycles" then TextValue(e.cycles)
            else None
  {
    var f5 := OptionalField("dosbox_pure_cycles", e.cycles);
    var f4 := OptionalField("dosbox_pure_force60fps", e.force60fps);
    var f3 := NumberField("audio_latency_ms", e.audioLatencyMs);
    var f2 := OptionalField("audio_driver", e.audioDriver);
    OptionalLookup("content_suffix", e.contentSuffix, wanted);
    OptionalLookup("audio_driver", e.audioDriver, wanted);
    NumberLookup("audio_latency_ms", e.audioLatencyMs, wanted);
    OptionalLookup("dosbox_pure_force60fps", e.force60fps, wanted);
    OptionalLookup("dosbox_pure_cycles", e.cycles, wanted);
    LookupConcat(f4, f5, wanted);
    LookupConcat(f3, f4 + f5, wanted);
    LookupConcat(f2, f3 + (f4 + f5), wanted);
    LookupConcat(OptionalField("content_suffix", e.contentSuffix), f2 + (f3 + (f4 + f5)), wanted);
  }

  lemma {:induction false} RomLookup(e: RomOverride, wanted: string)
    requires wanted != "cpu_freq_khz"
    ensures Lookup(RomFields(e), wanted) ==
            if wanted == "system_id" then Some(Text(e.systemId))
            else if wanted == "relative_path" then Some(Text(e.relativePath))
            else if wanted == "launch_profile" then TextValue(e.launchProfile)
            else if wanted == "cpu_policy" then TextValue(e.cpuPolicy)
            else Lookup(RomOptionFields(e), wanted)
  {
    var f5 := RomOptionFields(e);
    var f4 := PolicyFields(e.cpuPolicy, e.cpuFreqKhz);
    var f3 := OptionalField("launch_profile", e.launchProfile);
    var f2 := TextField("relative_path", e.relativePath);
    OptionalLookup("system_id", e.systemId, wanted);
    OptionalLookup("relative_path", e.relativePath, wanted);
    OptionalLookup("launch_profile", e.launchProfile, wanted);
    PolicyLookup(e.cpuPolicy, e.cpuFreqKhz, wanted);
    LookupConcat(f4, f5, wanted);
    LookupConcat(f3, f4 + f5, wanted);
    LookupConcat(f2, f3 + (f4 + f5), wanted);
    LookupConcat(TextField("system_id", e.systemId), f2 + (f3 + (f4 + f5)), wanted);
    RomOptionLookup(e, wanted);
  }

  // ----- entries read back -----

  /** The other keys are not that of the frequency. */
  lemma {:induction false} NotFrequency()
    ensures "cpu_freq_khz" !in {"system_id", "relative_path", "launch_profile", "cpu_policy", "content_suffix",
                                "audio_driver", "audio_latency_ms"}
    ensures "cpu_freq_khz" !in {"dosbox_pure_force60fps", "dosbox_pure_cycles", "rom_overrides"}
  {
    assert "audio_driver"[0] == 'a' && "cpu_freq_khz"[0] == 'c';
  }

  lemma {:induction false} SystemRestored(e: SystemOverride)
    ensures ParseSystem(EntryText(SystemFields(e))) == SystemBack(e)
  {
    var f := SystemFields(e);
    SystemGood(e);
    KeyFacts();
    OverrideKeyFacts();
    NotFrequency();
    SystemLookup(e, "system_id");
    SystemLookup(e, "launch_profile");
    SystemLookup(e, "cpu_policy");
    ReadField(f, "system_id", 64);
    ReadField(f, "launch_profile", 128);
    ReadField(f, "cpu_policy", 32);
  }

  lemma {:induction false} RomNamesRestored(e: RomOverride)
    ensures var t := EntryText(RomFields(e));
            && GetString(t, "system_id", 64, "") == Back(e.systemId, 64)
            && GetString(t, "relative_path", TEXT_PATH_MAX, "") == Back(e.relativePath, TEXT_PATH_MAX)
            && GetString(t, "launch_profile", 128, "") == Back(e.launchProfile, 128)
            && GetString(t, "cpu_policy", 32, "") == Back(e.cpuPolicy, 32)
  {
    var f := RomFields(e);
    RomGood(e);
    KeyFacts();
    OverrideKeyFacts();
    NotFrequency();
    RomLookup(e, "system_id");
    RomLookup(e, "relative_path");
    RomLookup(e, "launch_profile");
    RomLookup(e, "cpu_policy");
    ReadField(f, "system_id", 64);
    ReadField(f, "relative_path", TEXT_PATH_MAX);
    ReadField(f, "launch_profile", 128);
    ReadField(f, "cpu_policy", 32);
  }

  lemma {:induction false} RomOptionRestored(e: RomOverride, key: string, s: string, capacity: nat)
    requires Ident(key) && key != "cpu_freq_khz" && capacity > 0
    requires Lookup(RomOptionFields(e), key) == TextValue(s)
    requires key !in {"system_id", "relative_path", "launch_profile", "cpu_policy"}
    ensures GetString(EntryText(RomFields(e)), key, capacity, "") == Back(s, capacity)
  {
    RomGood(e);
    RomLookup(e, key);
    ReadField(RomFields(e), key, capacity);
  }

  lemma {:induction false} RomLatencyRestored(e: RomOverride)
    ensures GetLong(EntryText(RomFields(e)), "audio_latency_ms", 0) == RomBack(e).audioLatencyMs
  {
    var f := RomFields(e);
    RomGood(e);
    LatencyLookup(e);
    if e.audioLatencyMs > 0 {
      GetLongIsLookup(f, "{ ", ", ", " }", "audio_latency_ms", e.audioLatencyMs, 0);
    } else {
      GetLongMissing(f, "{ ", ", ", " }", "audio_latency_ms", 0);
    }
  }

  lemma {:induction false} LatencyLookup(e: RomOverride)
    ensures Ident("audio_latency_ms")
    ensures Lookup(RomFields(e), "audio_latency_ms") ==
            if e.audioLatencyMs > 0 then Some(Literal(Digits(e.audioLatencyMs))) else None
  {
    OverrideKeyFacts();
    NotFrequency();
    RomLookup(e, "audio_latency_ms");
    RomOptionLookup(e, "audio_latency_ms");
  }

  lemma {:induction false} RomOptionsRestored(e: RomOverride)
    ensures var t := EntryText(RomFields(e));
            && GetString(t, "content_suffix", 256, "") == Back(e.contentSuffix, 256)
            && GetString(t, "audio_driver", 16, "") == Back(e.audioDriver, 16)
            && GetString(t, "dosbox_pure_force60fps", 16, "") == Back(e.force60fps, 16)
            && GetString(t, "dosbox_pure_cycles", 32, "") == Back(e.cycles, 32)
  {
    OverrideKeyFacts();
    NotFrequency();
    RomOptionLookup(e, "content_suffix");
    RomOptionRestored(e, "content_suffix", e.contentSuffix, 256);
    RomOptionLookup(e, "audio_driver");
    RomOptionRestored(e, "audio_driver", e.audioDriver, 16);
    RomOptionLookup(e, "dosbox_pure_force60fps");
    RomOptionRestored(e, "dosbox_pure_force60fps", e.force60fps, 16);
    RomOptionLookup(e, "dosbox_pure_cycles");
    RomOptionRestored(e, "dosbox_pure_cycles", e.cycles, 32);
  }

  lemma {:induction false} RomRestored(e: RomOverride)
    ensures ParseRom(EntryText(RomFields(e))) == RomBack(e)
  {
    RomNamesRestored(e);
    RomOptionsRestored(e);
    RomLatencyRestored(e);
  }

  // ----- both lists -----

  ghost predicate GoodOverrides(state: Overrides) {
    && |state.systems| <= 256 && |state.roms| <= 1024
    && (forall i :: 0 <= i < |state.systems| ==> GoodSystem(state.systems[i]))
    && (forall i :: 0 <= i < |state.roms| ==> GoodRom(state.roms[i]))
  }

  lemma {:induction false} SystemsPrint(systems: seq<SystemOverride>)
    ensures GoodEntries(FieldLists(systems, SystemFields))
    ensures KeyUnused(FieldLists(systems, SystemFields), "rom_overrides")
  {
    var lists := FieldLists(systems, SystemFields);
    NotFrequency();
    forall i | 0 <= i < |lists|
      ensures GoodFields(lists[i]) && FieldIndex(lists[i], "rom_overrides") == |lists[i]|
    {
      SystemGood(systems[i]);
      SystemLookup(systems[i], "rom_overrides");
      LookupIndex(lists[i], "rom_overrides");
      FieldIndexFinds(lists[i], "rom_overrides");
    }
  }

  lemma {:induction false} RomsPrint(roms: seq<RomOverride>)
    ensures GoodEntries(FieldLists(roms, RomFields))
  {
    var lists := FieldLists(roms, RomFields);
    forall i | 0 <= i < |lists|
      ensures GoodFields(lists[i])
    {
      RomGood(roms[i]);
    }
  }

  /** Both lists of a saved file are found. */
  lemma {:induction false} OverridesText(state: Overrides)
    ensures LoadOverrides(SaveOverrides(state)) ==
            Overrides(LoadEntries(BodyText(FieldLists(state.systems, SystemFields)), [], MAX_SYSTEM_CORE_OVERRIDES,
                                  AddSystem),
                      LoadEntries(BodyText(FieldLists(state.roms, RomFields)), [], MAX_ROM_CORE_OVERRIDES, AddRom))
  {
    SystemsPrint(state.systems);
    RomsPrint(state.roms);
    assert Ident("system_overrides") && Ident("rom_overrides");
    TwoListFileBodies("system_overrides", FieldLists(state.systems, SystemFields),
                      "rom_overrides", FieldLists(state.roms, RomFields));
  }

  lemma {:induction false} SystemsReadBack(systems: seq<SystemOverride>)
    ensures LoadEntries(BodyText(FieldLists(systems, SystemFields)), [], MAX_SYSTEM_CORE_OVERRIDES, AddSystem) ==
            KeepAll([], systems, MAX_SYSTEM_CORE_OVERRIDES, RestoreSystem)
  {
    var lists := FieldLists(systems, SystemFields);
    SystemsPrint(systems);
    ListReadsBack(lists, AddSystem, MAX_SYSTEM_CORE_OVERRIDES);
    forall s: seq<SystemOverride>, i | 0 <= i < |lists|
      ensures AddSystem(s, EntryTexts(lists)[i]) == RestoreSystem(s, systems[i])
    {
      SystemRestored(systems[i]);
    }
    AddIsKeep([], systems, EntryTexts(lists), MAX_SYSTEM_CORE_OVERRIDES, AddSystem, RestoreSystem);
  }

  lemma {:induction false} RomsReadBack(roms: seq<RomOverride>)
    ensures LoadEntries(BodyText(FieldLists(roms, RomFields)), [], MAX_ROM_CORE_OVERRIDES, AddRom) ==
            KeepAll([], roms, MAX_ROM_CORE_OVERRIDES, RestoreRom)
  {
    var lists := FieldLists(roms, RomFields);
    RomsPrint(roms);
    ListReadsBack(lists, AddRom, MAX_ROM_CORE_OVERRIDES);
    forall s: seq<RomOverride>, i | 0 <= i < |lists|
      ensures AddRom(s, EntryTexts(lists)[i]) == RestoreRom(s, roms[i])
    {
      RomRestored(roms[i]);
    }
    AddIsKeep([], roms, EntryTexts(lists), MAX_ROM_CORE_OVERRIDES, AddRom, RestoreRom);
  }

  /** Any saved core overrides read back as their entries, restored one by one. */
  lemma {:induction false} OverridesReadBack(state: Overrides)
    ensures LoadOverrides(SaveOverrides(state)) ==
            Overrides(KeepAll([], state.systems, MAX_SYSTEM_CORE_OVERRIDES, RestoreSystem),
                      KeepAll([], state.roms, MAX_ROM_CORE_OVERRIDES, RestoreRom))
  {
    OverridesText(state);
    SystemsReadBack(state.systems);
    RomsReadBack(state.roms);
  }

  // ----- when they come back as they were -----

  lemma {:induction false} SystemKept(before: seq<SystemOverride>, e: SystemOverride)
    ensures RestoreSystem(before, e) == before + [e] <==> GoodSystem(e)
  {
    BackIsSame(e.systemId, 64);
    BackIsSame(e.launchProfile, 128);
    BackIsSame(e.cpuPolicy, 32);
    if RestoreSystem(before, e) == before + [e] {
      assert |RestoreSystem(before, e)| == |before| + 1;
      assert RestoreSystem(before, e)[|before|] == SystemBack(e) && (before + [e])[|before|] == e;
    }
  }

  lemma {:induction false} RomFieldsBack(e: RomOverride)
    ensures CleanRom(RomBack(e)) == e ==> RomBack(e) == e.(audioLatencyMs := RomBack(e).audioLatencyMs)
                                          && CleanRom(e) == e && e.cpuFreqKhz == 0
    ensures RomBack(e) == e.(audioLatencyMs := RomBack(e).audioLatencyMs) && CleanRom(e) == e ==>
              CleanRom(RomBack(e)) == e
  {
    BackEmpty(e.contentSuffix, 256);
    BackEmpty(e.audioDriver, 16);
    BackEmpty(e.force60fps, 16);
    BackEmpty(e.cycles, 32);
  }

  lemma {:induction false} RomHolds(e: RomOverride)
    ensures RomBack(e) == e.(audioLatencyMs := RomBack(e).audioLatencyMs) <==>
            && Holds(e.systemId, 64) && Holds(e.relativePath, TEXT_PATH_MAX) && Holds(e.launchProfile, 128)
            && Holds(e.cpuPolicy, 32) && e.cpuFreqKhz == 0 && Holds(e.contentSuffix, 256) && Holds(e.audioDriver, 16)
            && Holds(e.force60fps, 16) && Holds(e.cycles, 32)
  {
    BackIsSame(e.systemId, 64);
    BackIsSame(e.relativePath, TEXT_PATH_MAX);
    BackIsSame(e.launchProfile, 128);
    BackIsSame(e.cpuPolicy, 32);
    BackIsSame(e.contentSuffix, 256);
    BackIsSame(e.audioDriver, 16);
    BackIsSame(e.force60fps, 16);
    BackIsSame(e.cycles, 32);
  }

  lemma {:induction false} RomKept(before: seq<RomOverride>, e: RomOverride)
    ensures RestoreRom(before, e) == before + [e] <==> GoodRom(e)
  {
    RomFieldsBack(e);
    RomHolds(e);
    if RestoreRom(before, e) == before + [e] {
      assert |RestoreRom(before, e)| == |before| + 1;
      assert RestoreRom(before, e)[|before|] == CleanRom(RomBack(e)) && (before + [e])[|before|] == e;
    }
  }

  lemma {:induction false} SystemsAddBack(systems: seq<SystemOverride>)
    ensures AddsBack(systems, EntryTexts(FieldLists(systems, SystemFields)), AddSystem) <==>
            forall i :: 0 <= i < |systems| ==> GoodSystem(systems[i])
  {
    var objs := EntryTexts(FieldLists(systems, SystemFields));
    forall i | 0 <= i < |systems|
      ensures AddSystem(systems[..i], objs[i]) == systems[..i + 1] <==> GoodSystem(systems[i])
    {
      SystemRestored(systems[i]);
      SystemKept(systems[..i], systems[i]);
      OneLonger(systems, i);
    }
    if AddsBack(systems, objs, AddSystem) {
      forall i | 0 <= i < |systems|
        ensures GoodSystem(systems[i])
      {
        assert AddSystem(systems[..i], objs[i]) == systems[..i + 1];
      }
    }
  }

  lemma {:induction false} RomsAddBack(roms: seq<RomOverride>)
    ensures AddsBack(roms, EntryTexts(FieldLists(roms, RomFields)), AddRom) <==>
            forall i :: 0 <= i < |roms| ==> GoodRom(roms[i])
  {
    var objs := EntryTexts(FieldLists(roms, RomFields));
    forall i | 0 <= i < |roms|
      ensures AddRom(roms[..i], objs[i]) == roms[..i + 1] <==> GoodRom(roms[i])
    {
      RomAddsBack(roms, i);
    }
    if AddsBack(roms, objs, AddRom) {
      forall i | 0 <= i < |roms|
        ensures GoodRom(roms[i])
      {
        assert AddRom(roms[..i], objs[i]) == roms[..i + 1];
      }
    }
  }

  lemma {:induction false} RomAddsBack(roms: seq<RomOverride>, i: nat)
    requires i < |roms|
    ensures AddRom(roms[..i], EntryText(RomFields(roms[i]))) == roms[..i + 1] <==> GoodRom(roms[i])
  {
    RomRestored(roms[i]);
    RomKept(roms[..i], roms[i]);
    OneLonger(roms, i);
  }

  lemma {:induction false} OverridesAddOne()
    ensures AddsOne(AddSystem) && AddsOne(AddRom)
  {
  }

  /** Saved core overrides load back as they were, both lists, if and only if every entry is good. */
  lemma {:induction false} OverridesRoundTrip(state: Overrides)
    ensures LoadOverrides(SaveOverrides(state)) == state <==> GoodOverrides(state)
  {
    OverridesText(state);
    SystemsPrint(state.systems);
    RomsPrint(state.roms);
    OverridesAddOne();
    ListRoundTrip(state.systems, FieldLists(state.systems, SystemFields), AddSystem, MAX_SYSTEM_CORE_OVERRIDES);
    ListRoundTrip(state.roms, FieldLists(state.roms, RomFields), AddRom, MAX_ROM_CORE_OVERRIDES);
    SystemsAddBack(state.systems);
    RomsAddBack(state.roms);
  }

  // ----- the frequency -----

  function WithoutFrequencies(state: Overrides): Overrides {
    Overrides(seq(|state.systems|, i requires 0 <= i < |state.systems| => state.systems[i].(cpuFreqKhz := 0)),
              seq(|state.roms|, i requires 0 <= i < |state.roms| => state.roms[i].(cpuFreqKhz := 0)))
  }

  lemma {:induction false} SystemsWithout(state: Overrides)
    ensures KeepAll([], state.systems, MAX_SYSTEM_CORE_OVERRIDES, RestoreSystem) ==
            KeepAll([], WithoutFrequencies(state).systems, MAX_SYSTEM_CORE_OVERRIDES, RestoreSystem)
  {
    var a, b := state.systems, WithoutFrequencies(state).systems;
    forall s: seq<SystemOverride>, i | 0 <= i < |a|
      ensures RestoreSystem(s, a[i]) == RestoreSystem(s, b[i])
    {
      assert SystemBack(a[i]) == SystemBack(b[i]);
    }
    KeepsSame([], a, b, MAX_SYSTEM_CORE_OVERRIDES, RestoreSystem);
  }

  lemma {:induction false} RomsWithout(state: Overrides)
    ensures KeepAll([], state.roms, MAX_ROM_CORE_OVERRIDES, RestoreRom) ==
            KeepAll([], WithoutFrequencies(state).roms, MAX_ROM_CORE_OVERRIDES, RestoreRom)
  {
    var a, b := state.roms, WithoutFrequencies(state).roms;
    forall s: seq<RomOverride>, i | 0 <= i < |a|
      ensures RestoreRom(s, a[i]) == RestoreRom(s, b[i])
    {
      assert RomBack(a[i]) == RomBack(b[i]);
    }
    KeepsSame([], a, b, MAX_ROM_CORE_OVERRIDES, RestoreRom);
  }

  /**
   A saved frequency is lost: any overrides read back as they do without frequencies, so overrides
   that are good but for their frequencies read back without them.
   */
  lemma {:induction false} FrequenciesDropped(state: Overrides)
    ensures LoadOverrides(SaveOverrides(state)) == LoadOverrides(SaveOverrides(WithoutFrequencies(state)))
    ensures GoodOverrides(WithoutFrequencies(state)) ==>
              LoadOverrides(SaveOverrides(state)) == WithoutFrequencies(state)
  {
    var without := WithoutFrequencies(state);
    OverridesReadBack(state);
    OverridesReadBack(without);
    SystemsWithout(state);
    RomsWithout(state);
    if GoodOverrides(without) {
      OverridesRoundTrip(without);
    }
  }
}
