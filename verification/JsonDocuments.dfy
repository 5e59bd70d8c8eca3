/** The saved files as JSON. */
module JsonDocuments {
  import opened Decimal
  import opened JsonText
  import opened JsonObjects
  import opened SavedLists
  import opened StateFiles
  import opened CoreOverrides
  import opened JsonPrinted
  import G = JsonGrammar

  lemma {:induction false} BoolDenotes(b: bool)
    ensures G.Denotes(BoolValue(b).text, G.JBool(b))
  {
  }

  lemma {:induction false} StandConcat(fields: seq<Field>, ps: seq<G.Pair>, more: seq<Field>, qs: seq<G.Pair>)
    requires AllStand(fields, ps) && AllStand(more, qs)
    ensures AllStand(fields + more, ps + qs)
  {
    hide Stands;
  }

  // ----- favorites and recently played games -----

  function GamePairs(g: Game): seq<G.Pair> {
    [G.Pair("system_id", G.JString(g.systemId)), G.Pair("relative_path", G.JString(g.relativePath)),
     G.Pair("title", G.JString(g.title)), G.Pair("file_name", G.JString(g.fileName)),
     G.Pair("path", G.JString(g.path)), G.Pair("thumbnail", G.JString(g.thumbnail))]
  }

  lemma {:induction false} GameStands(g: Game)
    ensures AllStand(GameFields(g), GamePairs(g))
  {
  }

  function FavoritesJson(entries: seq<Game>): G.Json {
    G.JObject([G.Pair("version", G.JNumber(1)),
               G.Pair("favorites", G.JArray(seq(|entries|, i requires 0 <= i < |entries| =>
                                                  G.JObject(GamePairs(entries[i])))))])
  }

  /** The file of any favorites is a JSON text of exactly their values. */
  lemma {:induction false} FavoritesAreJson(entries: seq<Game>)
    ensures G.Padded(SaveFavorites(entries), FavoritesJson(entries))
  {
    hide G.Denotes;
    var lists := FieldLists(entries, GameFields);
    var vs := seq(|entries|, i requires 0 <= i < |entries| => G.JObject(GamePairs(entries[i])));
    forall i | 0 <= i < |lists|
      ensures G.Denotes(EntryText(lists[i]), vs[i])
    {
      GameStands(entries[i]);
      EntryDenotes(lists[i], GamePairs(entries[i]));
    }
    ListFileDenotes("favorites", lists, vs);
  }

  function RecentPairs(e: Recent): seq<G.Pair> {
    GamePairs(e.game)
    + [G.Pair("launch_profile", G.JString(e.launchProfile)), G.Pair("last_played_at", G.JString(e.lastPlayedAt)),
       G.Pair("resume_available", G.JBool(e.resumeAvailable))]
  }

  lemma {:induction false} RecentStands(e: Recent)
    ensures AllStand(RecentFields(e), RecentPairs(e))
  {
    GameStands(e.game);
    BoolDenotes(e.resumeAvailable);
    StandConcat(GameFields(e.game), GamePairs(e.game), PlayFields(e), RecentPairs(e)[6..]);
    assert GamePairs(e.game) + RecentPairs(e)[6..] == RecentPairs(e);
  }

  function RecentsJson(entries: seq<Recent>): G.Json {
    G.JObject([G.Pair("version", G.JNumber(1)),
               G.Pair("recents", G.JArray(seq(|entries|, i requires 0 <= i < |entries| =>
                                                G.JObject(RecentPairs(entries[i])))))])
  }

  lemma {:induction false} RecentsAreJson(entries: seq<Recent>)
    ensures G.Padded(SaveRecents(entries), RecentsJson(entries))
  {
    hide G.Denotes, AllStand;
    var lists := FieldLists(entries, RecentFields);
    var vs := seq(|entries|, i requires 0 <= i < |entries| => G.JObject(RecentPairs(entries[i])));
    forall i | 0 <= i < |lists|
      ensures G.Denotes(EntryText(lists[i]), vs[i])
    {
      RecentStands(entries[i]);
      EntryDenotes(lists[i], RecentPairs(entries[i]));
    }
    ListFileDenotes("recents", lists, vs);
  }

  // ----- the resume session -----

  function SessionJson(e: Session): G.Json {
    G.JObject([G.Pair("version", G.JNumber(1)), G.Pair("pending", G.JBool(e.pending)),
               G.Pair("reason", G.JString(e.reason))]
              + GamePairs(e.game)
              + [G.Pair("launch_profile", G.JString(e.launchProfile)), G.Pair("updated_at", G.JString(e.updatedAt)),
                 G.Pair("auto_state_load", G.JBool(e.autoStateLoad))])
  }

  lemma {:induction false} SessionEnds(e: Session)
    ensures AllStand(SessionHead(e), SessionJson(e).members[..3])
    ensures AllStand(SessionTail(e), SessionJson(e).members[9..])
  {
    hide G.Denotes;
    OneDenotes();
    BoolDenotes(e.pending);
    BoolDenotes(e.autoStateLoad);
  }

  lemma {:induction false} SessionStands(e: Session)
    ensures AllStand(SessionFields(e), SessionJson(e).members) && SessionFields(e) != []
  {
    hide AllStand, GameFields, G.Denotes;
    var ps := SessionJson(e).members;
    SessionEnds(e);
    GameStands(e.game);
    assert ps == ps[..3] + (GamePairs(e.game) + ps[9..]);
    StandConcat(GameFields(e.game), GamePairs(e.game), SessionTail(e), ps[9..]);
    StandConcat(SessionHead(e), ps[..3], GameFields(e.game) + SessionTail(e), GamePairs(e.game) + ps[9..]);
  }

  /** The file of any session. */
  lemma {:induction false} SessionIsJson(e: Session)
    ensures G.Padded(SaveSession(e), SessionJson(e))
  {
    hide AllStand, SessionFields;
    SessionStands(e);
    FileObject(SessionFields(e), SessionJson(e).members);
  }

  // ----- core overrides -----

  function Optional(key: string, s: string): seq<G.Pair> {
    if |s| > 0 then [G.Pair(key, G.JString(s))] else []
  }

  function Positive(key: string, n: int): seq<G.Pair> {
    if n >= 1 then [G.Pair(key, G.JNumber(n))] else []
  }

  lemma {:induction false} OptionalStands(key: string, s: string)
    ensures AllStand(OptionalField(key, s), Optional(key, s))
  {
  }

  lemma {:induction false} PositiveStands(key: string, n: int)
    ensures AllStand(NumberField(key, n), Positive(key, n))
  {
    if n > 0 {
      DigitsDenote(n);
    }
  }

  /** The policy, and its frequency with it. */
  function PolicyPairs(cpuPolicy: string, cpuFreqKhz: int): seq<G.Pair> {
    Optional("cpu_policy", cpuPolicy) + if |cpuPolicy| > 0 then Positive("cpu_freq_khz", cpuFreqKhz) else []
  }

  lemma {:induction false} PolicyStands(cpuPolicy: string, cpuFreqKhz: int)
    ensures AllStand(PolicyFields(cpuPolicy, cpuFreqKhz), PolicyPairs(cpuPolicy, cpuFreqKhz))
  {
    OptionalStands("cpu_policy", cpuPolicy);
    PositiveStands("cpu_freq_khz", cpuFreqKhz);
    if cpuPolicy != "" {
      StandConcat(OptionalField("cpu_policy", cpuPolicy), Optional("cpu_policy", cpuPolicy),
                  NumberField("cpu_freq_khz", cpuFreqKhz), Positive("cpu_freq_khz", cpuFreqKhz));
    }
  }

  function SystemPairs(e: SystemOverride): seq<G.Pair> {
    [G.Pair("system_id", G.JString(e.systemId))]
    + (Optional("launch_profile", e.launchProfile) + PolicyPairs(e.cpuPolicy, e.cpuFreqKhz))
  }

  lemma {:induction false} SystemStands(e: SystemOverride)
    ensures AllStand(SystemFields(e), SystemPairs(e))
  {
    hide PolicyFields, PolicyPairs, NumberField, OptionalField, Optional;
    var profile, policy := OptionalField("launch_profile", e.launchProfile), PolicyFields(e.cpuPolicy, e.cpuFreqKhz);
    var profileP, policyP := Optional("launch_profile", e.launchProfile), PolicyPairs(e.cpuPolicy, e.cpuFreqKhz);
    OptionalStands("launch_profile", e.launchProfile);
    PolicyStands(e.cpuPolicy, e.cpuFreqKhz);
    StandConcat(profile, profileP, policy, policyP);
    TextStands("system_id", e.systemId);
    StandConcat(TextField("system_id", e.systemId), [G.Pair("system_id", G.JString(e.systemId))],
                profile + policy, profileP + policyP);
  }

  lemma {:induction false} TextStands(key: string, s: string)
    ensures AllStand(TextField(key, s), [G.Pair(key, G.JString(s))])
  {
  }

  function OptionPairs(e: RomOverride): seq<G.Pair> {
    Optional("content_suffix", e.contentSuffix)
    + (Optional("audio_driver", e.audioDriver)
       + (Positive("audio_latency_ms", e.audioLatencyMs)
          + (Optional("dosbox_pure_force60fps", e.force60fps) + Optional("dosbox_pure_cycles", e.cycles))))
  }

  lemma {:induction false} OptionsStand(e: RomOverride)
    ensures AllStand(RomOptionFields(e), OptionPairs(e))
  {
    hide AllStand, OptionalField, NumberField, Optional, Positive;
    OptionalStands("content_suffix", e.contentSuffix);
    OptionalStands("audio_driver", e.audioDriver);
    PositiveStands("audio_latency_ms", e.audioLatencyMs);
    OptionalStands("dosbox_pure_force60fps", e.force60fps);
    OptionalStands("dosbox_pure_cycles", e.cycles);
    var f1, p1 := OptionalField("dosbox_pure_force60fps", e.force60fps), Optional("dosbox_pure_force60fps", e.force60fps);
    var f2, p2 := OptionalField("dosbox_pure_cycles", e.cycles), Optional("dosbox_pure_cycles", e.cycles);
    StandConcat(f1, p1, f2, p2);
    var f3, p3 := NumberField("audio_latency_ms", e.audioLatencyMs), Positive("audio_latency_ms", e.audioLatencyMs);
    StandConcat(f3, p3, f1 + f2, p1 + p2);
    var f4, p4 := OptionalField("audio_driver", e.audioDriver), Optional("audio_driver", e.audioDriver);
    StandConcat(f4, p4, f3 + (f1 + f2), p3 + (p1 + p2));
    StandConcat(OptionalField("content_suffix", e.contentSuffix), Optional("content_suffix", e.contentSuffix),
                f4 + (f3 + (f1 + f2)), p4 + (p3 + (p1 + p2)));
  }

  function RomPairs(e: RomOverride): seq<G.Pair> {
    [G.Pair("system_id", G.JString(e.systemId))]
    + ([G.Pair("relative_path", G.JString(e.relativePath))]
       + (Optional("launch_profile", e.launchProfile)
          + (PolicyPairs(e.cpuPolicy, e.cpuFreqKhz) + OptionPairs(e))))
  }

  lemma {:induction false} RomStands(e: RomOverride)
    ensures AllStand(RomFields(e), RomPairs(e))
  {
    hide AllStand, OptionalField, Optional, PolicyFields, PolicyPairs, RomOptionFields, OptionPairs, TextField;
    TextStands("system_id", e.systemId);
    TextStands("relative_path", e.relativePath);
    OptionalStands("launch_profile", e.launchProfile);
    PolicyStands(e.cpuPolicy, e.cpuFreqKhz);
    OptionsStand(e);
    var f1, p1 := PolicyFields(e.cpuPolicy, e.cpuFreqKhz), PolicyPairs(e.cpuPolicy, e.cpuFreqKhz);
    StandConcat(f1, p1, RomOptionFields(e), OptionPairs(e));
    var f2, p2 := OptionalField("launch_profile", e.launchProfile), Optional("launch_profile", e.launchProfile);
    StandConcat(f2, p2, f1 + RomOptionFields(e), p1 + OptionPairs(e));
    var f3, p3 := TextField("relative_path", e.relativePath), [G.Pair("relative_path", G.JString(e.relativePath))];
    StandConcat(f3, p3, f2 + (f1 + RomOptionFields(e)), p2 + (p1 + OptionPairs(e)));
    StandConcat(TextField("system_id", e.systemId), [G.Pair("system_id", G.JString(e.systemId))],
                f3 + (f2 + (f1 + RomOptionFields(e))), p3 + (p2 + (p1 + OptionPairs(e))));
  }

  function OverridesJson(state: Overrides): G.Json {
    G.JObject([G.Pair("version", G.JNumber(1)),
               G.Pair("system_overrides",
                      G.JArray(seq(|state.systems|, i requires 0 <= i < |state.systems| =>
                                     G.JObject(SystemPairs(state.systems[i]))))),
               G.Pair("rom_overrides",
                      G.JArray(seq(|state.roms|, i requires 0 <= i < |state.roms| =>
                                     G.JObject(RomPairs(state.roms[i])))))])
  }

  /** The file of any core overrides, the optional members of each entry left out when they are unset. */
  lemma {:induction false} OverridesAreJson(state: Overrides)
    ensures G.Padded(SaveOverrides(state), OverridesJson(state))
  {
    hide G.Denotes, AllStand, SystemFields, RomFields, SystemPairs, RomPairs;
    var systems, roms := FieldLists(state.systems, SystemFields), FieldLists(state.roms, RomFields);
    var vs := seq(|state.systems|, i requires 0 <= i < |state.systems| => G.JObject(SystemPairs(state.systems[i])));
    var ws := seq(|state.roms|, i requires 0 <= i < |state.roms| => G.JObject(RomPairs(state.roms[i])));
    forall i | 0 <= i < |systems|
      ensures G.Denotes(EntryText(systems[i]), vs[i])
    {
      SystemEntry(state.systems[i]);
    }
    forall i | 0 <= i < |roms|
      ensures G.Denotes(EntryText(roms[i]), ws[i])
    {
      RomEntry(state.roms[i]);
    }
    TwoListFileDenotes("system_overrides", systems, vs, "rom_overrides", roms, ws);
  }

  lemma {:induction false} SystemEntry(e: SystemOverride)
    ensures G.Denotes(EntryText(SystemFields(e)), G.JObject(SystemPairs(e)))
  {
    hide G.Denotes, AllStand;
    SystemStands(e);
    EntryDenotes(SystemFields(e), SystemPairs(e));
  }

  lemma {:induction false} RomEntry(e: RomOverride)
    ensures G.Denotes(EntryText(RomFields(e)), G.JObject(RomPairs(e)))
  {
    hide G.Denotes, AllStand;
    RomStands(e);
    EntryDenotes(RomFields(e), RomPairs(e));
  }
}
