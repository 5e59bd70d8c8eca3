/** Values the loaders accept. */
module SavedValues {
  // Which texts and numbers of the saved state are kept, by their characters.

  import opened Common
  import opened Strings
  import opened Decimal
  import opened JsonText
  import opened JsonReader
  import opened JsonObjects
  import opened SavedLists
  import opened StateFiles
  import opened StateStores
  import opened CoreOverrides

  /** The digits, capital and small letters of ASCII. */
  predicate Alnum(c: char) {
    var n := c as int;
    48 <= n < 58 || 65 <= n < 91 || 97 <= n < 123
  }

  lemma {:induction false} AlphaNumericMeans(c: char)
    ensures AlphaNumeric(c) <==> Alnum(c)
  {
  }

  lemma {:induction false} SystemIdMeans(s: string)
    ensures ValidSystemId(s) <==> |s| > 0 && forall c :: c in s ==> Alnum(c) || c == '_' || c == '-'
  {
    forall c
      ensures AlphaNumeric(c) <==> Alnum(c)
    {
      AlphaNumericMeans(c);
    }
  }

  lemma {:induction false} LaunchProfileMeans(s: string)
    ensures ValidLaunchProfile(s) <==>
            |s| > 0 && forall c :: c in s ==> Alnum(c) || c == '_' || c == '-' || c == ':' || c == '.'
  {
    forall c
      ensures AlphaNumeric(c) <==> Alnum(c)
    {
      AlphaNumericMeans(c);
    }
  }

  lemma {:induction false} ContainsMeans(s: string, p: string)
    ensures Contains(s, p) <==> exists before, after :: s == before + p + after
  {
    if Contains(s, p) {
      var i :| 0 <= i <= |s| && p <= s[i..];
      assert s == s[..i] + p + s[i + |p|..];
    }
    if before, after :| s == before + p + after {
      assert s[|before|..] == p + after;
    }
  }

  /** An accepted relative path is below its directory: it has no component "..". */
  lemma {:induction false} AcceptedStaysBelow(s: string)
    requires ValidRelativePath(s)
    ensures s != "" && s[0] != '/' && ".." !in Split(s, '/')
  {
    SplitHolds(s, '/', "..");
    if i: nat :| PartAt(s, i, "..", '/') {
      assert s[i..i + 2] == ".." && s[i] == s[i..i + 2][0] && s[i + 1] == s[i..i + 2][1];
      if i > 0 {
        assert s[i - 1..i + 2] == "/..";
        assert s == s[..i - 1] + s[i - 1..i + 2] + s[i + 2..];
        ContainsMeans(s, "/..");
      } else if |s| > 2 {
        assert s[0..3] == "../";
        assert s == "" + s[0..3] + s[3..];
        ContainsMeans(s, "../");
      }
    }
  }

  /** A path is refused only for being empty or absolute, or for two dots at a slash or alone. */
  lemma {:induction false} RefusedHasDots(s: string)
    ensures !ValidRelativePath(s) <==>
            || s == "" || s[0] == '/' || s == ".."
            || exists before, after :: s == before + "../" + after || s == before + "/.." + after
  {
    ContainsMeans(s, "../");
    ContainsMeans(s, "/..");
    if before, after :| s == before + "../" + after || s == before + "/.." + after {
      assert Contains(s, "../") || Contains(s, "/..");
    }
  }

  /** A content suffix is a "#", then a relative path that stays below, without "#" and control characters. */
  lemma {:induction false} ContentSuffixMeans(s: string)
    ensures ValidContentSuffix(s) <==>
            && |s| > 1 && s[0] == '#' && ValidRelativePath(s[1..])
            && forall c :: c in s[1..] ==> c != '#' && c as int >= 32 && c as int != 127
  {
    if |s| > 1 {
      assert s[1..][0] == s[1];
      forall i | 1 <= i < |s|
        ensures s[1..][i - 1] == s[i] && s[i] in s[1..]
      {
      }
      forall c | c in s[1..]
        ensures exists i :: 1 <= i < |s| && s[i] == c
      {
        var j :| 0 <= j < |s[1..]| && s[1..][j] == c;
        assert s[j + 1] == c;
      }
    }
  }

  /** The names that the options may have. */
  lemma {:induction false} OptionNames(s: string)
    ensures ValidCpuPolicy(s) <==>
            || s == "interactive" || s == "performance" || s == "ondemand" || s == "schedutil" || s == "conservative"
    ensures ValidAudioDriver(s) <==> s == "oss" || s == "alsa" || s == "alsathread" || s == "mmf_ao"
    ensures ValidDosboxBool(s) <==> s == "true" || s == "false"
    ensures s == "auto" || s == "max" ==> ValidDosboxCycles(s)
  {
  }

  /** A number of cycles is accepted from 1 to a million. */
  lemma {:induction false} CyclesMeans(n: nat)
    ensures ValidDosboxCycles(Digits(n)) <==> 1 <= n <= 1000000
  {
    DigitsAreDigits(n);
    DigitsParse(n, "");
    assert Digits(n) + "" == Digits(n);
    assert Digit(Digits(n)[0]);
    assert SkipSpace(Digits(n)) == Digits(n);
    assert "auto"[0] == 'a' && "max"[0] == 'm';
  }

  /** A latency is kept from 1 to 1000 milliseconds. */
  lemma {:induction false} LatencyMeans(e: RomOverride)
    ensures CleanRom(e).audioLatencyMs ==
            if 1 <= e.audioLatencyMs && e.audioLatencyMs < 1001 then e.audioLatencyMs else 0
  {
  }

  // ----- what comes out of any file -----

  ghost predicate SafeGame(g: Game) {
    && |g.systemId| > 0 && (forall c :: c in g.systemId ==> Alnum(c) || c == '_' || c == '-')
    && g.relativePath != "" && g.relativePath[0] != '/' && ".." !in Split(g.relativePath, '/')
  }

  lemma {:induction false} AcceptableIsSafe(g: Game)
    requires Acceptable(g)
    ensures SafeGame(g) && SafeGame(Titled(g))
  {
    SystemIdMeans(g.systemId);
    AcceptedStaysBelow(g.relativePath);
  }

  /** Whatever the file contains, every loaded favorite names a game below its system's directory. */
  lemma {:induction false} LoadedFavoritesSafe(body: string, sofar: seq<Game>)
    requires forall g :: g in sofar ==> SafeGame(g)
    ensures forall g :: g in LoadEntries(body, sofar, MAX_FAVORITES, AddFavorite) ==> SafeGame(g)
    decreases |body|
  {
    if |sofar| < MAX_FAVORITES && NextObject(body).Some? {
      var r := NextObject(body).value;
      if Acceptable(ParseGame(r.0)) {
        AcceptableIsSafe(ParseGame(r.0));
      }
      LoadedFavoritesSafe(r.1, AddFavorite(sofar, r.0));
    }
  }

  // ----- ordinary tables -----

  /** Printable text that fits a buffer of `capacity` bytes with its terminator. */
  ghost predicate Printable(s: string, capacity: nat) {
    |s| + 1 <= capacity && forall c :: c in s ==> 32 <= c as int < 256
  }

  ghost predicate OrdinaryGame(g: Game) {
    && |g.systemId| > 0 && (forall c :: c in g.systemId ==> Alnum(c) || c == '_' || c == '-')
    && g.relativePath != "" && g.relativePath[0] != '/' && g.relativePath != ".."
    && (forall before, after :: g.relativePath != before + "../" + after && g.relativePath != before + "/.." + after)
    && Printable(g.systemId, 64) && Printable(g.relativePath, 1024) && Printable(g.title, 256)
    && Printable(g.fileName, 256) && Printable(g.path, 1024) && Printable(g.thumbnail, 1024) && g.title != ""
  }

  lemma {:induction false} PrintableHolds(s: string, capacity: nat)
    requires Printable(s, capacity)
    ensures Holds(s, capacity)
  {
    forall i | 0 <= i < |s|
      ensures PlainChar(s[i])
    {
      assert s[i] in s;
    }
  }

  lemma {:induction false} OrdinaryIsGood(g: Game)
    requires OrdinaryGame(g)
    ensures GoodGame(g)
  {
    SystemIdMeans(g.systemId);
    RefusedHasDots(g.relativePath);
    PrintableHolds(g.systemId, 64);
    PrintableHolds(g.relativePath, 1024);
    PrintableHolds(g.title, 256);
    PrintableHolds(g.fileName, 256);
    PrintableHolds(g.path, 1024);
    PrintableHolds(g.thumbnail, 1024);
  }

  /** Up to 2048 different ordinary games are saved and loaded as they are. */
  lemma {:induction false} OrdinaryFavorites(entries: seq<Game>)
    requires |entries| <= 2048 && forall i :: 0 <= i < |entries| ==> OrdinaryGame(entries[i])
    requires forall i, j :: 0 <= i < j < |entries| ==>
               entries[i].systemId != entries[j].systemId || entries[i].relativePath != entries[j].relativePath
    ensures LoadFavorites(SaveFavorites(entries)) == Some(entries)
  {
    forall i | 0 <= i < |entries|
      ensures GoodGame(entries[i])
    {
      OrdinaryIsGood(entries[i]);
    }
    FavoritesRoundTrip(entries);
  }

  /** Up to 256 different ordinary games with a launch profile, most recent first, are saved and loaded as they are. */
  lemma {:induction false} OrdinaryRecents(entries: seq<Recent>)
    requires |entries| <= 256
    requires forall i :: 0 <= i < |entries| ==>
               && OrdinaryGame(entries[i].game) && Printable(entries[i].lastPlayedAt, 64)
               && Printable(entries[i].launchProfile, 128) && entries[i].launchProfile != ""
               && (forall c :: c in entries[i].launchProfile ==>
                     Alnum(c) || c == '_' || c == '-' || c == ':' || c == '.')
    requires forall i, j :: 0 <= i < j < |entries| ==>
               || entries[i].game.systemId != entries[j].game.systemId
               || entries[i].game.relativePath != entries[j].game.relativePath
    ensures LoadRecents(SaveRecents(entries)) == Some(entries)
  {
    forall i | 0 <= i < |entries|
      ensures GoodRecent(entries[i])
    {
      OrdinaryIsGood(entries[i].game);
      LaunchProfileMeans(entries[i].launchProfile);
      PrintableHolds(entries[i].lastPlayedAt, 64);
      PrintableHolds(entries[i].launchProfile, 128);
    }
    RecentsRoundTrip(entries);
  }

  // ----- ordinary core overrides -----

  /** Any of the names that the launcher knows, or none. */
  ghost predicate OrdinaryChoice(launchProfile: string, cpuPolicy: string) {
    && Printable(launchProfile, 128)
    && (forall c :: c in launchProfile ==> Alnum(c) || c == '_' || c == '-' || c == ':' || c == '.')
    && cpuPolicy in ["", "interactive", "performance", "ondemand", "schedutil", "conservative"]
  }

  ghost predicate OrdinarySystemId(s: string) {
    |s| > 0 && Printable(s, 64) && forall c :: c in s ==> Alnum(c) || c == '_' || c == '-'
  }

  lemma {:induction false} ChoiceIsValid(launchProfile: string, cpuPolicy: string)
    requires OrdinaryChoice(launchProfile, cpuPolicy)
    ensures ValidChoice(launchProfile, cpuPolicy) && Holds(launchProfile, 128) && Holds(cpuPolicy, 32)
  {
    LaunchProfileMeans(launchProfile);
    OptionNames(cpuPolicy);
    PrintableHolds(launchProfile, 128);
    OptionHolds(cpuPolicy);
  }

  lemma {:induction false} OptionHolds(s: string)
    requires s in ["", "interactive", "performance", "ondemand", "schedutil", "conservative"]
    ensures Holds(s, 32)
  {
    assert |s| <= 12;
    PrintableHolds(s, 32);
  }

  ghost predicate OrdinaryRom(e: RomOverride) {
    && OrdinarySystemId(e.systemId) && OrdinaryChoice(e.launchProfile, e.cpuPolicy)
    && e.relativePath != "" && e.relativePath[0] != '/' && e.relativePath != ".." && Printable(e.relativePath, 1024)
    && (forall before, after :: e.relativePath != before + "../" + after && e.relativePath != before + "/.." + after)
    && e.contentSuffix == "" && e.cycles in ["", "auto", "max"]
    && e.audioDriver in ["", "oss", "alsa", "alsathread", "mmf_ao"] && e.force60fps in ["", "true", "false"]
    && 0 <= e.audioLatencyMs <= 1000
  }

  lemma {:induction false} OptionsAreGood(e: RomOverride)
    requires OrdinaryRom(e)
    ensures Holds(e.audioDriver, 16) && (e.audioDriver == "" || ValidAudioDriver(e.audioDriver))
    ensures Holds(e.force60fps, 16) && (e.force60fps == "" || ValidDosboxBool(e.force60fps))
    ensures Holds(e.cycles, 32) && (e.cycles == "" || ValidDosboxCycles(e.cycles))
    ensures Holds(e.contentSuffix, 256)
  {
    hide OrdinarySystemId, OrdinaryChoice;
    OptionNames(e.audioDriver);
    OptionNames(e.force60fps);
    OptionNames(e.cycles);
    ShortHolds(e.audioDriver, 16);
    ShortHolds(e.force60fps, 16);
    ShortHolds(e.cycles, 32);
    ShortHolds(e.contentSuffix, 256);
  }

  lemma {:induction false} ShortHolds(s: string, capacity: nat)
    requires s in ["", "oss", "alsa", "alsathread", "mmf_ao", "true", "false", "auto", "max"] && capacity >= 16
    ensures Holds(s, capacity)
  {
    assert |s| <= 10;
    PrintableHolds(s, capacity);
  }

  lemma {:induction false} RomIsGood(e: RomOverride)
    requires OrdinaryRom(e)
    ensures GoodRom(e.(cpuFreqKhz := 0))
  {
    hide Holds, ValidAudioDriver, ValidDosboxBool, ValidDosboxCycles, ValidContentSuffix, ValidSystemId,
      ValidRelativePath, ValidChoice, Printable, OrdinaryChoice;
    SystemIdMeans(e.systemId);
    PrintableHolds(e.systemId, 64);
    ChoiceIsValid(e.launchProfile, e.cpuPolicy);
    RefusedHasDots(e.relativePath);
    PrintableHolds(e.relativePath, 1024);
    OptionsAreGood(e);
  }

  /** Ordinary overrides are saved and loaded as they are, but for the frequencies. */
  lemma {:induction false} OrdinaryOverrides(state: Overrides)
    requires |state.systems| <= 256 && |state.roms| <= 1024
    requires forall e :: e in state.systems ==> OrdinarySystemId(e.systemId) && OrdinaryChoice(e.launchProfile, e.cpuPolicy)
    requires forall e :: e in state.roms ==> OrdinaryRom(e)
    ensures var loaded := LoadOverrides(SaveOverrides(state));
            && |loaded.systems| == |state.systems| && |loaded.roms| == |state.roms|
            && (forall i :: 0 <= i < |state.systems| ==> loaded.systems[i] == state.systems[i].(cpuFreqKhz := 0))
            && (forall i :: 0 <= i < |state.roms| ==> loaded.roms[i] == state.roms[i].(cpuFreqKhz := 0))
  {
    hide OrdinarySystemId, OrdinaryChoice, OrdinaryRom, GoodSystem, GoodRom, LoadOverrides, SaveOverrides;
    forall i | 0 <= i < |state.systems|
      ensures GoodSystem(state.systems[i].(cpuFreqKhz := 0))
    {
      SystemIsGood(state.systems[i]);
    }
    forall i | 0 <= i < |state.roms|
      ensures GoodRom(state.roms[i].(cpuFreqKhz := 0))
    {
      assert state.roms[i] in state.roms;
      RomIsGood(state.roms[i]);
    }
    FrequenciesDropped(state);
  }

  lemma {:induction false} SystemIsGood(e: SystemOverride)
    requires OrdinarySystemId(e.systemId) && OrdinaryChoice(e.launchProfile, e.cpuPolicy)
    ensures GoodSystem(e.(cpuFreqKhz := 0))
  {
    SystemIdMeans(e.systemId);
    PrintableHolds(e.systemId, 64);
    ChoiceIsValid(e.launchProfile, e.cpuPolicy);
  }

  // ----- single values -----

  /** The entry of a favorite that is set: the ROM's texts where they fit, its path as the title where it has none. */
  lemma {:induction false} FavoriteOfMeans(systemId: string, rom: Rom)
    ensures var g := FavoriteOf(systemId, rom);
            && g.systemId == (if |systemId| >= 64 then "" else systemId)
            && g.relativePath == (if |rom.relativePath| >= 1024 then "" else rom.relativePath)
            && g.title == (if rom.title == "" && |rom.relativePath| <= 255 then rom.relativePath
                           else if |rom.title| <= 255 then rom.title else "")
            && g.fileName == (if |rom.fileName| >= 256 then "" else rom.fileName)
            && g.path == (if |rom.path| >= 1024 then "" else rom.path)
            && g.thumbnail == (if |rom.thumbnail| >= 1024 then "" else rom.thumbnail)
  {
  }

  /** White space of the C locale. */
  lemma {:induction false} SpaceMeans(c: char)
    ensures Space(c) <==> 9 <= c as int <= 13 || c as int == 32
  {
  }

  /** What is read of a key whose value is no string: nothing of null, the buffer as it was of anything else. */
  lemma {:induction false} NoString(t: string, key: string, capacity: nat, prior: string, rest: string)
    requires capacity > 0
    ensures FindKey(t, key) == None ==> GetString(t, key, capacity, prior) == ""
    ensures FindKey(t, key) == Some("null" + rest) ==> GetString(t, key, capacity, prior) == ""
    ensures rest != "" && rest[0] != '"' && rest[0] != 'n' && FindKey(t, key) == Some(rest) ==>
              GetString(t, key, capacity, prior) == prior
    ensures FindKey(t, key) == Some("\"" + rest) && '"' !in rest ==> GetString(t, key, capacity, prior) == ""
  {
    if FindKey(t, key) == Some("null" + rest) {
      assert "null" <= "null" + rest;
    }
    if FindKey(t, key) == Some("\"" + rest) && '"' !in rest {
      assert ("\"" + rest)[0] == '"' && ("\"" + rest)[1..] == rest;
      Unterminated(rest);
    }
  }

  lemma {:induction false} Unterminated(t: string)
    requires '"' !in t
    ensures DecodeBody(t) == None
    decreases |t|
  {
    if t != "" {
      if t[0] == '\\' && |t| > 1 {
        Unterminated(t[2..]);
      } else {
        Unterminated(t[1..]);
      }
    }
  }

  /** Numbers may have a sign, or white space in front. */
  lemma {:induction false} SignedNumbers(n: nat, tail: string)
    requires tail == "" || !(48 <= tail[0] as int <= 57)
    ensures ParseLong("+" + (Digits(n) + tail)) == n && ParseLong("-" + (Digits(n) + tail)) == 0 - n
    ensures ParseLong("\t" + (Digits(n) + tail)) == n
  {
    hide ParseDigits;
    var text := Digits(n) + tail;
    DigitsParse(n, tail);
    DigitsAreDigits(n);
    assert text[0] == Digits(n)[0] && Digit(text[0]);
    assert SkipSpace(text) == text;
    assert ("+" + text)[1..] == text && ("-" + text)[1..] == text && ("\t" + text)[1..] == text;
  }
}
