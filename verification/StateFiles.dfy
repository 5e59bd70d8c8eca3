/**
 The frontend's saved state: favorites, recently played games and the resume session. For each there
 are the fields an entry is written with, the parsing of one object, the loader's own filters, and
 the theorem that loading what was saved gives the same state back.
 */
module StateFiles {
  import opened Common
  import opened Decimal
  import opened JsonText
  import opened JsonReader
  import opened JsonObjects
  import opened SavedLists

  const MAX_FAVORITES := 2048
  const MAX_RECENTS := 256
  const MAX_SYSTEM_CORE_OVERRIDES := 256
  const MAX_ROM_CORE_OVERRIDES := 1024
  const TEXT_PATH_MAX := 1024

  // ----- validity of identifiers -----

  predicate AlphaNumeric(c: char) {
    'a' <= c <= 'z' || 'A' <= c <= 'Z' || '0' <= c <= '9'
  }

  predicate ValidSystemId(s: string) {
    s != "" && forall i :: 0 <= i < |s| ==> AlphaNumeric(s[i]) || s[i] in {'_', '-'}
  }

  predicate ValidLaunchProfile(s: string) {
    s != "" && forall i :: 0 <= i < |s| ==> AlphaNumeric(s[i]) || s[i] in {'_', '-', ':', '.'}
  }

  predicate ValidCpuPolicy(s: string) {
    s in {"interactive", "performance", "ondemand", "schedutil", "conservative"}
  }

  predicate Contains(s: string, p: string) {
    exists i :: 0 <= i <= |s| && p <= s[i..]
  }

  predicate Wanders(s: string) {
    Contains(s, "../") || Contains(s, "/..") || s == ".."
  }

  predicate ValidRelativePath(s: string) {
    s != "" && s[0] != '/' && !Wanders(s)
  }

  predicate ValidContentSuffix(s: string) {
    && |s| > 1 && s[0] == '#' && s[1] != '/' && !Wanders(s[1..])
    && forall i :: 1 <= i < |s| ==> (s[i] as int) >= 0x20 && s[i] as int != 0x7f && s[i] != '#'
  }

  predicate ValidAudioDriver(s: string) {
    s in {"oss", "alsa", "alsathread", "mmf_ao"}
  }

  predicate ValidDosboxBool(s: string) {
    s in {"true", "false"}
  }

  /** Digits, possibly after white space and a sign, as `strtol` accepts them to the end. */
  predicate ValidDosboxCycles(s: string) {
    s in {"auto", "max"} || (s != "" && WholeNumber(s) && 0 < ParseLong(s) <= 1000000)
  }

  predicate WholeNumber(s: string) {
    var u := SkipSpace(s);
    var v := if u != "" && u[0] in {'-', '+'} then u[1..] else u;
    v != "" && forall i :: 0 <= i < |v| ==> Digit(v[i])
  }

  // ----- reading fields of one entry -----

  /** What is read of a string field of a printed entry. */
  lemma {:induction false} ReadField(fields: seq<Field>, key: string, capacity: nat)
    requires GoodFields(fields) && Ident(key) && capacity > 0
    requires Lookup(fields, key).Some? ==> Lookup(fields, key).value.Text?
    ensures GetString(EntryText(fields), key, capacity, "") == Back(TextOf(fields, key), capacity)
  {
    GetStringIsLookup(fields, "{ ", ", ", " }", key, capacity, "");
  }

  function TextField(key: string, s: string): seq<Field> {
    [Field(key, Text(s))]
  }

  /** A field that is left out when it is empty. */
  function OptionalField(key: string, s: string): seq<Field> {
    if s == "" then [] else TextField(key, s)
  }

  /** copy_string: the text if it fits, else "". */
  function CopyString(s: string, capacity: nat): string {
    if |s| < capacity then s else ""
  }

  function TitleFor(title: string, fileName: string, relativePath: string): string {
    if title != "" then title else CopyString(if fileName != "" then fileName else relativePath, 256)
  }

  /** A ROM entry as the frontend holds it. */
  datatype Rom = Rom(
    id: string,
    title: string,
    fileName: string,
    relativePath: string,
    path: string,
    thumbnail: string)

  // ----- the game of an entry -----

  /** What every saved entry says about its game. */
  datatype Game = Game(
    systemId: string,
    relativePath: string,
    title: string,
    fileName: string,
    path: string,
    thumbnail: string)

  function GameFields(g: Game): seq<Field> {
    [Field("system_id", Text(g.systemId)), Field("relative_path", Text(g.relativePath)), Field("title", Text(g.title)),
     Field("file_name", Text(g.fileName)), Field("path", Text(g.path)), Field("thumbnail", Text(g.thumbnail))]
  }

  function ParseGame(obj: string): Game {
    Game(GetString(obj, "system_id", 64, ""), GetString(obj, "relative_path", TEXT_PATH_MAX, ""),
         GetString(obj, "title", 256, ""), GetString(obj, "file_name", 256, ""),
         GetString(obj, "path", TEXT_PATH_MAX, ""), GetString(obj, "thumbnail", TEXT_PATH_MAX, ""))
  }

  /** A game as its texts come back. */
  function GameBack(g: Game): Game {
    Game(Back(g.systemId, 64), Back(g.relativePath, 1024), Back(g.title, 256), Back(g.fileName, 256),
         Back(g.path, 1024), Back(g.thumbnail, 1024))
  }

  /** The loaders of the lists fill in a missing title. */
  function Titled(g: Game): Game {
    g.(title := TitleFor(g.title, g.fileName, g.relativePath))
  }

  /** What the loaders of the lists demand of an entry. */
  predicate Acceptable(g: Game) {
    ValidSystemId(g.systemId) && ValidRelativePath(g.relativePath)
  }

  predicate SameGame(g: Game, systemId: string, relativePath: string) {
    g.systemId == systemId && g.relativePath == relativePath
  }

  predicate HoldsGame(g: Game) {
    && Holds(g.systemId, 64) && Holds(g.relativePath, 1024) && Holds(g.title, 256)
    && Holds(g.fileName, 256) && Holds(g.path, 1024) && Holds(g.thumbnail, 1024)
  }

  /** A title is missing only when there is nothing short enough to take its place. */
  predicate GoodGame(g: Game) {
    && Acceptable(g) && HoldsGame(g)
    && (g.title == "" ==> g.fileName == "" && |g.relativePath| >= 256)
  }

  lemma {:induction false} GameBackIsSame(g: Game)
    ensures GameBack(g) == g <==> HoldsGame(g)
  {
    BackIsSame(g.systemId, 64);
    BackIsSame(g.relativePath, TEXT_PATH_MAX);
    BackIsSame(g.title, 256);
    BackIsSame(g.fileName, 256);
    BackIsSame(g.path, TEXT_PATH_MAX);
    BackIsSame(g.thumbnail, TEXT_PATH_MAX);
  }

  lemma {:induction false} BackEmpty(s: string, capacity: nat)
    requires capacity > 1
    ensures Back(s, capacity) == "" <==> s == ""
  {
    PlainReadsBack(s);
  }

  /** A loader gives a game back as it was exactly if the game is good. */
  lemma {:induction false} GameComesBack(g: Game)
    ensures Acceptable(GameBack(g)) && Titled(GameBack(g)) == g <==> GoodGame(g)
  {
    var back := GameBack(g);
    GameBackIsSame(g);
    BackEmpty(g.title, 256);
    BackEmpty(g.fileName, 256);
    if Titled(back) == g {
      assert back.systemId == g.systemId && back.relativePath == g.relativePath && back.fileName == g.fileName;
      assert back.path == g.path && back.thumbnail == g.thumbnail;
      assert back.title == g.title;
      assert back == g;
    }
  }

  /** The keys of the entries, and what makes them different from each other. */
  lemma {:induction false} KeyFacts()
    ensures Ident("system_id") && Ident("relative_path") && Ident("title") && Ident("file_name")
    ensures Ident("path") && Ident("thumbnail") && Ident("launch_profile") && Ident("last_played_at")
  {
  }

  /** Keys of the same length. */
  lemma {:induction false} KeysDiffer()
    ensures "system_id" != "file_name" && "system_id" != "thumbnail" && "file_name" != "thumbnail"
    ensures "version" != "pending"
  {
    assert "system_id"[0] == 's' && "file_name"[0] == 'f' && "thumbnail"[0] == 't';
    assert "version"[0] == 'v' && "pending"[0] == 'p';
  }

  lemma {:induction false} GameFieldsGood(g: Game)
    ensures GoodFields(GameFields(g))
  {
    KeyFacts();
  }

  predicate TextAt(fields: seq<Field>, key: string, s: string) {
    Ident(key) && Lookup(fields, key) == Some(Text(s))
  }

  /** The fields say this of the game. */
  predicate GameAt(fields: seq<Field>, g: Game) {
    && TextAt(fields, "system_id", g.systemId) && TextAt(fields, "relative_path", g.relativePath)
    && TextAt(fields, "title", g.title) && TextAt(fields, "file_name", g.fileName)
    && TextAt(fields, "path", g.path) && TextAt(fields, "thumbnail", g.thumbnail)
  }

  lemma {:induction false} GameKeys(g: Game)
    ensures GameAt(GameFields(g), g)
  {
    KeyFacts();
    KeysDiffer();
    var f := GameFields(g);
    LookupAt(f, 0, "system_id");
    LookupAt(f, 1, "relative_path");
    LookupAt(f, 2, "title");
    LookupAt(f, 3, "file_name");
    LookupAt(f, 4, "path");
    LookupAt(f, 5, "thumbnail");
  }

  /** Keys that are not among those of a game. */
  predicate OtherKey(key: string) {
    key !in {"system_id", "relative_path", "title", "file_name", "path", "thumbnail"}
  }

  lemma {:induction false} GameLacks(g: Game, key: string)
    requires OtherKey(key)
    ensures Lookup(GameFields(g), key) == None
  {
    var f := GameFields(g);
    if FieldIndex(f, key) < |f| {
      FieldIndexFinds(f, key);
    }
    LookupIndex(f, key);
  }

  lemma {:induction false} FieldIndexFinds(fields: seq<Field>, key: string)
    ensures FieldIndex(fields, key) <= |fields|
    ensures FieldIndex(fields, key) < |fields| ==> fields[FieldIndex(fields, key)].key == key
    decreases |fields|
  {
    if fields != [] {
      FieldIndexFinds(fields[1..], key);
    }
  }

  /** The game's fields in front of others. */
  lemma {:induction false} GameFirst(g: Game, more: seq<Field>)
    ensures GameAt(GameFields(g) + more, g)
  {
    GameKeys(g);
    LookupConcat(GameFields(g), more, "system_id");
    LookupConcat(GameFields(g), more, "relative_path");
    LookupConcat(GameFields(g), more, "title");
    LookupConcat(GameFields(g), more, "file_name");
    LookupConcat(GameFields(g), more, "path");
    LookupConcat(GameFields(g), more, "thumbnail");
  }

  lemma {:induction false} GameReadsBack(fields: seq<Field>, g: Game)
    requires GoodFields(fields) && GameAt(fields, g)
    ensures ParseGame(EntryText(fields)) == GameBack(g)
  {
    ReadField(fields, "system_id", 64);
    ReadField(fields, "relative_path", TEXT_PATH_MAX);
    ReadField(fields, "title", 256);
    ReadField(fields, "file_name", 256);
    ReadField(fields, "path", TEXT_PATH_MAX);
    ReadField(fields, "thumbnail", TEXT_PATH_MAX);
  }

  // ----- favorites -----

  /** `find_favorite(...) >= 0` */
  predicate HasFavorite(entries: seq<Game>, systemId: string, relativePath: string) {
    exists i :: 0 <= i < |entries| && SameGame(entries[i], systemId, relativePath)
  }

  function KeepFavorite(entries: seq<Game>, g: Game): seq<Game> {
    if Acceptable(g) && !HasFavorite(entries, g.systemId, g.relativePath) then entries + [Titled(g)] else entries
  }

  /** One turn of the loop of `load_favorites`. */
  function AddFavorite(entries: seq<Game>, obj: string): seq<Game> {
    KeepFavorite(entries, ParseGame(obj))
  }

  /** A saved favorite as the loader keeps it. */
  function RestoreFavorite(entries: seq<Game>, g: Game): seq<Game> {
    KeepFavorite(entries, GameBack(g))
  }

  ghost predicate DistinctFavorites(entries: seq<Game>) {
    forall i, j :: 0 <= i < j < |entries| ==> !SameGame(entries[i], entries[j].systemId, entries[j].relativePath)
  }

  /** What the program itself keeps true of its favorites table. */
  ghost predicate FavoriteTable(entries: seq<Game>) {
    |entries| <= 2048 && DistinctFavorites(entries)
  }

  /** A table all of whose texts fit and survive. */
  ghost predicate GoodFavorites(entries: seq<Game>) {
    FavoriteTable(entries) && forall i :: 0 <= i < |entries| ==> GoodGame(entries[i])
  }

  function SaveFavorites(entries: seq<Game>): string {
    ListFile("favorites", FieldLists(entries, GameFields))
  }

  function LoadFavorites(text: string): Option<seq<Game>> {
    match FindContainer(text, "favorites", '[', ']')
    case None => None
    case Some(body) => Some(LoadEntries(body, [], MAX_FAVORITES, AddFavorite))
  }

  lemma {:induction false} FavoritesPrint(entries: seq<Game>)
    ensures GoodEntries(FieldLists(entries, GameFields))
  {
    forall i | 0 <= i < |entries|
      ensures GoodFields(FieldLists(entries, GameFields)[i])
    {
      GameFieldsGood(entries[i]);
    }
  }

  lemma {:induction false} FavoriteRestored(g: Game)
    ensures ParseGame(EntryText(GameFields(g))) == GameBack(g)
  {
    GameFieldsGood(g);
    GameKeys(g);
    GameReadsBack(GameFields(g), g);
  }

  lemma {:induction false} FavoritesText(entries: seq<Game>)
    ensures LoadFavorites(SaveFavorites(entries)) ==
            Some(LoadEntries(BodyText(FieldLists(entries, GameFields)), [], MAX_FAVORITES, AddFavorite))
  {
    FavoritesPrint(entries);
    ListFileBody("favorites", FieldLists(entries, GameFields));
  }

  /** Any saved table of favorites reads back as its entries, restored one by one. */
  lemma {:induction false} FavoritesReadBack(entries: seq<Game>)
    ensures LoadFavorites(SaveFavorites(entries)) == Some(KeepAll([], entries, MAX_FAVORITES, RestoreFavorite))
  {
    var lists := FieldLists(entries, GameFields);
    FavoritesText(entries);
    FavoritesPrint(entries);
    ListReadsBack(lists, AddFavorite, MAX_FAVORITES);
    forall s: seq<Game>, i | 0 <= i < |lists|
      ensures AddFavorite(s, EntryTexts(lists)[i]) == RestoreFavorite(s, entries[i])
    {
      FavoriteRestored(entries[i]);
    }
    AddIsKeep([], entries, EntryTexts(lists), MAX_FAVORITES, AddFavorite, RestoreFavorite);
  }

  /** What adding the printed entry number `i` back takes. */
  lemma {:induction false} FavoriteAddsBack(entries: seq<Game>, i: nat)
    requires i < |entries|
    ensures AddFavorite(entries[..i], EntryText(GameFields(entries[i]))) == entries[..i + 1] <==>
            GoodGame(entries[i]) && !HasFavorite(entries[..i], entries[i].systemId, entries[i].relativePath)
  {
    var g := entries[i];
    FavoriteRestored(g);
    GameComesBack(g);
    OneLonger(entries, i);
    assert Titled(GameBack(g)).systemId == GameBack(g).systemId;
    if KeepFavorite(entries[..i], GameBack(g)) == entries[..i + 1] {
      assert |KeepFavorite(entries[..i], GameBack(g))| == i + 1;
      assert Titled(GameBack(g)) == entries[..i + 1][i] == g;
    }
  }

  lemma {:induction false} DistinctMeansNew(entries: seq<Game>)
    ensures DistinctFavorites(entries) <==>
            forall i :: 0 <= i < |entries| ==>
              !HasFavorite(entries[..i], entries[i].systemId, entries[i].relativePath)
  {
    if !DistinctFavorites(entries) {
      var i, j :| 0 <= i < j < |entries| && SameGame(entries[i], entries[j].systemId, entries[j].relativePath);
      assert SameGame(entries[..j][i], entries[j].systemId, entries[j].relativePath);
    }
  }

  /** All entries are added back exactly for a good table. */
  lemma {:induction false} FavoritesAddBack(entries: seq<Game>)
    ensures |entries| <= MAX_FAVORITES && AddsBack(entries, EntryTexts(FieldLists(entries, GameFields)), AddFavorite)
            <==> GoodFavorites(entries)
  {
    var objs := EntryTexts(FieldLists(entries, GameFields));
    DistinctMeansNew(entries);
    if |entries| <= MAX_FAVORITES && AddsBack(entries, objs, AddFavorite) {
      forall i | 0 <= i < |entries|
        ensures GoodGame(entries[i]) && !HasFavorite(entries[..i], entries[i].systemId, entries[i].relativePath)
      {
        FavoriteAddsBack(entries, i);
        assert AddFavorite(entries[..i], objs[i]) == entries[..i + 1];
      }
    }
    if GoodFavorites(entries) {
      forall i | 0 <= i < |entries|
        ensures AddFavorite(entries[..i], objs[i]) == entries[..i + 1]
      {
        FavoriteAddsBack(entries, i);
        assert !HasFavorite(entries[..i], entries[i].systemId, entries[i].relativePath);
      }
    }
  }

  lemma {:induction false} FavoritesAddOne()
    ensures AddsOne(AddFavorite)
  {
  }

  /** A saved table of favorites loads back as it was if and only if it is a good table. */
  lemma {:induction false} FavoritesRoundTrip(entries: seq<Game>)
    ensures LoadFavorites(SaveFavorites(entries)) == Some(entries) <==> GoodFavorites(entries)
  {
    FavoritesText(entries);
    FavoritesPrint(entries);
    FavoritesAddOne();
    ListRoundTrip(entries, FieldLists(entries, GameFields), AddFavorite, MAX_FAVORITES);
    FavoritesAddBack(entries);
  }

  // ----- recently played -----

  datatype Recent = Recent(game: Game, launchProfile: string, lastPlayedAt: string, resumeAvailable: bool)

  function PlayFields(e: Recent): seq<Field> {
    [Field("launch_profile", Text(e.launchProfile)), Field("last_played_at", Text(e.lastPlayedAt)),
     Field("resume_available", BoolValue(e.resumeAvailable))]
  }

  function RecentFields(e: Recent): seq<Field> {
    GameFields(e.game) + PlayFields(e)
  }

  function ParseRecent(obj: string): Recent {
    Recent(ParseGame(obj), GetString(obj, "launch_profile", 128, ""), GetString(obj, "last_played_at", 64, ""),
           GetBool(obj, "resume_available", false))
  }

  function RecentBack(e: Recent): Recent {
    Recent(GameBack(e.game), Back(e.launchProfile, 128), Back(e.lastPlayedAt, 64), e.resumeAvailable)
  }

  /** `find_recent(...) >= 0` */
  predicate HasRecent(entries: seq<Recent>, systemId: string, relativePath: string) {
    exists i :: 0 <= i < |entries| && SameGame(entries[i].game, systemId, relativePath)
  }

  function KeepRecent(entries: seq<Recent>, e: Recent): seq<Recent> {
    if Acceptable(e.game) && e.launchProfile != "" && !HasRecent(entries, e.game.systemId, e.game.relativePath)
    then entries + [e.(game := Titled(e.game))] else entries
  }

  /** One turn of the loop of `load_recent`. */
  function AddRecent(entries: seq<Recent>, obj: string): seq<Recent> {
    KeepRecent(entries, ParseRecent(obj))
  }

  function RestoreRecent(entries: seq<Recent>, e: Recent): seq<Recent> {
    KeepRecent(entries, RecentBack(e))
  }

  predicate GoodRecent(e: Recent) {
    GoodGame(e.game) && e.launchProfile != "" && Holds(e.launchProfile, 128) && Holds(e.lastPlayedAt, 64)
  }

  ghost predicate DistinctRecents(entries: seq<Recent>) {
    forall i, j :: 0 <= i < j < |entries| ==>
      !SameGame(entries[i].game, entries[j].game.systemId, entries[j].game.relativePath)
  }

  /** What the program itself keeps true of its recents table. */
  ghost predicate RecentTable(entries: seq<Recent>) {
    |entries| <= 256 && DistinctRecents(entries)
  }

  ghost predicate GoodRecents(entries: seq<Recent>) {
    RecentTable(entries) && forall i :: 0 <= i < |entries| ==> GoodRecent(entries[i])
  }

  function SaveRecents(entries: seq<Recent>): string {
    ListFile("recents", FieldLists(entries, RecentFields))
  }

  /** An empty file is an empty table; a file without the list is an error. */
  function LoadRecents(text: string): Option<seq<Recent>> {
    if text == "" then Some([])
    else
      match FindContainer(text, "recents", '[', ']')
      case None => None
      case Some(body) => Some(LoadEntries(body, [], MAX_RECENTS, AddRecent))
  }

  lemma {:induction false} RecentFieldsGood(e: Recent)
    ensures GoodFields(RecentFields(e))
  {
    KeyFacts();
    GameFieldsGood(e.game);
    assert Ident("resume_available");
    assert NoBrackets("true") && NoBrackets("false");
    assert GoodFields(PlayFields(e));
  }

  lemma {:induction false} RecentKeys(e: Recent)
    ensures var f := RecentFields(e);
            && GameAt(f, e.game)
            && TextAt(f, "launch_profile", e.launchProfile) && TextAt(f, "last_played_at", e.lastPlayedAt)
            && Lookup(f, "resume_available") == Some(BoolValue(e.resumeAvailable))
  {
    KeyFacts();
    GameFirst(e.game, PlayFields(e));
    PlayKey(e, 0, "launch_profile");
    PlayKey(e, 1, "last_played_at");
    PlayKey(e, 2, "resume_available");
  }

  lemma {:induction false} PlayKey(e: Recent, i: nat, key: string)
    requires i < 3 && PlayFields(e)[i].key == key
    ensures Lookup(RecentFields(e), key) == Some(PlayFields(e)[i].value)
  {
    assert OtherKey("launch_profile") && OtherKey("last_played_at") && OtherKey("resume_available");
    GameLacks(e.game, key);
    LookupAt(PlayFields(e), i, key);
    LookupConcat(GameFields(e.game), PlayFields(e), key);
  }

  lemma {:induction false} RecentRestored(e: Recent)
    ensures ParseRecent(EntryText(RecentFields(e))) == RecentBack(e)
  {
    var f := RecentFields(e);
    RecentFieldsGood(e);
    RecentKeys(e);
    GameReadsBack(f, e.game);
    ReadField(f, "launch_profile", 128);
    ReadField(f, "last_played_at", 64);
    RecentFlag(e);
  }

  lemma {:induction false} RecentFlag(e: Recent)
    ensures GetBool(EntryText(RecentFields(e)), "resume_available", false) == e.resumeAvailable
  {
    RecentFieldsGood(e);
    PlayKey(e, 2, "resume_available");
    assert Ident("resume_available");
    GetBoolIsLookup(RecentFields(e), "{ ", ", ", " }", "resume_available", e.resumeAvailable, false);
  }

  lemma {:induction false} RecentsPrint(entries: seq<Recent>)
    ensures GoodEntries(FieldLists(entries, RecentFields))
  {
    forall i | 0 <= i < |entries|
      ensures GoodFields(FieldLists(entries, RecentFields)[i])
    {
      RecentFieldsGood(entries[i]);
    }
  }

  lemma {:induction false} RecentsText(entries: seq<Recent>)
    ensures LoadRecents(SaveRecents(entries)) ==
            Some(LoadEntries(BodyText(FieldLists(entries, RecentFields)), [], MAX_RECENTS, AddRecent))
  {
    var lists := FieldLists(entries, RecentFields);
    RecentsPrint(entries);
    ListFileBody("recents", lists);
    assert Render(FILE_HEAD) != "";
  }

  /** Any saved table of recently played games reads back as its entries, restored one by one. */
  lemma {:induction false} RecentsReadBack(entries: seq<Recent>)
    ensures LoadRecents(SaveRecents(entries)) == Some(KeepAll([], entries, MAX_RECENTS, RestoreRecent))
  {
    var lists := FieldLists(entries, RecentFields);
    RecentsText(entries);
    RecentsPrint(entries);
    ListReadsBack(lists, AddRecent, MAX_RECENTS);
    forall s: seq<Recent>, i | 0 <= i < |lists|
      ensures AddRecent(s, EntryTexts(lists)[i]) == RestoreRecent(s, entries[i])
    {
      RecentRestored(entries[i]);
    }
    AddIsKeep([], entries, EntryTexts(lists), MAX_RECENTS, AddRecent, RestoreRecent);
  }

  lemma {:induction false} RecentComesBack(e: Recent)
    ensures var back := RecentBack(e);
            Acceptable(back.game) && back.launchProfile != "" && back.(game := Titled(back.game)) == e <==> GoodRecent(e)
  {
    GameComesBack(e.game);
    BackIsSame(e.launchProfile, 128);
    BackIsSame(e.lastPlayedAt, 64);
  }

  lemma {:induction false} RecentAddsBack(entries: seq<Recent>, i: nat)
    requires i < |entries|
    ensures AddRecent(entries[..i], EntryText(RecentFields(entries[i]))) == entries[..i + 1] <==>
            GoodRecent(entries[i])
            && !HasRecent(entries[..i], entries[i].game.systemId, entries[i].game.relativePath)
  {
    RecentRestored(entries[i]);
    OneLonger(entries, i);
    RecentKept(entries[..i], entries[i]);
  }

  lemma {:induction false} RecentKept(before: seq<Recent>, e: Recent)
    ensures KeepRecent(before, RecentBack(e)) == before + [e] <==>
            GoodRecent(e) && !HasRecent(before, e.game.systemId, e.game.relativePath)
  {
    var back := RecentBack(e);
    RecentComesBack(e);
    assert Titled(back.game).systemId == back.game.systemId && Titled(back.game).relativePath == back.game.relativePath;
    if KeepRecent(before, back) == before + [e] {
      assert |KeepRecent(before, back)| == |before| + 1;
      assert back.(game := Titled(back.game)) == (before + [e])[|before|] == e;
    }
  }

  lemma {:induction false} DistinctMeansNewRecent(entries: seq<Recent>)
    ensures DistinctRecents(entries) <==>
            forall i :: 0 <= i < |entries| ==>
              !HasRecent(entries[..i], entries[i].game.systemId, entries[i].game.relativePath)
  {
    if !DistinctRecents(entries) {
      var i, j :| 0 <= i < j < |entries|
                  && SameGame(entries[i].game, entries[j].game.systemId, entries[j].game.relativePath);
      assert SameGame(entries[..j][i].game, entries[j].game.systemId, entries[j].game.relativePath);
    }
  }

  /** All entries are added back exactly for a good table. */
  lemma {:induction false} RecentsAddBack(entries: seq<Recent>)
    ensures |entries| <= MAX_RECENTS && AddsBack(entries, EntryTexts(FieldLists(entries, RecentFields)), AddRecent)
            <==> GoodRecents(entries)
  {
    var objs := EntryTexts(FieldLists(entries, RecentFields));
    DistinctMeansNewRecent(entries);
    if |entries| <= MAX_RECENTS && AddsBack(entries, objs, AddRecent) {
      forall i | 0 <= i < |entries|
        ensures GoodRecent(entries[i]) && !HasRecent(entries[..i], entries[i].game.systemId, entries[i].game.relativePath)
      {
        RecentAddsBack(entries, i);
        assert AddRecent(entries[..i], objs[i]) == entries[..i + 1];
      }
    }
    if GoodRecents(entries) {
      forall i | 0 <= i < |entries|
        ensures AddRecent(entries[..i], objs[i]) == entries[..i + 1]
      {
        RecentAddsBack(entries, i);
        assert !HasRecent(entries[..i], entries[i].game.systemId, entries[i].game.relativePath);
      }
    }
  }

  lemma {:induction false} RecentsAddOne()
    ensures AddsOne(AddRecent)
  {
  }

  /** A saved table of recently played games loads back as it was if and only if it is a good table. */
  lemma {:induction false} RecentsRoundTrip(entries: seq<Recent>)
    ensures LoadRecents(SaveRecents(entries)) == Some(entries) <==> GoodRecents(entries)
  {
    RecentsText(entries);
    RecentsPrint(entries);
    RecentsAddOne();
    ListRoundTrip(entries, FieldLists(entries, RecentFields), AddRecent, MAX_RECENTS);
    RecentsAddBack(entries);
  }

  // ----- resume session -----

  datatype Session = Session(
    pending: bool,
    reason: string,
    game: Game,
    launchProfile: string,
    updatedAt: string,
    autoStateLoad: bool)

  function SessionHead(e: Session): seq<Field> {
    [Field("version", Literal("1")), Field("pending", BoolValue(e.pending)), Field("reason", Text(e.reason))]
  }

  function SessionTail(e: Session): seq<Field> {
    [Field("launch_profile", Text(e.launchProfile)), Field("updated_at", Text(e.updatedAt)),
     Field("auto_state_load", BoolValue(e.autoStateLoad))]
  }

  function SessionFields(e: Session): seq<Field> {
    SessionHead(e) + (GameFields(e.game) + SessionTail(e))
  }

  const SESSION_OPEN := "{\n  "
  const SESSION_SEP := ",\n  "
  const SESSION_CLOSE := "\n}\n"

  function SaveSession(e: Session): string {
    ObjectText(SessionFields(e), SESSION_OPEN, SESSION_SEP, SESSION_CLOSE)
  }

  function WithReason(e: Session): Session {
    e.(reason := if e.reason != "" then e.reason else if e.pending then "shutdown" else "none")
  }

  function LoadSession(text: string): Session {
    WithReason(Session(GetBool(text, "pending", false), GetString(text, "reason", 64, "none"), ParseGame(text),
                       GetString(text, "launch_profile", 128, ""), GetString(text, "updated_at", 64, ""),
                       GetBool(text, "auto_state_load", false)))
  }

  /** A session as its texts come back. */
  function SessionBack(e: Session): Session {
    e.(reason := Back(e.reason, 64), game := GameBack(e.game),
       launchProfile := Back(e.launchProfile, 128), updatedAt := Back(e.updatedAt, 64))
  }

  predicate GoodSession(e: Session) {
    && e.reason != "" && Holds(e.reason, 64) && HoldsGame(e.game)
    && Holds(e.launchProfile, 128) && Holds(e.updatedAt, 64)
  }

  lemma {:induction false} SessionKeyFacts()
    ensures Ident("version") && Ident("pending") && Ident("reason") && Ident("updated_at") && Ident("auto_state_load")
    ensures Separator(SESSION_SEP) && Separator(SESSION_CLOSE)
  {
    assert SESSION_SEP[0] == ',' && SESSION_CLOSE[1..][0] == '}';
    assert SkipSpace(SESSION_CLOSE) == SESSION_CLOSE[1..];
  }

  lemma {:induction false} SessionFieldsGood(e: Session)
    ensures GoodFields(SessionFields(e))
  {
    SessionEndsGood(e);
    GameFieldsGood(e.game);
  }

  lemma {:induction false} SessionEndsGood(e: Session)
    ensures GoodFields(SessionHead(e)) && GoodFields(SessionTail(e))
  {
    SessionKeyFacts();
    KeyFacts();
    assert NoBrackets("1") && NoBrackets("true") && NoBrackets("false");
  }

  /** A field in front of the game's. */
  lemma {:induction false} HeadKey(e: Session, i: nat, key: string)
    requires i < 3 && SessionHead(e)[i].key == key
    ensures Lookup(SessionFields(e), key) == Some(SessionHead(e)[i].value)
  {
    KeysDiffer();
    LookupAt(SessionHead(e), i, key);
    LookupConcat(SessionHead(e), GameFields(e.game) + SessionTail(e), key);
  }

  /** A field behind the game's. */
  lemma {:induction false} TailKey(e: Session, i: nat, key: string)
    requires i < 3 && SessionTail(e)[i].key == key
    ensures Lookup(SessionFields(e), key) == Some(SessionTail(e)[i].value)
  {
    assert OtherKey("launch_profile") && OtherKey("updated_at") && OtherKey("auto_state_load");
    NotInHead(e, key);
    GameLacks(e.game, key);
    LookupAt(SessionTail(e), i, key);
    LookupConcat(GameFields(e.game), SessionTail(e), key);
    LookupConcat(SessionHead(e), GameFields(e.game) + SessionTail(e), key);
  }

  lemma {:induction false} NotInHead(e: Session, key: string)
    requires key !in {"version", "pending", "reason"}
    ensures Lookup(SessionHead(e), key) == None
  {
    var f := SessionHead(e);
    FieldIndexFinds(f, key);
    LookupIndex(f, key);
  }

  lemma {:induction false} SessionGame(e: Session, key: string, s: string)
    requires TextAt(GameFields(e.game), key, s) && key !in {"version", "pending", "reason"}
    ensures TextAt(SessionFields(e), key, s)
  {
    NotInHead(e, key);
    LookupConcat(GameFields(e.game), SessionTail(e), key);
    LookupConcat(SessionHead(e), GameFields(e.game) + SessionTail(e), key);
  }

  lemma {:induction false} SessionGameKeys(e: Session)
    ensures GameAt(SessionFields(e), e.game)
  {
    GameKeys(e.game);
    SessionGame(e, "system_id", e.game.systemId);
    SessionGame(e, "relative_path", e.game.relativePath);
    SessionGame(e, "title", e.game.title);
    SessionGame(e, "file_name", e.game.fileName);
    SessionGame(e, "path", e.game.path);
    SessionGame(e, "thumbnail", e.game.thumbnail);
  }

  lemma {:induction false} ReadSessionField(e: Session, key: string, s: string, capacity: nat, prior: string)
    requires TextAt(SessionFields(e), key, s) && capacity > 0
    ensures GetString(SaveSession(e), key, capacity, prior) == Back(s, capacity)
  {
    SessionFieldsGood(e);
    SessionKeyFacts();
    GetStringIsLookup(SessionFields(e), SESSION_OPEN, SESSION_SEP, SESSION_CLOSE, key, capacity, prior);
  }

  lemma {:induction false} ReadSessionGame(e: Session)
    ensures ParseGame(SaveSession(e)) == GameBack(e.game)
  {
    SessionGameKeys(e);
    ReadSessionField(e, "system_id", e.game.systemId, 64, "");
    ReadSessionField(e, "relative_path", e.game.relativePath, TEXT_PATH_MAX, "");
    ReadSessionField(e, "title", e.game.title, 256, "");
    ReadSessionField(e, "file_name", e.game.fileName, 256, "");
    ReadSessionField(e, "path", e.game.path, TEXT_PATH_MAX, "");
    ReadSessionField(e, "thumbnail", e.game.thumbnail, TEXT_PATH_MAX, "");
  }

  lemma {:induction false} SessionFlags(e: Session)
    ensures GetBool(SaveSession(e), "pending", false) == e.pending
    ensures GetBool(SaveSession(e), "auto_state_load", false) == e.autoStateLoad
  {
    SessionFieldsGood(e);
    SessionKeyFacts();
    HeadKey(e, 1, "pending");
    TailKey(e, 2, "auto_state_load");
    var f := SessionFields(e);
    GetBoolIsLookup(f, SESSION_OPEN, SESSION_SEP, SESSION_CLOSE, "pending", e.pending, false);
    GetBoolIsLookup(f, SESSION_OPEN, SESSION_SEP, SESSION_CLOSE, "auto_state_load", e.autoStateLoad, false);
  }

  /** What any saved resume session reads back as. */
  lemma {:induction false} SessionReadsBack(e: Session)
    ensures LoadSession(SaveSession(e)) == WithReason(SessionBack(e))
  {
    SessionFlags(e);
    ReadSessionGame(e);
    KeyFacts();
    SessionKeyFacts();
    HeadKey(e, 2, "reason");
    TailKey(e, 0, "launch_profile");
    TailKey(e, 1, "updated_at");
    ReadSessionField(e, "reason", e.reason, 64, "none");
    ReadSessionField(e, "launch_profile", e.launchProfile, 128, "");
    ReadSessionField(e, "updated_at", e.updatedAt, 64, "");
  }

  /** A saved resume session loads back as it was if and only if its texts fit and survive and it has a reason. */
  lemma {:induction false} SessionRoundTrip(e: Session)
    ensures LoadSession(SaveSession(e)) == e <==> GoodSession(e)
  {
    SessionReadsBack(e);
    BackIsSame(e.reason, 64);
    BackEmpty(e.reason, 64);
    GameBackIsSame(e.game);
    BackIsSame(e.launchProfile, 128);
    BackIsSame(e.updatedAt, 64);
  }
}
