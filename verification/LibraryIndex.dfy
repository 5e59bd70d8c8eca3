/**
 The library index: the scanner writes every shown system with its ROM entries, and the frontend
 reads one system's entries back with its key scan and bracket matching. Here are the document
 as tokens, the reading as functions, and what the frontend should see of a scanned entry; the
 proof that it does is in IndexRoundTrip.
 */
module LibraryIndex {
  import opened Common
  import opened Decimal
  import opened JsonText
  import opened JsonReader
  import opened JsonObjects
  import opened StateFiles
  import opened TokenBlocks

  // ----- runs of fields -----

  function Item(f: Field, sep: string): seq<Token> {
    match f.value
    case Text(s) => Pair(f.key, s, sep)
    case Literal(text) => Bare(f.key, text + sep)
  }

  /** Fields one after the other, each with the same text behind it. */
  function Items(fields: seq<Field>, sep: string): seq<Token> {
    if fields == [] then [] else Item(fields[0], sep) + Items(fields[1..], sep)
  }

  lemma {:induction false} ItemsNeat(fields: seq<Field>, sep: string, key: string)
    requires GoodFields(fields) && Breaks(sep)
    ensures Neat(Items(fields, sep))
    ensures Mentions(Items(fields, sep), key) <==> FieldIndex(fields, key) < |fields|
    decreases |fields|
  {
    if fields != [] {
      var f, rest := fields[0], Items(fields[1..], sep);
      ItemsNeat(fields[1..], sep, key);
      assert GoodField(f);
      match f.value {
        case Text(s) => PairInFront(f.key, s, sep, rest, key);
        case Literal(text) => BareInFront(f.key, text + sep, rest, key);
      }
    }
  }

  lemma {:induction false} ItemsSplit(fields: seq<Field>, i: nat, sep: string)
    requires i < |fields|
    ensures Items(fields, sep) == Items(fields[..i], sep) + (Item(fields[i], sep) + Items(fields[i + 1..], sep))
    decreases i
  {
    if i == 0 {
      assert fields[..0] == [] && fields[0 + 1..] == fields[1..];
      assert [] + (Item(fields[0], sep) + Items(fields[1..], sep)) == Items(fields, sep);
    } else {
      ItemsSplit(fields[1..], i - 1, sep);
      assert fields[..i][1..] == fields[1..][..i - 1] && fields[1..][i..] == fields[i + 1..];
      Assoc(Item(fields[0], sep), Items(fields[1..][..i - 1], sep), Item(fields[i], sep) + Items(fields[i + 1..], sep));
    }
  }

  lemma {:induction false} ItemsFlat(fields: seq<Field>, sep: string)
    requires GoodFields(fields) && NoBrackets(sep) && '"' !in sep
    ensures NoRawBrackets(Items(fields, sep))
    decreases |fields|
  {
    if fields != [] {
      ItemsFlat(fields[1..], sep);
      assert GoodField(fields[0]);
    }
  }

  /** No field before the i-th has its key. */
  predicate FirstAt(fields: seq<Field>, i: nat) {
    i < |fields| && forall j :: 0 <= j < i ==> fields[j].key != fields[i].key
  }

  lemma {:induction false} IndexOfMissing(fields: seq<Field>, key: string)
    requires forall j :: 0 <= j < |fields| ==> fields[j].key != key
    ensures FieldIndex(fields, key) == |fields|
    decreases |fields|
  {
    if fields != [] {
      IndexOfMissing(fields[1..], key);
    }
  }

  /** Reading a string field of a block that starts with these fields. */
  lemma {:induction false} ReadItem(open: string, fields: seq<Field>, i: nat, sep: string, tail: seq<Token>,
                                    capacity: nat, prior: string)
    requires '"' !in open && GoodFields(fields) && Breaks(sep) && Neat(tail) && capacity > 0
    requires FirstAt(fields, i) && fields[i].value.Text?
    ensures GetString(Render([Raw(open)] + (Items(fields, sep) + tail)), fields[i].key, capacity, prior) ==
            Fit(ReadBack(fields[i].value.s), capacity)
  {
    var key, s := fields[i].key, fields[i].value.s;
    var front, back := Items(fields[..i], sep), Items(fields[i + 1..], sep);
    ItemsSplit(fields, i, sep);
    ItemsNeat(fields[..i], sep, key);
    IndexOfMissing(fields[..i], key);
    ItemsNeat(fields[i + 1..], sep, key);
    NeatConcat(back, tail);
    assert ([Raw(open)] + front)[1..] == front;
    assert GoodField(fields[i]);
    ReadPair([Raw(open)] + front, key, s, sep, back + tail, capacity, prior);
    Regroup([Raw(open)], front, Pair(key, s, sep), back, tail);
  }

  lemma {:induction false} Regroup(a: seq<Token>, b: seq<Token>, c: seq<Token>, d: seq<Token>, e: seq<Token>)
    ensures a + ((b + (c + d)) + e) == (a + b) + (c + (d + e))
  {
  }

  // ----- the library -----

  datatype System = System(
    id: string,
    displayName: string,
    shortName: string,
    sortOrder: int,
    enabled: bool,
    pinned: bool,
    defaultLaunchProfile: string)

  datatype Scanned = Scanned(
    systemIndex: nat,
    id: string,
    path: string,
    relativePath: string,
    fileName: string,
    title: string,
    extension: string,
    directoryAlias: string,
    thumbnail: string)

  datatype Library = Library(
    systems: seq<System>,
    roms: seq<Scanned>,
    filter: Option<string>,
    sdcardRoot: string,
    plumosRoot: string,
    generatedAt: int,
    aliasDirs: nat,
    filesSeen: nat,
    filesMatched: nat,
    thumbnails: nat,
    resolveThumbnails: bool,
    loadMs: int,
    scanMs: int,
    sortMs: int,
    readyMs: int)

  function Number(n: int): string {
    if n < 0 then "-" + Digits(0 - n) else Digits(n)
  }

  predicate Shown(lib: Library, s: nat) {
    s < |lib.systems| && lib.systems[s].enabled && (lib.filter.None? || lib.filter.value == lib.systems[s].id)
  }

  /** The entries of one system, in the scanner's order. */
  function RomsOf(roms: seq<Scanned>, s: nat): seq<Scanned> {
    if roms == [] then []
    else (if roms[0].systemIndex == s then [roms[0]] else []) + RomsOf(roms[1..], s)
  }

  function WithThumbnail(roms: seq<Scanned>): nat {
    if roms == [] then 0 else (if roms[0].thumbnail != "" then 1 else 0) + WithThumbnail(roms[1..])
  }

  const ROM_SEP := ",\n          "
  const SYSTEM_SEP := ",\n      "
  const HEAD_SEP := ",\n  "
  const SUMMARY_SEP := ",\n    "

  function ListedRomFields(systemId: string, rom: Scanned): seq<Field> {
    [Field("id", Text(rom.id)), Field("system_id", Text(systemId)), Field("path", Text(rom.path)),
     Field("relative_path", Text(rom.relativePath)), Field("file_name", Text(rom.fileName)),
     Field("title", Text(rom.title)), Field("extension", Text(rom.extension)),
     Field("directory_alias", Text(rom.directoryAlias))]
  }

  /** `"thumbnail": "..." }` or `"thumbnail": null }` */
  function ThumbnailTokens(thumbnail: string): seq<Token> {
    if thumbnail == "" then Bare("thumbnail", "null }") else Pair("thumbnail", thumbnail, " }")
  }

  function MetadataTokens(): seq<Token> {
    Bare("metadata", "{ ") + Pair("source", "scan", " }\n        ")
  }

  function MediaTokens(thumbnail: string): seq<Token> {
    Bare("media", "{ ") + (ThumbnailTokens(thumbnail) + ([Raw(ROM_SEP)] + MetadataTokens()))
  }

  /** A ROM entry between its braces, and with them. */
  function RomInner(systemId: string, rom: Scanned): seq<Token> {
    [Raw("\n          ")] + (Items(ListedRomFields(systemId, rom), ROM_SEP) + MediaTokens(rom.thumbnail))
  }

  function Block(inner: seq<Token>): seq<Token> {
    [Raw("{")] + (inner + [Raw("}")])
  }

  function RomBlocks(systemId: string, roms: seq<Scanned>): seq<seq<Token>> {
    seq(|roms|, i requires 0 <= i < |roms| => Block(RomInner(systemId, roms[i])))
  }

  function RomList(systemId: string, roms: seq<Scanned>): seq<Token> {
    Blocks(RomBlocks(systemId, roms), "        ", ",\n        ")
  }

  function ListedSystemFields(system: System, roms: seq<Scanned>): seq<Field> {
    [Field("id", Text(system.id)), Field("display_name", Text(system.displayName)),
     Field("short_name", Text(system.shortName)), Field("sort_order", Literal(Number(system.sortOrder))),
     Field("rom_count", Literal(Digits(|roms|))), Field("thumbnail_count", Literal(Digits(WithThumbnail(roms)))),
     Field("pinned", BoolValue(system.pinned)), Field("default_launch_profile", Text(system.defaultLaunchProfile))]
  }

  function SystemInner(system: System, roms: seq<Scanned>): seq<Token> {
    [Raw("\n      ")]
    + (Items(ListedSystemFields(system, roms), SYSTEM_SEP)
       + (Bare("roms", "[" + "\n") + (RomList(system.id, roms) + ([Raw("\n      " + "]")] + [Raw("\n    ")]))))
  }

  /** The blocks of the shown systems from the s-th on. */
  function SystemBlocks(lib: Library, s: nat): seq<seq<Token>>
    requires s <= |lib.systems|
    decreases |lib.systems| - s
  {
    if s == |lib.systems| then []
    else (if Shown(lib, s) then [Block(SystemInner(lib.systems[s], RomsOf(lib.roms, s)))] else []) + SystemBlocks(lib, s + 1)
  }

  function HeadFields(lib: Library): seq<Field> {
    [Field("version", Literal("1")), Field("generated_by", Text("plumos-library-scan")),
     Field("generated_at_unix", Literal(Number(lib.generatedAt))), Field("sdcard_root", Text(lib.sdcardRoot)),
     Field("plumos_root", Text(lib.plumosRoot))]
  }

  function SummaryFields(lib: Library): seq<Field> {
    [Field("system_count", Literal(Digits(|lib.systems|))), Field("alias_dirs_found", Literal(Digits(lib.aliasDirs))),
     Field("files_seen", Literal(Digits(lib.filesSeen))), Field("files_matched", Literal(Digits(lib.filesMatched))),
     Field("rom_count", Literal(Digits(|lib.roms|))), Field("thumbnail_count", Literal(Digits(lib.thumbnails))),
     Field("thumbnail_lookup_deferred", BoolValue(!lib.resolveThumbnails)), Field("load_ms", Literal(Number(lib.loadMs))),
     Field("scan_ms", Literal(Number(lib.scanMs))), Field("sort_ms", Literal(Number(lib.sortMs)))]
  }

  function SummaryTokens(lib: Library): seq<Token> {
    [Raw(HEAD_SEP)]
    + (Bare("summary", "{\n    ")
       + (Items(SummaryFields(lib), SUMMARY_SEP) + Bare("ready_ms", Number(lib.readyMs) + "\n  }\n}\n")))
  }

  function SystemList(lib: Library): seq<Token> {
    Blocks(SystemBlocks(lib, 0), "    ", ",\n    ")
  }

  /** What `write_library_index` writes. */
  function IndexTokens(lib: Library): seq<Token> {
    ([Raw("{\n  ")] + Items(HeadFields(lib), HEAD_SEP))
    + (Bare("systems", "[" + "\n") + (SystemList(lib) + ([Raw("\n  " + "]")] + SummaryTokens(lib))))
  }

  // ----- reading -----

  function ReadThumbnail(obj: string): string {
    match FindContainer(obj, "media", '{', '}')
    case None => ""
    case Some(media) => GetString(media, "thumbnail", TEXT_PATH_MAX, "")
  }

  function WithTitle(rom: Rom): Rom {
    rom.(title := TitleFor(rom.title, rom.fileName, rom.relativePath))
  }

  /** One ROM object as the frontend reads it. */
  function ReadRom(obj: string): Rom {
    WithTitle(Rom(GetString(obj, "id", 64, ""), GetString(obj, "title", 256, ""), GetString(obj, "file_name", 256, ""),
                  GetString(obj, "relative_path", TEXT_PATH_MAX, ""), GetString(obj, "path", TEXT_PATH_MAX, ""),
                  ReadThumbnail(obj)))
  }

  function ReadRoms(objs: seq<string>): seq<Rom> {
    if objs == [] then [] else [ReadRom(objs[0])] + ReadRoms(objs[1..])
  }

  /** The entries of the first system with this id. */
  function ReadSystem(systems: seq<string>, systemId: string): Option<seq<Rom>> {
    if systems == [] then Some([])
    else if GetString(systems[0], "id", 64, "") != systemId then ReadSystem(systems[1..], systemId)
    else
      match FindContainer(systems[0], "roms", '[', ']')
      case None => None
      case Some(list) => Some(ReadRoms(Objects(list)))
  }

  /** `load_rom_entries` on a file that could be read: the entries and the scan's total time. */
  function LoadRoms(text: string, systemId: string): Option<(seq<Rom>, int)> {
    match FindContainer(text, "systems", '[', ']')
    case None => None
    case Some(body) =>
      match ReadSystem(Objects(body), systemId)
      case None => None
      case Some(roms) => Some((roms, GetLong(text, "ready_ms", -1)))
  }

  /** What the frontend should see of a scanned entry; a missing thumbnail is an empty one. */
  function Seen(rom: Scanned): Rom {
    WithTitle(Rom(Back(rom.id, 64), Back(rom.title, 256), Back(rom.fileName, 256),
                  Back(rom.relativePath, 1024), Back(rom.path, 1024), Back(rom.thumbnail, 1024)))
  }

  function AllSeen(roms: seq<Scanned>): seq<Rom> {
    seq(|roms|, i requires 0 <= i < |roms| => Seen(roms[i]))
  }
}
