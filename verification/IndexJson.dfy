/** The library index as a JSON value. */
module IndexJson {
  import opened Common
  import opened Decimal
  import opened JsonText
  import opened JsonObjects
  import opened TokenBlocks
  import opened LibraryIndex
  import opened JsonPrinted
  import G = JsonGrammar

  // ----- runs of fields, arrays and objects under a name -----

  lemma {:induction false} BareText(key: string, text: string)
    ensures Render(Bare(key, text)) == Quoted(key) + (": " + text)
  {
    assert Bare(key, text)[1..] == [Raw(": " + text)];
    RenderRaw(": " + text);
  }

  lemma {:induction false} PairText(key: string, s: string, sep: string)
    ensures Render(Pair(key, s, sep)) == Quoted(key) + (": " + (Quoted(s) + sep))
  {
    RenderConcat([Str(key)], [Raw(": ")] + ([Str(s)] + [Raw(sep)]));
    RenderConcat([Raw(": ")], [Str(s)] + [Raw(sep)]);
    RenderConcat([Str(s)], [Raw(sep)]);
    RenderRaw(": ");
    RenderRaw(sep);
    RenderStr(key);
    RenderStr(s);
    assert Pair(key, s, sep) == [Str(key)] + ([Raw(": ")] + ([Str(s)] + [Raw(sep)]));
  }

  lemma {:induction false} RenderStr(s: string)
    ensures Render([Str(s)]) == Quoted(s)
  {
    assert [Str(s)][1..] == [];
  }

  lemma {:induction false} ItemText(f: Field, sep: string)
    ensures Render(Item(f, sep)) == FieldText(f) + sep
  {
    hide Quoted;
    if f.value.Text? {
      PairText(f.key, f.value.s, sep);
      TextRegrouped(Quoted(f.key), ": ", Quoted(f.value.s), sep);
    } else {
      BareText(f.key, f.value.text + sep);
      TextRegrouped(Quoted(f.key), ": ", f.value.text, sep);
    }
  }

  /** Fields with a comma behind each, and what follows them. */
  lemma {:induction false} ItemsThen(fields: seq<Field>, ps: seq<G.Pair>, w: string, rest: string, qs: seq<G.Pair>)
    requires AllStand(fields, ps) && G.White(w) && qs != [] && G.Members(rest, qs)
    ensures G.Members(Render(Items(fields, "," + w)) + rest, ps + qs)
    decreases |fields|
  {
    hide G.Members, G.Member, G.White, Stands, Render, FieldText, Item;
    if fields == [] {
      RenderNothing();
      assert "" + rest == rest && ps + qs == qs;
    } else {
      var more := Render(Items(fields[1..], "," + w));
      FieldMember(fields[0], ps[0]);
      ItemsThen(fields[1..], ps[1..], w, rest, qs);
      G.NoWhite();
      G.MembersBetween(w, more + rest, "", ps[1..] + qs);
      G.MembersCons(FieldText(fields[0]), w + (more + rest) + "", ps[0], ps[1..] + qs);
      assert [ps[0]] + (ps[1..] + qs) == ps + qs;
      RenderConcat(Item(fields[0], "," + w), Items(fields[1..], "," + w));
      ItemText(fields[0], "," + w);
      ItemParts(FieldText(fields[0]), w, more, rest);
    }
  }

  lemma {:induction false} RenderNothing()
    ensures Render([]) == ""
  {
  }

  lemma {:induction false} ItemParts(f: string, w: string, more: string, rest: string)
    ensures f + ("," + w) + more + rest == f + "," + (w + (more + rest) + "")
  {
  }

  lemma {:induction false} ArrayMember(name: string, inside: string, vs: seq<G.Json>)
    requires G.Elements(inside, vs)
    ensures G.Member(Quoted(name) + ": " + ("[" + inside + "]"), G.Pair(name, G.JArray(vs)))
  {
    hide G.Denotes, Quoted, G.Elements, G.Member;
    QuotedDenotes(name);
    G.ArrayText(inside, vs);
    G.DenotedIsPadded("[" + inside + "]", G.JArray(vs));
    G.MemberText(Quoted(name), "[" + inside + "]", G.Pair(name, G.JArray(vs)));
  }

  lemma {:induction false} ObjectMember(name: string, inside: string, ps: seq<G.Pair>)
    requires G.Members(inside, ps)
    ensures G.Member(Quoted(name) + ": " + ("{" + inside + "}"), G.Pair(name, G.JObject(ps)))
  {
    hide G.Denotes, Quoted, G.Members, G.Member;
    QuotedDenotes(name);
    G.ObjectText(inside, ps);
    G.DenotedIsPadded("{" + inside + "}", G.JObject(ps));
    G.MemberText(Quoted(name), "{" + inside + "}", G.Pair(name, G.JObject(ps)));
  }

  /** Blocks with a comma between them. */
  lemma {:induction false} BlocksElements(blocks: seq<seq<Token>>, vs: seq<G.Json>, first: string, w: string)
    requires |blocks| == |vs| && forall i :: 0 <= i < |blocks| ==> G.Denotes(Render(blocks[i]), vs[i])
    requires G.White(first) && G.White(w)
    ensures G.Elements(Render(Blocks(blocks, first, "," + w)), vs)
    decreases |blocks|
  {
    hide G.Denotes, G.Padded, G.White;
    G.NoWhite();
    if blocks != [] {
      var between := "," + w;
      var block, rest := Render(blocks[0]), Blocks(blocks[1..], between, between);
      BlocksText(blocks, first, between);
      G.DenotedIsPadded(block, vs[0]);
      G.PaddedBetween(first, block, "", vs[0]);
      if |blocks| == 1 {
        assert rest == [];
        assert first + (block + "") == first + block + "";
      } else {
        BlocksElements(blocks[1..], vs[1..], w, w);
        BlocksText(blocks[1..], between, between);
        BlocksText(blocks[1..], w, between);
        G.ElementsCons(first + block + "", Render(Blocks(blocks[1..], w, between)), vs[0], vs[1..]);
        assert [vs[0]] + vs[1..] == vs;
        BlockParts(first, block, w, Render(blocks[1]), Render(Blocks(blocks[2..], between, between)));
        assert blocks[1..][0] == blocks[1] && blocks[1..][1..] == blocks[2..];
      }
    }
  }

  lemma {:induction false} BlocksText(blocks: seq<seq<Token>>, first: string, between: string)
    requires blocks != []
    ensures Render(Blocks(blocks, first, between)) ==
            first + (Render(blocks[0]) + Render(Blocks(blocks[1..], between, between)))
  {
    var rest := Blocks(blocks[1..], between, between);
    RenderConcat([Raw(first)], blocks[0] + rest);
    RenderConcat(blocks[0], rest);
    RenderRaw(first);
  }

  lemma {:induction false} BlockParts(first: string, block: string, w: string, next: string, rest: string)
    ensures first + (block + ("," + w + (next + rest))) == first + block + "" + "," + (w + (next + rest))
  {
  }

  // ----- the index -----

  function RomJson(systemId: string, rom: Scanned): G.Json {
    G.JObject([G.Pair("id", G.JString(rom.id)), G.Pair("system_id", G.JString(systemId)),
               G.Pair("path", G.JString(rom.path)), G.Pair("relative_path", G.JString(rom.relativePath)),
               G.Pair("file_name", G.JString(rom.fileName)), G.Pair("title", G.JString(rom.title)),
               G.Pair("extension", G.JString(rom.extension)), G.Pair("directory_alias", G.JString(rom.directoryAlias)),
               G.Pair("media", G.JObject([G.Pair("thumbnail", if rom.thumbnail == "" then G.JNull
                                                              else G.JString(rom.thumbnail))])),
               G.Pair("metadata", G.JObject([G.Pair("source", G.JString("scan"))]))])
  }

  lemma {:induction false} RomStands(systemId: string, rom: Scanned)
    ensures AllStand(ListedRomFields(systemId, rom), RomJson(systemId, rom).members[..8])
  {
  }

  /** A field in braces with a blank on each side. */
  function Braces(name: string, text: string): string {
    "{" + (" " + (Quoted(name) + ": " + text) + " ") + "}"
  }

  lemma {:induction false} BracesMember(outer: string, name: string, text: string, v: G.Json)
    requires G.Denotes(text, v)
    ensures G.Member(Quoted(outer) + ": " + Braces(name, text), G.Pair(outer, G.JObject([G.Pair(name, v)])))
  {
    hide G.Denotes, Quoted, G.White, G.Member;
    Blanks();
    QuotedDenotes(name);
    G.DenotedIsPadded(text, v);
    G.MemberText(Quoted(name), text, G.Pair(name, v));
    G.MemberBetween(" ", Quoted(name) + ": " + text, " ", G.Pair(name, v));
    assert G.Members(" " + (Quoted(name) + ": " + text) + " ", [G.Pair(name, v)]);
    ObjectMember(outer, " " + (Quoted(name) + ": " + text) + " ", [G.Pair(name, v)]);
  }

  function ThumbnailText(thumbnail: string): string {
    if thumbnail == "" then "null" else Quoted(thumbnail)
  }

  lemma {:induction false} ThumbnailRender(thumbnail: string)
    ensures Render(ThumbnailTokens(thumbnail)) == Quoted("thumbnail") + ": " + ThumbnailText(thumbnail) + " }"
  {
    hide Quoted;
    if thumbnail == "" {
      BareText("thumbnail", "null }");
      assert "null" + " }" == "null }";
      TextRegrouped(Quoted("thumbnail"), ": ", "null", " }");
    } else {
      PairText("thumbnail", thumbnail, " }");
      TextRegrouped(Quoted("thumbnail"), ": ", Quoted(thumbnail), " }");
    }
  }

  lemma {:induction false} MediaRender(thumbnail: string)
    ensures Render(MediaTokens(thumbnail)) ==
            Quoted("media") + ": " + Braces("thumbnail", ThumbnailText(thumbnail)) + ","
            + ("\n          " + (Quoted("metadata") + ": " + Braces("source", Quoted("scan"))) + "\n        ")
  {
    hide Quoted, ThumbnailText, ThumbnailTokens;
    RenderConcat(Bare("media", "{ "), ThumbnailTokens(thumbnail) + ([Raw(ROM_SEP)] + MetadataTokens()));
    RenderConcat(ThumbnailTokens(thumbnail), [Raw(ROM_SEP)] + MetadataTokens());
    RenderConcat([Raw(ROM_SEP)], MetadataTokens());
    RenderConcat(Bare("metadata", "{ "), Pair("source", "scan", " }\n        "));
    RenderRaw(ROM_SEP);
    BareText("media", "{ ");
    BareText("metadata", "{ ");
    PairText("source", "scan", " }\n        ");
    ThumbnailRender(thumbnail);
    MediaParts(Quoted("media"), Quoted("thumbnail") + ": " + ThumbnailText(thumbnail), Quoted("metadata"),
               Quoted("source"), Quoted("scan"));
  }

  lemma {:induction false} MediaParts(media: string, thumbnail: string, metadata: string, source: string, scan: string)
    ensures media + (": " + "{ ")
            + (thumbnail + " }" + (",\n          " + (metadata + (": " + "{ ") + (source + (": " + (scan + " }\n        ")))))) ==
            media + ": " + ("{" + (" " + thumbnail + " ") + "}") + ","
            + ("\n          " + (metadata + ": " + ("{" + (" " + (source + ": " + scan) + " ") + "}")) + "\n        ")
  {
  }

  function MediaPairs(thumbnail: string): seq<G.Pair> {
    [G.Pair("media", G.JObject([G.Pair("thumbnail", if thumbnail == "" then G.JNull else G.JString(thumbnail))])),
     G.Pair("metadata", G.JObject([G.Pair("source", G.JString("scan"))]))]
  }

  lemma {:induction false} MediaMembers(thumbnail: string)
    ensures G.Members(Render(MediaTokens(thumbnail)), MediaPairs(thumbnail))
  {
    hide Quoted, G.White, G.Member, G.Members, G.Denotes, MediaTokens, ThumbnailText, Braces, Render;
    var ps := MediaPairs(thumbnail);
    var media, metadata := Quoted("media") + ": " + Braces("thumbnail", ThumbnailText(thumbnail)),
                           Quoted("metadata") + ": " + Braces("source", Quoted("scan"));
    MediaTexts(thumbnail);
    Indents();
    G.MemberBetween("\n          ", metadata, "\n        ", ps[1]);
    G.MembersOne("\n          " + metadata + "\n        ", ps[1]);
    G.MembersCons(media, "\n          " + metadata + "\n        ", ps[0], [ps[1]]);
    assert [ps[0]] + [ps[1]] == ps;
    MediaRender(thumbnail);
  }

  lemma {:induction false} MediaTexts(thumbnail: string)
    ensures G.Member(Quoted("media") + ": " + Braces("thumbnail", ThumbnailText(thumbnail)), MediaPairs(thumbnail)[0])
    ensures G.Member(Quoted("metadata") + ": " + Braces("source", Quoted("scan")), MediaPairs(thumbnail)[1])
  {
    hide Quoted, G.Member, Braces, ThumbnailText;
    ThumbnailDenotes(thumbnail);
    BracesMember("media", "thumbnail", ThumbnailText(thumbnail),
                 if thumbnail == "" then G.JNull else G.JString(thumbnail));
    QuotedDenotes("scan");
    BracesMember("metadata", "source", Quoted("scan"), G.JString("scan"));
  }

  lemma {:induction false} ThumbnailDenotes(thumbnail: string)
    ensures G.Denotes(ThumbnailText(thumbnail), if thumbnail == "" then G.JNull else G.JString(thumbnail))
  {
    if thumbnail != "" {
      QuotedDenotes(thumbnail);
    }
  }

  lemma {:induction false} Indents()
    ensures G.White("") && G.White("\n") && G.White("\n  ") && G.White("\n    ") && G.White("\n      ")
    ensures G.White("\n        ") && G.White("\n          ") && G.White("    ") && G.White("        ")
  {
  }

  lemma {:induction false} BlockDenotes(open: string, items: seq<Token>, rest: seq<Token>, ps: seq<G.Pair>)
    requires G.White(open) && ps != [] && G.Members(Render(items) + Render(rest), ps)
    ensures G.Denotes(Render(Block([Raw(open)] + (items + rest))), G.JObject(ps))
  {
    hide G.Denotes, G.Members, G.White;
    var inner := [Raw(open)] + (items + rest);
    RenderConcat([Raw("{")], inner + [Raw("}")]);
    RenderConcat(inner, [Raw("}")]);
    RenderConcat([Raw(open)], items + rest);
    RenderConcat(items, rest);
    RenderRaw("{");
    RenderRaw("}");
    RenderRaw(open);
    G.NoWhite();
    var text := Render(items) + Render(rest);
    G.MembersBetween(open, text, "", ps);
    G.ObjectText(open + text + "", ps);
    assert "{" + ((open + text) + "}") == "{" + (open + text + "") + "}";
  }

  /** One entry. */
  lemma {:induction false} RomDenotes(systemId: string, rom: Scanned)
    ensures G.Denotes(Render(Block(RomInner(systemId, rom))), RomJson(systemId, rom))
  {
    hide G.Denotes, G.Members, G.White, AllStand, MediaTokens, ListedRomFields, Block, Items;
    var ps := RomJson(systemId, rom).members;
    var fields := ListedRomFields(systemId, rom);
    Indents();
    RomStands(systemId, rom);
    MediaMembers(rom.thumbnail);
    assert ps[8..] == MediaPairs(rom.thumbnail);
    ItemsThen(fields, ps[..8], "\n          ", Render(MediaTokens(rom.thumbnail)), ps[8..]);
    assert ps[..8] + ps[8..] == ps && "," + "\n          " == ROM_SEP;
    BlockDenotes("\n          ", Items(fields, ROM_SEP), MediaTokens(rom.thumbnail), ps);
  }

  function RomJsons(systemId: string, roms: seq<Scanned>): seq<G.Json> {
    seq(|roms|, i requires 0 <= i < |roms| => RomJson(systemId, roms[i]))
  }

  lemma {:induction false} RomListElements(systemId: string, roms: seq<Scanned>)
    ensures G.Elements(Render(RomList(systemId, roms)), RomJsons(systemId, roms))
  {
    hide G.Denotes, G.Elements, G.White, Block, RomInner, RomJson;
    var blocks := RomBlocks(systemId, roms);
    Indents();
    forall i | 0 <= i < |blocks|
      ensures G.Denotes(Render(blocks[i]), RomJsons(systemId, roms)[i])
    {
      RomDenotes(systemId, roms[i]);
    }
    BlocksElements(blocks, RomJsons(systemId, roms), "        ", "\n        ");
    assert "," + "\n        " == ",\n        ";
  }

  /** A system with its entries, how many there are, and how many have a thumbnail. */
  function SystemJson(system: System, roms: seq<Scanned>): G.Json {
    G.JObject([G.Pair("id", G.JString(system.id)), G.Pair("display_name", G.JString(system.displayName)),
               G.Pair("short_name", G.JString(system.shortName)), G.Pair("sort_order", G.JNumber(system.sortOrder)),
               G.Pair("rom_count", G.JNumber(|roms|)), G.Pair("thumbnail_count", G.JNumber(WithThumbnail(roms))),
               G.Pair("pinned", G.JBool(system.pinned)),
               G.Pair("default_launch_profile", G.JString(system.defaultLaunchProfile)),
               G.Pair("roms", G.JArray(RomJsons(system.id, roms)))])
  }

  lemma {:induction false} CountDenotes(n: nat)
    ensures G.Denotes(Digits(n), G.JNumber(n))
  {
    DigitsDenote(n);
  }

  lemma {:induction false} IntDenotes(n: int)
    ensures G.Denotes(Number(n), G.JNumber(n))
  {
    NumberDenotes(n);
  }

  lemma {:induction false} YesNoDenotes(b: bool)
    ensures G.Denotes(BoolValue(b).text, G.JBool(b))
  {
  }

  lemma {:induction false} SystemStands(system: System, roms: seq<Scanned>)
    ensures AllStand(ListedSystemFields(system, roms), SystemJson(system, roms).members[..8])
  {
    hide G.Denotes, Digits, Number, RomJsons;
    IntDenotes(system.sortOrder);
    CountDenotes(|roms|);
    CountDenotes(WithThumbnail(roms));
    YesNoDenotes(system.pinned);
  }

  /** The tokens of a system behind its fields. */
  function RomsTokens(system: System, roms: seq<Scanned>): seq<Token> {
    Bare("roms", "[" + "\n") + (RomList(system.id, roms) + ([Raw("\n      " + "]")] + [Raw("\n    ")]))
  }

  lemma {:induction false} RomsMembers(system: System, roms: seq<Scanned>)
    ensures G.Members(Render(RomsTokens(system, roms)), SystemJson(system, roms).members[8..])
  {
    hide Quoted, G.White, G.Member, G.Elements, RomList, RomJsons;
    var p := G.Pair("roms", G.JArray(RomJsons(system.id, roms)));
    var list, close := Render(RomList(system.id, roms)), [Raw("\n      " + "]")];
    Indents();
    RomListElements(system.id, roms);
    G.ElementsBetween("\n", list, "\n      ", RomJsons(system.id, roms));
    ArrayMember("roms", "\n" + list + "\n      ", RomJsons(system.id, roms));
    G.MemberBetween("", Quoted("roms") + ": " + ("[" + ("\n" + list + "\n      ") + "]"), "\n    ", p);
    RenderConcat(Bare("roms", "[" + "\n"), RomList(system.id, roms) + (close + [Raw("\n    ")]));
    RenderConcat(RomList(system.id, roms), close + [Raw("\n    ")]);
    RenderConcat(close, [Raw("\n    ")]);
    RenderRaw("\n      " + "]");
    RenderRaw("\n    ");
    BareText("roms", "[" + "\n");
    RomsParts(Quoted("roms"), list);
    assert SystemJson(system, roms).members[8..] == [p];
  }

  lemma {:induction false} RomsParts(name: string, list: string)
    ensures name + (": " + ("[" + "\n")) + (list + ("\n      " + "]" + "\n    ")) ==
            "" + (name + ": " + ("[" + ("\n" + list + "\n      ") + "]")) + "\n    "
  {
  }

  lemma {:induction false} SystemDenotes(system: System, roms: seq<Scanned>)
    ensures G.Denotes(Render(Block(SystemInner(system, roms))), SystemJson(system, roms))
  {
    hide G.Denotes, G.Members, G.White, AllStand, ListedSystemFields, Block, Items, RomList, RomJsons;
    var ps := SystemJson(system, roms).members;
    var fields := ListedSystemFields(system, roms);
    Indents();
    SystemStands(system, roms);
    RomsMembers(system, roms);
    ItemsThen(fields, ps[..8], "\n      ", Render(RomsTokens(system, roms)), ps[8..]);
    assert ps[..8] + ps[8..] == ps && "," + "\n      " == SYSTEM_SEP;
    BlockDenotes("\n      ", Items(fields, SYSTEM_SEP), RomsTokens(system, roms), ps);
  }

  /** The enabled systems, or only the one that is asked for, from the s-th on. */
  function SystemJsons(lib: Library, s: nat): seq<G.Json>
    requires s <= |lib.systems|
    decreases |lib.systems| - s
  {
    if s == |lib.systems| then []
    else if lib.systems[s].enabled && (lib.filter == Some(lib.systems[s].id) || lib.filter == None) then
      [SystemJson(lib.systems[s], RomsOf(lib.roms, s))] + SystemJsons(lib, s + 1)
    else SystemJsons(lib, s + 1)
  }

  lemma {:induction false} SystemsDenote(lib: Library, s: nat)
    requires s <= |lib.systems|
    ensures AllDenote(SystemBlocks(lib, s), SystemJsons(lib, s))
    decreases |lib.systems| - s
  {
    hide AllDenote, Block, SystemInner, SystemJson, RomsOf;
    if s == |lib.systems| {
      NoneDenote();
    } else {
      var roms := RomsOf(lib.roms, s);
      var block, v := Block(SystemInner(lib.systems[s], roms)), SystemJson(lib.systems[s], roms);
      SystemsDenote(lib, s + 1);
      SystemDenotes(lib.systems[s], roms);
      OneMoreDenotes(block, SystemBlocks(lib, s + 1), v, SystemJsons(lib, s + 1));
      assert [] + SystemBlocks(lib, s + 1) == SystemBlocks(lib, s + 1);
    }
  }

  ghost predicate AllDenote(blocks: seq<seq<Token>>, vs: seq<G.Json>) {
    |blocks| == |vs| && forall i :: 0 <= i < |blocks| ==> G.Denotes(Render(blocks[i]), vs[i])
  }

  lemma {:induction false} NoneDenote()
    ensures AllDenote([], [])
  {
  }

  lemma {:induction false} OneMoreDenotes(block: seq<Token>, blocks: seq<seq<Token>>, v: G.Json, vs: seq<G.Json>)
    requires G.Denotes(Render(block), v) && AllDenote(blocks, vs)
    ensures AllDenote([block] + blocks, [v] + vs)
  {
    hide G.Denotes, Render;
  }

  // ----- the whole document -----

  function HeadPairs(lib: Library): seq<G.Pair> {
    [G.Pair("version", G.JNumber(1)), G.Pair("generated_by", G.JString("plumos-library-scan")),
     G.Pair("generated_at_unix", G.JNumber(lib.generatedAt)), G.Pair("sdcard_root", G.JString(lib.sdcardRoot)),
     G.Pair("plumos_root", G.JString(lib.plumosRoot))]
  }

  lemma {:induction false} HeadStands(lib: Library)
    ensures AllStand(HeadFields(lib), HeadPairs(lib))
  {
    hide G.Denotes, Number;
    OneDenotes();
    IntDenotes(lib.generatedAt);
  }

  function SummaryPairs(lib: Library): seq<G.Pair> {
    [G.Pair("system_count", G.JNumber(|lib.systems|)), G.Pair("alias_dirs_found", G.JNumber(lib.aliasDirs)),
     G.Pair("files_seen", G.JNumber(lib.filesSeen)), G.Pair("files_matched", G.JNumber(lib.filesMatched)),
     G.Pair("rom_count", G.JNumber(|lib.roms|)), G.Pair("thumbnail_count", G.JNumber(lib.thumbnails)),
     G.Pair("thumbnail_lookup_deferred", G.JBool(!lib.resolveThumbnails)), G.Pair("load_ms", G.JNumber(lib.loadMs)),
     G.Pair("scan_ms", G.JNumber(lib.scanMs)), G.Pair("sort_ms", G.JNumber(lib.sortMs))]
  }

  lemma {:induction false} SummaryStands(lib: Library)
    ensures AllStand(SummaryFields(lib), SummaryPairs(lib))
  {
    hide G.Denotes, Number, Digits;
    CountDenotes(|lib.systems|);
    CountDenotes(lib.aliasDirs);
    CountDenotes(lib.filesSeen);
    CountDenotes(lib.filesMatched);
    CountDenotes(|lib.roms|);
    CountDenotes(lib.thumbnails);
    YesNoDenotes(!lib.resolveThumbnails);
    IntDenotes(lib.loadMs);
    IntDenotes(lib.scanMs);
    IntDenotes(lib.sortMs);
  }

  function LibraryJson(lib: Library): G.Json {
    G.JObject(HeadPairs(lib)
              + [G.Pair("systems", G.JArray(SystemJsons(lib, 0))),
                 G.Pair("summary", G.JObject(SummaryPairs(lib) + [G.Pair("ready_ms", G.JNumber(lib.readyMs))]))])
  }

  /** The summary between its braces. */
  function SummaryInside(lib: Library): string {
    "\n    "
    + (Render(Items(SummaryFields(lib), SUMMARY_SEP)) + (Quoted("ready_ms") + ": " + Number(lib.readyMs) + "\n  "))
    + ""
  }

  lemma {:induction false} SummaryMembers(lib: Library)
    ensures G.Members(SummaryInside(lib), SummaryPairs(lib) + [G.Pair("ready_ms", G.JNumber(lib.readyMs))])
  {
    hide G.White, G.Members, Number, Quoted, AllStand, SummaryFields, SummaryPairs, Items, Render;
    var ready := G.Pair("ready_ms", G.JNumber(lib.readyMs));
    var text := Quoted("ready_ms") + ": " + Number(lib.readyMs) + "\n  ";
    Indents();
    SummaryStands(lib);
    ReadyMembers(lib.readyMs);
    ItemsThen(SummaryFields(lib), SummaryPairs(lib), "\n    ", text, [ready]);
    assert "," + "\n    " == SUMMARY_SEP;
    G.MembersBetween("\n    ", Render(Items(SummaryFields(lib), SUMMARY_SEP)) + text, "", SummaryPairs(lib) + [ready]);
  }

  lemma {:induction false} ReadyMembers(n: int)
    ensures G.Members(Quoted("ready_ms") + ": " + Number(n) + "\n  ", [G.Pair("ready_ms", G.JNumber(n))])
  {
    hide G.Denotes, G.White, G.Member, G.Members, Number, Quoted;
    var ready, text := G.Pair("ready_ms", G.JNumber(n)), Quoted("ready_ms") + ": " + Number(n);
    Indents();
    IntDenotes(n);
    QuotedDenotes("ready_ms");
    G.DenotedIsPadded(Number(n), G.JNumber(n));
    G.MemberText(Quoted("ready_ms"), Number(n), ready);
    G.MemberBetween("", text, "\n  ", ready);
    NothingBefore(text, "\n  ");
    G.MembersOne(text + "\n  ", ready);
  }

  lemma {:induction false} NothingBefore(a: string, b: string)
    ensures "" + a + b == a + b
  {
  }

  lemma {:induction false} SummaryRender(lib: Library)
    ensures Render(SummaryTokens(lib)) ==
            ",\n  " + (Quoted("summary") + ": " + ("{" + SummaryInside(lib) + "}") + "\n}\n")
  {
    hide Number, Quoted, SummaryFields, Items;
    var items, ready := Items(SummaryFields(lib), SUMMARY_SEP), Bare("ready_ms", Number(lib.readyMs) + "\n  }\n}\n");
    RenderConcat([Raw(HEAD_SEP)], Bare("summary", "{\n    ") + (items + ready));
    RenderConcat(Bare("summary", "{\n    "), items + ready);
    RenderConcat(items, ready);
    RenderRaw(HEAD_SEP);
    BareText("summary", "{\n    ");
    BareText("ready_ms", Number(lib.readyMs) + "\n  }\n}\n");
    SummaryParts(Quoted("summary"), Render(items), Quoted("ready_ms"), Number(lib.readyMs));
  }

  lemma {:induction false} SummaryParts(summary: string, items: string, ready: string, n: string)
    ensures summary + (": " + "{\n    ") + (items + (ready + (": " + (n + "\n  }\n}\n")))) ==
            summary + ": " + ("{" + ("\n    " + (items + (ready + ": " + n + "\n  ")) + "") + "}") + "\n}\n"
  {
  }

  /** What stands behind the head of the document. */
  function BodyInside(lib: Library): string {
    Quoted("systems") + ": " + ("[" + ("\n" + Render(SystemList(lib)) + "\n  ") + "]") + ","
    + ("\n  " + (Quoted("summary") + ": " + ("{" + SummaryInside(lib) + "}")) + "\n")
  }

  lemma {:induction false} BodyMembers(lib: Library)
    ensures G.Members(BodyInside(lib), LibraryJson(lib).members[5..])
  {
    hide G.White, G.Member, G.Elements, Quoted, SummaryInside, SummaryPairs, SystemJsons, SystemList, AllDenote;
    var ps := LibraryJson(lib).members[5..];
    Indents();
    SystemListElements(lib);
    G.ElementsBetween("\n", Render(SystemList(lib)), "\n  ", SystemJsons(lib, 0));
    ArrayMember("systems", "\n" + Render(SystemList(lib)) + "\n  ", SystemJsons(lib, 0));
    SummaryMembers(lib);
    ObjectMember("summary", SummaryInside(lib), ps[1].value.members);
    var summary := Quoted("summary") + ": " + ("{" + SummaryInside(lib) + "}");
    G.MemberBetween("\n  ", summary, "\n", ps[1]);
    assert G.Members("\n  " + summary + "\n", [ps[1]]);
    G.MembersCons(Quoted("systems") + ": " + ("[" + ("\n" + Render(SystemList(lib)) + "\n  ") + "]"),
                  "\n  " + summary + "\n", ps[0], [ps[1]]);
    assert [ps[0]] + [ps[1]] == ps;
  }

  lemma {:induction false} SystemListElements(lib: Library)
    ensures G.Elements(Render(SystemList(lib)), SystemJsons(lib, 0))
  {
    hide G.Elements, G.Denotes, G.White, SystemBlocks, SystemJsons, Blocks;
    Indents();
    SystemsDenote(lib, 0);
    BlocksElements(SystemBlocks(lib, 0), SystemJsons(lib, 0), "    ", "\n    ");
    assert "," + "\n    " == ",\n    ";
  }

  lemma {:induction false} IndexRender(lib: Library)
    ensures Render(IndexTokens(lib)) ==
            "" + ("{" + ("\n  " + (Render(Items(HeadFields(lib), HEAD_SEP)) + BodyInside(lib)) + "") + "}") + "\n"
  {
    hide Quoted, HeadFields, Items, SystemList, SummaryTokens, SummaryInside;
    var head, list, close := Items(HeadFields(lib), HEAD_SEP), SystemList(lib), [Raw("\n  " + "]")];
    var systems := Bare("systems", "[" + "\n");
    RenderConcat([Raw("{\n  ")] + head, systems + (list + (close + SummaryTokens(lib))));
    RenderConcat([Raw("{\n  ")], head);
    RenderConcat(systems, list + (close + SummaryTokens(lib)));
    RenderConcat(list, close + SummaryTokens(lib));
    RenderConcat(close, SummaryTokens(lib));
    RenderRaw("{\n  ");
    RenderRaw("\n  " + "]");
    BareText("systems", "[" + "\n");
    SummaryRender(lib);
    IndexParts(Render(head), Quoted("systems"), Render(list), Quoted("summary") + ": " + ("{" + SummaryInside(lib) + "}"));
  }

  lemma {:induction false} IndexParts(head: string, systems: string, list: string, summary: string)
    ensures "{\n  " + head + (systems + (": " + ("[" + "\n")) + (list + ("\n  " + "]" + (",\n  " + (summary + "\n}\n"))))) ==
            "" + ("{" + ("\n  " + (head + (systems + ": " + ("[" + ("\n" + list + "\n  ") + "]") + ","
                                           + ("\n  " + summary + "\n"))) + "") + "}") + "\n"
  {
  }

  /** The index of any library is a JSON text of exactly its value. */
  lemma {:induction false} IndexIsJson(lib: Library)
    ensures G.Padded(Render(IndexTokens(lib)), LibraryJson(lib))
  {
    hide G.Denotes, G.White, G.Members, AllStand, HeadFields, HeadPairs, Items, BodyInside, IndexTokens;
    var ps := LibraryJson(lib).members;
    var text := Render(Items(HeadFields(lib), HEAD_SEP)) + BodyInside(lib);
    Indents();
    HeadStands(lib);
    BodyMembers(lib);
    FiveFirst(lib);
    ItemsThen(HeadFields(lib), HeadPairs(lib), "\n  ", BodyInside(lib), ps[5..]);
    assert "," + "\n  " == HEAD_SEP;
    G.MembersBetween("\n  ", text, "", ps);
    G.ObjectText("\n  " + text + "", ps);
    G.DenotedIsPadded("{" + ("\n  " + text + "") + "}", LibraryJson(lib));
    G.PaddedBetween("", "{" + ("\n  " + text + "") + "}", "\n", LibraryJson(lib));
    IndexRender(lib);
  }

  lemma {:induction false} FiveFirst(lib: Library)
    ensures |LibraryJson(lib).members| == 7
    ensures LibraryJson(lib).members == HeadPairs(lib) + LibraryJson(lib).members[5..]
    ensures |LibraryJson(lib).members[5..]| == 2
  {
  }
}
