/**
 Writing and loading the library index as the programs do it: text appended piece by piece, with
 commas between entries and systems, and cursors that move on through the text. The written text
 is the document of LibraryIndex and the loaded entries are those of its reading functions, so
 that the round trip of IndexRoundTrip is one of the two programs.
 */
module LibraryStore {
  import opened Common
  import opened Decimal
  import opened JsonText
  import opened JsonReader
  import opened JsonObjects
  import opened StateFiles
  import opened StateStores
  import opened TokenBlocks
  import opened LibraryIndex
  import opened LibraryRoundTrip
  import opened LibraryDocument
  import opened IndexRoundTrip

  // ----- writing -----

  /** One field: its key, its value and what follows it. */
  method WriteItem(out: string, f: Field, sep: string) returns (out': string)
    requires Ident(f.key)
    ensures out' == out + Render(Item(f, sep))
  {
    out' := WriteField(out, f);
    out' := out' + sep;
    ItemText(f, sep);
    Assoc(out, Quoted(f.key) + ": " + ValueText(f.value), sep);
  }

  lemma {:induction false} Assoc(out: string, a: string, b: string)
    ensures out + a + b == out + (a + b)
  {
  }

  lemma {:induction false} ItemText(f: Field, sep: string)
    ensures Render(Item(f, sep)) == Quoted(f.key) + ": " + ValueText(f.value) + sep
  {
    var t := Item(f, sep);
    match f.value {
      case Text(s) =>
        var key, value: seq<Token> := [Str(f.key), Raw(": ")], [Str(s), Raw(sep)];
        assert t == key + value;
        RenderConcat(key, value);
        assert key[1..] == [Raw(": ")] && key[1..][1..] == [] && value[1..] == [Raw(sep)] && value[1..][1..] == [];
        assert Render([Raw(": ")]) == ": " && Render([Raw(sep)]) == sep;
        PairParts(Quoted(f.key), Quoted(s), sep);
      case Literal(text) =>
        var value: seq<Token> := [Raw(": " + (text + sep))];
        assert t == [Str(f.key)] + value && t[1..] == value && value[1..] == [];
        assert Render(value) == ": " + (text + sep) + "";
        BareParts(Quoted(f.key), text, sep);
    }
  }

  lemma {:induction false} PairParts(q: string, v: string, sep: string)
    ensures (q + ": ") + (v + sep) == q + ": " + v + sep
  {
  }

  lemma {:induction false} BareParts(q: string, v: string, sep: string)
    ensures q + (": " + (v + sep) + "") == q + ": " + v + sep
  {
  }

  method WriteItems(out: string, fields: seq<Field>, sep: string) returns (out': string)
    requires GoodFields(fields)
    ensures out' == out + Render(Items(fields, sep))
  {
    out' := out;
    assert fields[0..] == fields;
    for i := 0 to |fields|
      invariant out' + Render(Items(fields[i..], sep)) == out + Render(Items(fields, sep))
    {
      assert fields[i..][1..] == fields[i + 1..];
      RenderConcat(Item(fields[i], sep), Items(fields[i + 1..], sep));
      ghost var before := out';
      assert GoodField(fields[i]);
      out' := WriteItem(out', fields[i], sep);
      Assoc(before, Render(Item(fields[i], sep)), Render(Items(fields[i + 1..], sep)));
    }
    assert out' + "" == out';
  }

  method WriteBare(out: string, key: string, text: string) returns (out': string)
    requires Ident(key)
    ensures out' == out + Render(Bare(key, text))
  {
    EscapeIdent(key);
    BareText(key, text);
    out' := out + ("\"" + key + "\"") + (": " + text);
    Assoc(out, Quoted(key), ": " + text);
  }

  /** The media and metadata objects of one entry. */
  method WriteMedia(out: string, thumbnail: string) returns (out': string)
    ensures out' == out + Render(MediaTokens(thumbnail))
  {
    MediaNames();
    out' := WriteBare(out, "media", "{ ");
    if thumbnail != "" {
      out' := WriteItem(out', Field("thumbnail", Text(thumbnail)), " }");
    } else {
      out' := WriteBare(out', "thumbnail", "null }");
    }
    out' := out' + ROM_SEP;
    out' := WriteBare(out', "metadata", "{ ");
    out' := WriteItem(out', Field("source", Text("scan")), " }\n        ");
    MediaRender(thumbnail);
    FiveParts(out, Render(Bare("media", "{ ")), Render(ThumbnailTokens(thumbnail)), ROM_SEP,
              Render(Bare("metadata", "{ ")), Render(Pair("source", "scan", " }\n        ")));
  }

  lemma {:induction false} FiveParts(out: string, a: string, b: string, c: string, d: string, e: string)
    ensures out + a + b + c + d + e == out + (a + (b + (c + (d + e))))
  {
  }

  lemma {:induction false} MediaRender(thumbnail: string)
    ensures Render(MediaTokens(thumbnail)) ==
            Render(Bare("media", "{ ")) + (Render(ThumbnailTokens(thumbnail))
            + (ROM_SEP + (Render(Bare("metadata", "{ ")) + Render(Pair("source", "scan", " }\n        ")))))
  {
    var metadata := MetadataTokens();
    Seps();
    RenderConcat(Bare("media", "{ "), ThumbnailTokens(thumbnail) + ([Raw(ROM_SEP)] + metadata));
    RenderConcat(ThumbnailTokens(thumbnail), [Raw(ROM_SEP)] + metadata);
    RawInFront(ROM_SEP, metadata, "", "");
    RenderConcat(Bare("metadata", "{ "), Pair("source", "scan", " }\n        "));
  }

  /** One ROM entry. */
  method WriteRom(out: string, systemId: string, rom: Scanned) returns (out': string)
    ensures out' == out + Render(Block(RomInner(systemId, rom)))
  {
    ListedRomFieldsGood(systemId, rom);
    out' := out + ("{" + "\n          ");
    out' := WriteItems(out', ListedRomFields(systemId, rom), ROM_SEP);
    out' := WriteMedia(out', rom.thumbnail);
    out' := out' + "}";
    BlockRender("\n          ", Items(ListedRomFields(systemId, rom), ROM_SEP), MediaTokens(rom.thumbnail));
    FourParts(out, "{" + "\n          ", Render(Items(ListedRomFields(systemId, rom), ROM_SEP)),
              Render(MediaTokens(rom.thumbnail)), "}");
  }

  lemma {:induction false} FourParts(out: string, a: string, b: string, c: string, d: string)
    ensures out + a + b + c + d == out + (a + (b + (c + d)))
  {
  }

  lemma {:induction false} BlockRender(open: string, items: seq<Token>, rest: seq<Token>)
    requires '"' !in open
    ensures Render(Block([Raw(open)] + (items + rest))) == "{" + open + (Render(items) + (Render(rest) + "}"))
  {
    var close := [Raw("}")];
    BlockText(open, items, rest);
    RawInFront("{" + open, items + (rest + close), "", "");
    RenderConcat(items, rest + close);
    RenderConcat(rest, close);
    assert close[1..] == [] && Render(close) == "}";
  }

  /** One more block at the end of a list. */
  lemma {:induction false} BlocksSnoc(blocks: seq<seq<Token>>, block: seq<Token>, first: string, between: string)
    requires '"' !in first && '"' !in between
    ensures Render(Blocks(blocks + [block], first, between)) ==
            Render(Blocks(blocks, first, between)) + ((if blocks == [] then first else between) + Render(block))
    decreases |blocks|
  {
    if blocks == [] {
      assert ([] + [block])[1..] == [];
      RawInFront(first, block + [], "", "");
      assert block + [] == block;
      assert Blocks([block], first, between) == [Raw(first)] + (block + Blocks([], between, between));
      assert "" + (first + Render(block)) == first + Render(block);
    } else {
      assert (blocks + [block])[1..] == blocks[1..] + [block];
      BlocksSnoc(blocks[1..], block, between, between);
      var shorter, longer := Blocks(blocks[1..], between, between), Blocks(blocks[1..] + [block], between, between);
      RawInFront(first, blocks[0] + shorter, "", "");
      RawInFront(first, blocks[0] + longer, "", "");
      RenderConcat(blocks[0], shorter);
      RenderConcat(blocks[0], longer);
      SnocParts(first, Render(blocks[0]), Render(shorter), between + Render(block));
    }
  }

  lemma {:induction false} SnocParts(a: string, b: string, c: string, d: string)
    ensures a + (b + (c + d)) == a + (b + c) + d
  {
  }

  lemma {:induction false} RomsSnoc(roms: seq<Scanned>, i: nat, s: nat)
    requires i < |roms|
    ensures RomsOf(roms[i..], s) == (if roms[i].systemIndex == s then [roms[i]] else []) + RomsOf(roms[i + 1..], s)
  {
    assert roms[i..][1..] == roms[i + 1..];
  }

  lemma {:induction false} RomBlocksSnoc(systemId: string, done: seq<Scanned>, rom: Scanned)
    ensures RomBlocks(systemId, done + [rom]) == RomBlocks(systemId, done) + [Block(RomInner(systemId, rom))]
  {
  }

  lemma {:induction false} RomListSnoc(systemId: string, done: seq<Scanned>, rom: Scanned)
    ensures Render(RomList(systemId, done + [rom])) ==
            Render(RomList(systemId, done))
            + ((if done == [] then "        " else ",\n        ") + Render(Block(RomInner(systemId, rom))))
  {
    RomBlocksSnoc(systemId, done, rom);
    BlocksSnoc(RomBlocks(systemId, done), Block(RomInner(systemId, rom)), "        ", ",\n        ");
  }

  /** The entries of one system, with commas between them. */
  method WriteRoms(out: string, systemId: string, roms: seq<Scanned>, s: nat) returns (out': string)
    ensures out' == out + Render(RomList(systemId, RomsOf(roms, s)))
  {
    out' := out;
    var firstRom := true;
    ghost var done: seq<Scanned> := [];
    assert roms[0..] == roms && out + "" == out;
    for i := 0 to |roms|
      invariant RomsOf(roms, s) == done + RomsOf(roms[i..], s)
      invariant firstRom <==> done == []
      invariant out' == out + Render(RomList(systemId, done))
    {
      RomsSnoc(roms, i, s);
      if roms[i].systemIndex == s {
        out' := WriteNextRom(out, out', systemId, done, roms[i], firstRom);
        Moved(done, roms[i], RomsOf(roms[i + 1..], s));
        done := done + [roms[i]];
        firstRom := false;
      } else {
        assert [] + RomsOf(roms[i + 1..], s) == RomsOf(roms[i + 1..], s);
      }
    }
    assert done + [] == done;
  }

  /** One element moves from what is to come to what is done. */
  lemma {:induction false} Moved<T>(done: seq<T>, x: T, rest: seq<T>)
    ensures done + ([x] + rest) == (done + [x]) + rest
    ensures done + [] == done
  {
  }

  method WriteNextRom(ghost start: string, out: string, systemId: string, ghost done: seq<Scanned>, rom: Scanned,
                      firstRom: bool)
    returns (out': string)
    requires out == start + Render(RomList(systemId, done)) && (firstRom <==> done == [])
    ensures out' == start + Render(RomList(systemId, done + [rom]))
  {
    out' := out + (if firstRom then "        " else ",\n" + "        ");
    out' := WriteRom(out', systemId, rom);
    assert ",\n" + "        " == ",\n        ";
    RomListSnoc(systemId, done, rom);
    TwoParts(start, Render(RomList(systemId, done)), if firstRom then "        " else ",\n        ",
             Render(Block(RomInner(systemId, rom))));
  }

  lemma {:induction false} TwoParts(a: string, b: string, c: string, d: string)
    ensures a + b + c + d == a + (b + (c + d))
  {
  }

  lemma {:induction false} RomsOfConcat(a: seq<Scanned>, b: seq<Scanned>, s: nat)
    ensures RomsOf(a + b, s) == RomsOf(a, s) + RomsOf(b, s)
  {
    if a == [] {
      assert a + b == b && [] + RomsOf(b, s) == RomsOf(b, s);
    } else {
      assert (a + b)[0] == a[0] && (a + b)[1..] == a[1..] + b;
      RomsOfConcat(a[1..], b, s);
    }
  }

  lemma {:induction false} ThumbnailsConcat(a: seq<Scanned>, b: seq<Scanned>)
    ensures WithThumbnail(a + b) == WithThumbnail(a) + WithThumbnail(b)
  {
    if a == [] {
      assert a + b == b;
    } else {
      assert (a + b)[0] == a[0] && (a + b)[1..] == a[1..] + b;
      ThumbnailsConcat(a[1..], b);
    }
  }

  /** The places of one system's entries, and of those with a thumbnail. */
  function Places(roms: seq<Scanned>, s: nat, shown: bool): set<int> {
    set j | 0 <= j < |roms| && roms[j].systemIndex == s && (shown ==> |roms[j].thumbnail| > 0)
  }

  lemma {:induction false} CountsAre(roms: seq<Scanned>, s: nat)
    ensures |RomsOf(roms, s)| == |Places(roms, s, false)|
    ensures WithThumbnail(RomsOf(roms, s)) == |Places(roms, s, true)|
    decreases |roms|
  {
    var n := |roms| - 1;
    if roms != [] {
      CountsAre(roms[..n], s);
      var last := roms[n];
      assert roms == roms[..n] + [last];
      RomsOfConcat(roms[..n], [last], s);
      assert [last][1..] == [];
      var mine := if last.systemIndex == s then [last] else [];
      assert RomsOf([last], s) == mine + [] == mine;
      ThumbnailsConcat(RomsOf(roms[..n], s), mine);
      assert mine != [] ==> mine[1..] == [];
      PlacesSnoc(roms, s, false);
      PlacesSnoc(roms, s, true);
    }
  }

  lemma {:induction false} PlacesSnoc(roms: seq<Scanned>, s: nat, shown: bool)
    requires roms != []
    ensures var n := |roms| - 1;
            Places(roms, s, shown) ==
            Places(roms[..n], s, shown)
            + (if roms[n].systemIndex == s && (shown ==> |roms[n].thumbnail| > 0) then {n} else {})
  {
  }

  /** Counting one system's entries, and those with a thumbnail. */
  method CountRoms(roms: seq<Scanned>, s: nat) returns (count: nat, thumbnails: nat)
    ensures count == |RomsOf(roms, s)| && thumbnails == WithThumbnail(RomsOf(roms, s))
    ensures count == |Places(roms, s, false)| && thumbnails == |Places(roms, s, true)|
  {
    count, thumbnails := 0, 0;
    assert roms[0..] == roms;
    CountsAre(roms, s);
    for i := 0 to |roms|
      invariant count + |RomsOf(roms[i..], s)| == |RomsOf(roms, s)|
      invariant thumbnails + WithThumbnail(RomsOf(roms[i..], s)) == WithThumbnail(RomsOf(roms, s))
    {
      RomsSnoc(roms, i, s);
      if roms[i].systemIndex == s {
        assert ([roms[i]] + RomsOf(roms[i + 1..], s))[1..] == RomsOf(roms[i + 1..], s);
        count := count + 1;
        if roms[i].thumbnail != "" {
          thumbnails := thumbnails + 1;
        }
      } else {
        assert [] + RomsOf(roms[i + 1..], s) == RomsOf(roms[i + 1..], s);
      }
    }
  }

  /** One system: its fields, then its list of entries. */
  method WriteSystem(out: string, system: System, roms: seq<Scanned>, s: nat) returns (out': string)
    ensures out' == out + Render(Block(SystemInner(system, RomsOf(roms, s))))
  {
    ghost var mine := RomsOf(roms, s);
    var count, thumbnails := CountRoms(roms, s);
    ListedSystemFieldsGood(system, mine);
    out' := out + ("{" + "\n      ");
    out' := WriteItems(out', [Field("id", Text(system.id)), Field("display_name", Text(system.displayName)),
                              Field("short_name", Text(system.shortName)), Field("sort_order", Literal(Number(system.sortOrder))),
                              Field("rom_count", Literal(Digits(count))), Field("thumbnail_count", Literal(Digits(thumbnails))),
                              Field("pinned", BoolValue(system.pinned)),
                              Field("default_launch_profile", Text(system.defaultLaunchProfile))], SYSTEM_SEP);
    out' := WriteRomSection(out', system.id, roms, s);
    out' := out' + "}";
    BlockRender("\n      ", Items(ListedSystemFields(system, mine), SYSTEM_SEP), RomSection(system.id, mine, [Raw("\n    ")]));
    FourParts(out, "{" + "\n      ", Render(Items(ListedSystemFields(system, mine), SYSTEM_SEP)),
              Render(RomSection(system.id, mine, [Raw("\n    ")])), "}");
  }

  method WriteRomSection(out: string, systemId: string, roms: seq<Scanned>, s: nat) returns (out': string)
    ensures out' == out + Render(RomSection(systemId, RomsOf(roms, s), [Raw("\n    ")]))
  {
    assert Ident("roms");
    out' := WriteBare(out, "roms", "[" + "\n");
    out' := WriteRoms(out', systemId, roms, s);
    out' := out' + ("\n      " + "]");
    out' := out' + "\n    ";
    SectionRender(Bare("roms", "[" + "\n"), RomList(systemId, RomsOf(roms, s)), "\n      " + "]", "\n    ");
    FourParts(out, Render(Bare("roms", "[" + "\n")), Render(RomList(systemId, RomsOf(roms, s))), "\n      " + "]", "\n    ");
  }

  lemma {:induction false} SectionRender(open: seq<Token>, list: seq<Token>, close: string, end: string)
    ensures Render(open + (list + ([Raw(close)] + [Raw(end)]))) == Render(open) + (Render(list) + (close + end))
  {
    RenderConcat(open, list + ([Raw(close)] + [Raw(end)]));
    RenderConcat(list, [Raw(close)] + [Raw(end)]);
    RenderTwo(Raw(close), Raw(end));
    assert [Raw(close)] + [Raw(end)] == [Raw(close), Raw(end)];
  }

  /** The shown systems, with commas between them. */
  method WriteSystems(out: string, lib: Library) returns (out': string)
    ensures out' == out + Render(SystemList(lib))
  {
    hide Render, Blocks, Block, SystemInner, RomsOf;
    NoBlocks();
    out' := out;
    var firstSystem := true;
    ghost var done: seq<seq<Token>> := [];
    assert out + "" == out;
    for s := 0 to |lib.systems|
      invariant SystemBlocks(lib, 0) == done + SystemBlocks(lib, s)
      invariant firstSystem <==> done == []
      invariant out' == out + Render(Blocks(done, "    ", ",\n    "))
    {
      if lib.systems[s].enabled && (lib.filter.None? || lib.filter.value == lib.systems[s].id) {
        ghost var block;
        out', block := WriteNextSystem(out, out', lib, s, done, firstSystem);
        Moved(done, block, SystemBlocks(lib, s + 1));
        done := done + [block];
        firstSystem := false;
      } else {
        assert SystemBlocks(lib, s) == SystemBlocks(lib, s + 1);
      }
    }
    assert done + [] == done;
  }

  lemma {:induction false} NoBlocks()
    ensures Render(Blocks([], "    ", ",\n    ")) == ""
  {
  }

  method WriteNextSystem(ghost start: string, out: string, lib: Library, s: nat, ghost done: seq<seq<Token>>,
                         firstSystem: bool)
    returns (out': string, ghost block: seq<Token>)
    requires Shown(lib, s)
    requires out == start + Render(Blocks(done, "    ", ",\n    ")) && (firstSystem <==> done == [])
    ensures SystemBlocks(lib, s) == [block] + SystemBlocks(lib, s + 1)
    ensures out' == start + Render(Blocks(done + [block], "    ", ",\n    "))
  {
    block := Block(SystemInner(lib.systems[s], RomsOf(lib.roms, s)));
    out' := out + (if firstSystem then "    " else ",\n" + "    ");
    out' := WriteSystem(out', lib.systems[s], lib.roms, s);
    assert ",\n" + "    " == ",\n    ";
    BlocksSnoc(done, block, "    ", ",\n    ");
    TwoParts(start, Render(Blocks(done, "    ", ",\n    ")), if firstSystem then "    " else ",\n    ", Render(block));
  }

  /** `write_library_index`, up to the text it leaves in the file. */
  method WriteIndex(lib: Library) returns (out: string)
    ensures out == Render(IndexTokens(lib))
  {
    out := WriteHead(lib);
    out := WriteSystemsOpen(out);
    out := WriteSystems(out, lib);
    out := out + ("\n  " + "]");
    out := WriteSummary(out, lib);
    IndexRender(Head(lib), Bare("systems", "[" + "\n"), SystemList(lib), "\n  " + "]", SummaryTokens(lib));
    FourParts(Render(Head(lib)), Render(Bare("systems", "[" + "\n")), Render(SystemList(lib)), "\n  " + "]",
              Render(SummaryTokens(lib)));
  }

  method WriteSystemsOpen(out: string) returns (out': string)
    ensures out' == out + Render(Bare("systems", "[" + "\n"))
  {
    assert Ident("systems");
    out' := WriteBare(out, "systems", "[" + "\n");
  }

  method WriteHead(lib: Library) returns (out: string)
    ensures out == Render(Head(lib))
  {
    HeadFieldsGood(lib);
    out := WriteItems("{\n  ", HeadFields(lib), HEAD_SEP);
    RawInFront("{\n  ", Items(HeadFields(lib), HEAD_SEP), "", "");
  }

  lemma {:induction false} IndexRender(head: seq<Token>, open: seq<Token>, list: seq<Token>, close: string,
                                       summary: seq<Token>)
    ensures Render(head + (open + (list + ([Raw(close)] + summary)))) ==
            Render(head) + (Render(open) + (Render(list) + (close + Render(summary))))
  {
    RenderConcat(head, open + (list + ([Raw(close)] + summary)));
    RenderConcat(open, list + ([Raw(close)] + summary));
    RenderConcat(list, [Raw(close)] + summary);
    RenderConcat([Raw(close)], summary);
    assert [Raw(close)][1..] == [] && close + "" == close;
  }

  method WriteSummary(out: string, lib: Library) returns (out': string)
    ensures out' == out + Render(SummaryTokens(lib))
  {
    SummaryFieldsGood(lib);
    TimeNames();
    out' := out + HEAD_SEP;
    out' := WriteBare(out', "summary", "{\n    ");
    out' := WriteItems(out', SummaryFields(lib), SUMMARY_SEP);
    out' := WriteBare(out', "ready_ms", Number(lib.readyMs) + "\n  }\n}\n");
    SummaryRender(Bare("summary", "{\n    "), Items(SummaryFields(lib), SUMMARY_SEP), ReadyTokens(lib));
    FourParts(out, HEAD_SEP, Render(Bare("summary", "{\n    ")), Render(Items(SummaryFields(lib), SUMMARY_SEP)),
              Render(ReadyTokens(lib)));
  }

  lemma {:induction false} SummaryRender(open: seq<Token>, items: seq<Token>, ready: seq<Token>)
    ensures Render([Raw(HEAD_SEP)] + (open + (items + ready))) == HEAD_SEP + (Render(open) + (Render(items) + Render(ready)))
  {
    Seps();
    RawInFront(HEAD_SEP, open + (items + ready), "", "");
    RenderConcat(open, items + ready);
    RenderConcat(items, ready);
  }

  // ----- loading -----

  /** `json_find_object` */
  method FindObject(json: string, key: string) returns (found: bool, body: string)
    ensures match FindContainer(json, key, '{', '}')
            case None => !found
            case Some(b) => found && body == b
  {
    body := "";
    assert json[0..] == json;
    var value;
    found, value := FindKeyFrom(json, 0, key);
    if found {
      var after;
      found, after := MatchContainerAt(json, value, '{', '}');
      if found {
        body := json[value + 1..after - 1];
        SliceOfTail(json, value, after);
      }
    }
  }

  /** One entry from its object. */
  method LoadRom(obj: string) returns (rom: Rom)
    ensures rom == ReadRom(obj)
  {
    var id := GetStringFrom(obj, "id", 64, "");
    var title := GetStringFrom(obj, "title", 256, "");
    var fileName := GetStringFrom(obj, "file_name", 256, "");
    var relativePath := GetStringFrom(obj, "relative_path", TEXT_PATH_MAX, "");
    var path := GetStringFrom(obj, "path", TEXT_PATH_MAX, "");
    var thumbnail := "";
    var found, media := FindObject(obj, "media");
    if found {
      thumbnail := GetStringFrom(media, "thumbnail", TEXT_PATH_MAX, "");
    }
    if title == "" {
      title := CopyString(if fileName != "" then fileName else relativePath, 256);
    }
    return Rom(id, title, fileName, relativePath, path, thumbnail);
  }

  lemma {:induction false} ReadRomsSnoc(objs: seq<string>, obj: string)
    ensures ReadRoms(objs + [obj]) == ReadRoms(objs) + [ReadRom(obj)]
    decreases |objs|
  {
    if objs == [] {
      assert ([] + [obj])[1..] == [];
    } else {
      assert (objs + [obj])[1..] == objs[1..] + [obj];
      ReadRomsSnoc(objs[1..], obj);
    }
  }

  /** The loop over one system's entries. */
  method LoadEntriesOf(list: string) returns (roms: seq<Rom>)
    ensures roms == ReadRoms(Objects(list))
  {
    roms := [];
    var cursor := 0;
    ghost var done: seq<string> := [];
    assert list[0..] == list;
    while true
      invariant cursor <= |list|
      invariant Objects(list) == done + Objects(list[cursor..])
      invariant roms == ReadRoms(done)
      decreases |list| - cursor
    {
      var found, obj, next := NextObjectFrom(list, cursor);
      if !found {
        assert done + [] == done;
        return;
      }
      assert |list[next..]| < |list[cursor..]|;
      var rom := LoadRom(obj);
      ObjectsStep(list[cursor..], obj, list[next..]);
      ReadRomsSnoc(done, obj);
      Moved(done, obj, Objects(list[next..]));
      done := done + [obj];
      roms := roms + [rom];
      cursor := next;
    }
  }

  /** `json_get_long` */
  method GetLongFrom(json: string, key: string, default: int) returns (n: int)
    ensures n == GetLong(json, key, default)
  {
    assert json[0..] == json;
    var found, value := FindKeyFrom(json, 0, key);
    return if found then ParseLong(json[value..]) else default;
  }

  /** `load_rom_entries`: the entries of one system, or nothing when a list is missing. */
  method LoadRomEntries(text: string, systemId: string) returns (result: Option<(seq<Rom>, int)>)
    ensures result == LoadRoms(text, systemId)
  {
    var readyMs := GetLongFrom(text, "ready_ms", -1);
    var found, body := FindArray(text, "systems");
    if !found {
      return None;
    }
    var cursor := 0;
    assert body[0..] == body;
    while true
      invariant cursor <= |body|
      invariant ReadSystem(Objects(body[cursor..]), systemId) == ReadSystem(Objects(body), systemId)
      decreases |body| - cursor
    {
      var more, system, next := NextObjectFrom(body, cursor);
      if !more {
        return Some(([], readyMs));
      }
      assert |body[next..]| < |body[cursor..]|;
      assert ([system] + Objects(body[next..]))[1..] == Objects(body[next..]);
      var id := GetStringFrom(system, "id", 64, "");
      if id == systemId {
        var ok, list := FindArray(system, "roms");
        if !ok {
          return None;
        }
        var roms := LoadEntriesOf(list);
        return Some((roms, readyMs));
      }
      cursor := next;
    }
  }

  /** Writing the index and loading it, as the two programs do one after the other. */
  method ScanThenLoad(lib: Library, t: nat) returns (result: Option<(seq<Rom>, int)>)
    requires Wanted(lib, t) && Back(lib.systems[t].id, 64) == lib.systems[t].id
    requires forall k: nat :: k < t && Wanted(lib, k) ==> Back(lib.systems[k].id, 64) != lib.systems[t].id
    ensures result == Some((AllSeen(RomsOf(lib.roms, t)), lib.readyMs))
  {
    var text := WriteIndex(lib);
    IndexReadsBack(lib, t);
    result := LoadRomEntries(text, lib.systems[t].id);
  }
}
