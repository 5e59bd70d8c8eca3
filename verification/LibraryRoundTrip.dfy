/**
 A written library index up to its systems, from the inside out: a thumbnail in its media object, a
 ROM entry with its fields, the list of a system's entries, and a system among the systems before
 it. At each level the keys that are looked up are shown not to occur earlier, and the brackets that
 are matched are shown to belong together, whatever names the files have. LibraryDocument and
 IndexRoundTrip put the levels together.
 */
module LibraryRoundTrip {
  import opened Common
  import opened Decimal
  import opened JsonText
  import opened JsonReader
  import opened JsonObjects
  import opened SavedLists
  import opened StateFiles
  import opened TokenBlocks
  import opened LibraryIndex

  // ----- a ROM entry -----

  lemma {:induction false} Seps()
    ensures Breaks(ROM_SEP) && NoBrackets(ROM_SEP) && Breaks(SYSTEM_SEP) && NoBrackets(SYSTEM_SEP)
    ensures Breaks(HEAD_SEP) && NoBrackets(HEAD_SEP) && Breaks(SUMMARY_SEP) && NoBrackets(SUMMARY_SEP)
  {
    assert ROM_SEP[0] == SYSTEM_SEP[0] == ',';
    assert SkipSpace(ROM_SEP) == ROM_SEP && SkipSpace(SYSTEM_SEP) == SYSTEM_SEP;
    HeadSeps();
  }

  lemma {:induction false} HeadSeps()
    ensures Breaks(HEAD_SEP) && NoBrackets(HEAD_SEP) && Breaks(SUMMARY_SEP) && NoBrackets(SUMMARY_SEP)
  {
    assert HEAD_SEP[0] == SUMMARY_SEP[0] == ',';
    assert SkipSpace(HEAD_SEP) == HEAD_SEP && SkipSpace(SUMMARY_SEP) == SUMMARY_SEP;
  }

  lemma {:induction false} BraceBreaks(rest: string)
    requires '"' !in rest
    ensures Breaks(" }" + rest)
  {
    assert (" }" + rest)[1..] == "}" + rest;
    assert SkipSpace("}" + rest) == "}" + rest;
    assert SkipSpace(" }" + rest) == "}" + rest;
  }

  lemma {:induction false} ListedRomFieldsGood(systemId: string, rom: Scanned)
    ensures GoodFields(ListedRomFields(systemId, rom))
  {
    assert Ident("id") && Ident("system_id") && Ident("path") && Ident("relative_path") && Ident("file_name");
    assert Ident("title") && Ident("extension") && Ident("directory_alias");
  }

  lemma {:induction false} MediaNames()
    ensures Ident("media") && Ident("thumbnail") && Ident("metadata") && Ident("source")
  {
  }

  lemma {:induction false} ThumbnailNeat(thumbnail: string, rest: seq<Token>, key: string)
    requires Neat(rest)
    ensures Neat(ThumbnailTokens(thumbnail) + rest)
    ensures Mentions(ThumbnailTokens(thumbnail) + rest, key) <==> key == "thumbnail" || Mentions(rest, key)
  {
    MediaNames();
    BraceBreaks("");
    assert " }" + "" == " }";
    if thumbnail == "" {
      BareInFront("thumbnail", "null }", rest, key);
    } else {
      PairInFront("thumbnail", thumbnail, " }", rest, key);
    }
  }

  lemma {:induction false} MetadataNeat(key: string)
    ensures Neat(MetadataTokens())
    ensures Mentions(MetadataTokens(), key) <==> key in {"metadata", "source"}
  {
    var last := Pair("source", "scan", " }\n        ");
    MediaNames();
    BraceBreaks("\n        ");
    assert " }" + "\n        " == " }\n        ";
    PairInFront("source", "scan", " }\n        ", [], key);
    assert last + [] == last;
    BareInFront("metadata", "{ ", last, key);
  }

  lemma {:induction false} MediaNeat(thumbnail: string, key: string)
    ensures Neat(MediaTokens(thumbnail))
    ensures Mentions(MediaTokens(thumbnail), key) <==> key in {"media", "thumbnail", "metadata", "source"}
  {
    var rest := [Raw(ROM_SEP)] + MetadataTokens();
    MediaNames();
    MetadataNeat(key);
    assert rest[1..] == MetadataTokens();
    ThumbnailNeat(thumbnail, rest, key);
    BareInFront("media", "{ ", ThumbnailTokens(thumbnail) + rest, key);
  }

  /** How much deeper the nesting of braces is after tokens, from any depth inside. */
  ghost predicate Sinks(tokens: seq<Token>, change: int) {
    forall depth: nat :: depth > 0 && depth + change > 0 ==> TokenDepth(tokens, '{', '}', depth) == Some(depth + change)
  }

  lemma {:induction false} SinksConcat(a: seq<Token>, b: seq<Token>, m: int, n: int)
    requires Sinks(a, m) && Sinks(b, n) && m >= 0
    ensures Sinks(a + b, m + n)
  {
    forall depth: nat | depth > 0 && depth + m + n > 0
      ensures TokenDepth(a + b, '{', '}', depth) == Some(depth + m + n)
    {
      DepthConcat(a, b, '{', '}', depth);
    }
  }

  lemma {:induction false} OneRaw(text: string, a: string, x: char, b: string)
    requires text == a + [x] + b && NoBrackets(a) && NoBrackets(b) && x in {'{', '}'}
    ensures Sinks([Raw(text)], if x == '{' then 1 else -1)
    ensures Level([Raw(text)], '[', ']')
  {
    assert [Raw(text)][1..] == [];
    forall depth: nat | depth > 0
      ensures TokenDepth([Raw(text)], '[', ']', depth) == Some(depth)
    {
      OneBracket(a, x, b, '[', ']', depth);
    }
    forall depth: nat | depth > 0 && (x == '}' ==> depth > 1)
      ensures TokenDepth([Raw(text)], '{', '}', depth) == Some(if x == '{' then depth + 1 else depth - 1)
    {
      OneBracket(a, x, b, '{', '}', depth);
    }
  }

  /** A literal in front changes no depth. */
  lemma {:induction false} StrInFront(s: string, rest: seq<Token>, change: int)
    requires Sinks(rest, change) && Level(rest, '[', ']')
    ensures Sinks([Str(s)] + rest, change) && Level([Str(s)] + rest, '[', ']')
  {
    assert ([Str(s)] + rest)[1..] == rest;
  }

  lemma {:induction false} ThumbnailDepth(thumbnail: string)
    ensures Sinks(ThumbnailTokens(thumbnail), -1) && Level(ThumbnailTokens(thumbnail), '[', ']')
  {
    if thumbnail == "" {
      assert ": " + "null }" == ": null " + ['}'] + "";
      OneRaw(": " + "null }", ": null ", '}', "");
      StrInFront("thumbnail", [Raw(": " + "null }")], -1);
      assert [Str("thumbnail")] + [Raw(": " + "null }")] == ThumbnailTokens(thumbnail);
    } else {
      PairCloses("thumbnail", thumbnail, " }", "");
    }
  }

  lemma {:induction false} PairCloses(key: string, s: string, sep: string, rest: string)
    requires sep == " }" + rest && NoBrackets(rest)
    ensures Sinks(Pair(key, s, sep), -1) && Level(Pair(key, s, sep), '[', ']')
  {
    assert sep == " " + ['}'] + rest;
    OneRaw(sep, " ", '}', rest);
    StrInFront(s, [Raw(sep)], -1);
    FlatLevel([Raw(": ")], '{', '}');
    FlatLevel([Raw(": ")], '[', ']');
    SinksConcat([Raw(": ")], [Str(s)] + [Raw(sep)], 0, -1);
    LevelConcat([Raw(": ")], [Str(s)] + [Raw(sep)], '[', ']');
    StrInFront(key, [Raw(": ")] + ([Str(s)] + [Raw(sep)]), -1);
    assert [Str(key)] + ([Raw(": ")] + ([Str(s)] + [Raw(sep)])) == Pair(key, s, sep);
  }

  lemma {:induction false} BareOpens(key: string)
    ensures Sinks(Bare(key, "{ "), 1) && Level(Bare(key, "{ "), '[', ']')
  {
    assert ": " + "{ " == ": " + ['{'] + " ";
    OneRaw(": " + "{ ", ": ", '{', " ");
    StrInFront(key, [Raw(": " + "{ ")], 1);
    assert [Str(key)] + [Raw(": " + "{ ")] == Bare(key, "{ ");
  }

  lemma {:induction false} GroupLevel(a: seq<Token>, b: seq<Token>)
    requires Sinks(a, 1) && Sinks(b, -1) && Level(a, '[', ']') && Level(b, '[', ']')
    ensures Level(a + b, '{', '}') && Level(a + b, '[', ']')
  {
    SinksConcat(a, b, 1, -1);
    LevelConcat(a, b, '[', ']');
  }

  lemma {:induction false} MediaLevel(thumbnail: string)
    ensures Level(MediaTokens(thumbnail), '{', '}') && Level(MediaTokens(thumbnail), '[', ']')
  {
    Seps();
    BareOpens("media");
    ThumbnailDepth(thumbnail);
    var first := Bare("media", "{ ") + ThumbnailTokens(thumbnail);
    GroupLevel(Bare("media", "{ "), ThumbnailTokens(thumbnail));
    BareOpens("metadata");
    PairCloses("source", "scan", " }\n        ", "\n        ");
    GroupLevel(Bare("metadata", "{ "), Pair("source", "scan", " }\n        "));
    FlatLevel([Raw(ROM_SEP)], '{', '}');
    FlatLevel([Raw(ROM_SEP)], '[', ']');
    LevelConcat([Raw(ROM_SEP)], MetadataTokens(), '{', '}');
    LevelConcat([Raw(ROM_SEP)], MetadataTokens(), '[', ']');
    LevelConcat(first, [Raw(ROM_SEP)] + MetadataTokens(), '{', '}');
    LevelConcat(first, [Raw(ROM_SEP)] + MetadataTokens(), '[', ']');
    Assoc(Bare("media", "{ "), ThumbnailTokens(thumbnail), [Raw(ROM_SEP)] + MetadataTokens());
  }

  /** A ROM entry's tokens can be scanned over, are one braced group, and name only its own keys. */
  lemma {:induction false} RomInnerGood(systemId: string, rom: Scanned, key: string)
    requires key in {"roms", "systems", "ready_ms"}
    ensures Neat(RomInner(systemId, rom)) && !Mentions(RomInner(systemId, rom), key)
    ensures Level(RomInner(systemId, rom), '{', '}') && Level(RomInner(systemId, rom), '[', ']')
  {
    var fields, media := ListedRomFields(systemId, rom), MediaTokens(rom.thumbnail);
    Seps();
    ListedRomFieldsGood(systemId, rom);
    ItemsNeat(fields, ROM_SEP, key);
    IndexOfMissing(fields, key);
    MediaNeat(rom.thumbnail, key);
    NeatConcat(Items(fields, ROM_SEP), media);
    MentionsConcat(Items(fields, ROM_SEP), media, key);
    assert RomInner(systemId, rom)[1..] == Items(fields, ROM_SEP) + media;
    ItemsFlat(fields, ROM_SEP);
    MediaLevel(rom.thumbnail);
    InnerLevel("\n          ", Items(fields, ROM_SEP), media);
  }

  lemma {:induction false} InnerLevel(open: string, items: seq<Token>, rest: seq<Token>)
    requires NoBrackets(open) && '"' !in open && NoRawBrackets(items)
    requires Level(rest, '{', '}') && Level(rest, '[', ']')
    ensures Level([Raw(open)] + (items + rest), '{', '}') && Level([Raw(open)] + (items + rest), '[', ']')
  {
    FlatLevel([Raw(open)], '{', '}');
    FlatLevel([Raw(open)], '[', ']');
    FlatLevel(items, '{', '}');
    FlatLevel(items, '[', ']');
    LevelConcat(items, rest, '{', '}');
    LevelConcat(items, rest, '[', ']');
    LevelConcat([Raw(open)], items + rest, '{', '}');
    LevelConcat([Raw(open)], items + rest, '[', ']');
  }

  /** The tokens of a block, with its braces. */
  lemma {:induction false} BlockGood(inner: seq<Token>, key: string)
    requires Neat(inner) && !Mentions(inner, key) && Level(inner, '{', '}') && Level(inner, '[', ']')
    ensures Neat(Block(inner)) && !Mentions(Block(inner), key) && Level(Block(inner), '[', ']') && Braced(Block(inner))
    ensures Render(Block(inner)) == "{" + Render(inner) + "}"
  {
    var close := [Raw("}")];
    assert close[1..] == [] && Render(close) == "}";
    NeatConcat(inner, close);
    MentionsConcat(inner, close, key);
    assert Block(inner)[1..] == inner + close;
    RenderConcat(inner, close);
    RawInFront("{", inner + close, "", "");
    assert "{" + (Render(inner) + "}") == "{" + Render(inner) + "}";
    BracedGroup(inner, Block(inner));
    BlockLevel(inner);
  }

  lemma {:induction false} BlockLevel(inner: seq<Token>)
    requires Level(inner, '[', ']')
    ensures Level(Block(inner), '[', ']')
  {
    assert "{" == "" + ['{'] + "" && "}" == "" + ['}'] + "";
    OneRaw("{", "", '{', "");
    OneRaw("}", "", '}', "");
    LevelConcat(inner, [Raw("}")], '[', ']');
    LevelConcat([Raw("{")], inner + [Raw("}")], '[', ']');
  }

  /** The text of a block as its opening brace and indent, its fields, and the rest. */
  lemma {:induction false} BlockText(open: string, items: seq<Token>, rest: seq<Token>)
    requires '"' !in open
    ensures Render(Block([Raw(open)] + (items + rest))) == Render([Raw("{" + open)] + (items + (rest + [Raw("}")])))
  {
    var close := [Raw("}")];
    RawInFront(open, items + rest, "", "");
    RawInFront("{" + open, items + (rest + close), "", "");
    RenderConcat([Raw(open)] + (items + rest), close);
    RenderConcat(items + rest, close);
    RawInFront("{", [Raw(open)] + (items + rest) + close, "", "");
    Assoc(items, rest, close);
    Concatenated("{", open, Render(items + rest), Render(close));
  }

  lemma {:induction false} Concatenated(a: string, b: string, c: string, d: string)
    ensures a + ((b + c) + d) == (a + b) + (c + d)
  {
  }

  // ----- reading a ROM entry back -----

  lemma {:induction false} RomKeys(systemId: string, rom: Scanned)
    ensures var f := ListedRomFields(systemId, rom);
            && |f| == 8 && FirstAt(f, 0) && FirstAt(f, 2) && FirstAt(f, 3) && FirstAt(f, 4) && FirstAt(f, 5)
            && f[0] == Field("id", Text(rom.id)) && f[2] == Field("path", Text(rom.path))
            && f[3] == Field("relative_path", Text(rom.relativePath)) && f[4] == Field("file_name", Text(rom.fileName))
            && f[5] == Field("title", Text(rom.title))
  {
  }

  /** Any string field of a ROM object is read back. */
  lemma {:induction false} ReadRomField(fields: seq<Field>, media: seq<Token>, i: nat, capacity: nat)
    requires GoodFields(fields) && Neat(media) && FirstAt(fields, i) && fields[i].value.Text? && capacity > 0
    ensures GetString(Render(Block([Raw("\n          ")] + (Items(fields, ROM_SEP) + media))), fields[i].key, capacity, "")
            == Back(fields[i].value.s, capacity)
  {
    Seps();
    assert [Raw("}")][1..] == [];
    NeatConcat(media, [Raw("}")]);
    BlockText("\n          ", Items(fields, ROM_SEP), media);
    ReadItem("{" + "\n          ", fields, i, ROM_SEP, media + [Raw("}")], capacity, "");
  }

  /** The thumbnail of the media object: null reads as empty. */
  lemma {:induction false} ReadThumbnailBack(systemId: string, rom: Scanned)
    ensures ReadThumbnail(Render(Block(RomInner(systemId, rom)))) == Back(rom.thumbnail, TEXT_PATH_MAX)
  {
    var fields := ListedRomFields(systemId, rom);
    var open := "{" + "\n          ";
    var before := [Raw(open)] + Items(fields, ROM_SEP);
    var after := [Raw(ROM_SEP)] + MetadataTokens() + [Raw("}")];
    var tail := ThumbnailTokens(rom.thumbnail) + after;
    Seps();
    MediaNames();
    ListedRomFieldsGood(systemId, rom);
    ItemsNeat(fields, ROM_SEP, "media");
    IndexOfMissing(fields, "media");
    assert before[1..] == Items(fields, ROM_SEP);
    AfterNeat();
    ThumbnailNeat(rom.thumbnail, after, "media");
    BareFound(before, "media", "{ ", tail);
    MediaTextIs(fields, rom.thumbnail);
    MediaRead(rom.thumbnail, Render(after));
    RenderConcat(ThumbnailTokens(rom.thumbnail), after);
  }

  lemma {:induction false} AfterNeat()
    ensures Neat([Raw(ROM_SEP)] + MetadataTokens() + [Raw("}")])
  {
    var close := [Raw("}")];
    MetadataNeat("");
    assert close[1..] == [];
    NeatConcat(MetadataTokens(), close);
    assert [Raw(ROM_SEP)] + MetadataTokens() + close == [Raw(ROM_SEP)] + (MetadataTokens() + close);
    assert ([Raw(ROM_SEP)] + (MetadataTokens() + close))[1..] == MetadataTokens() + close;
  }

  lemma {:induction false} MediaTextIs(fields: seq<Field>, thumbnail: string)
    ensures var open := "{" + "\n          ";
            var after := [Raw(ROM_SEP)] + MetadataTokens() + [Raw("}")];
            Render(Block([Raw("\n          ")] + (Items(fields, ROM_SEP) + MediaTokens(thumbnail)))) ==
            Render(([Raw(open)] + Items(fields, ROM_SEP)) + (Bare("media", "{ ") + (ThumbnailTokens(thumbnail) + after)))
  {
    BlockText("\n          ", Items(fields, ROM_SEP), MediaTokens(thumbnail));
    MediaRegroup([Raw("{" + "\n          ")], Items(fields, ROM_SEP), Bare("media", "{ "), ThumbnailTokens(thumbnail),
                 [Raw(ROM_SEP)], MetadataTokens(), [Raw("}")]);
  }

  lemma {:induction false} MediaRegroup(o: seq<Token>, a: seq<Token>, b: seq<Token>, c: seq<Token>, d: seq<Token>,
                                        e: seq<Token>, f: seq<Token>)
    ensures o + (a + ((b + (c + (d + e))) + f)) == (o + a) + (b + (c + (d + e + f)))
  {
  }

  /** The thumbnail's value and the space behind it. */
  function ThumbnailValue(thumbnail: string): string {
    if thumbnail == "" then "null " else Quoted(thumbnail) + " "
  }

  function MediaBody(thumbnail: string): string {
    " " + (Quoted("thumbnail") + (": " + ThumbnailValue(thumbnail)))
  }

  lemma {:induction false} NamedAfterSpace(name: string, v: string)
    requires Ident(name) && v != "" && !Space(v[0])
    ensures FindKey(" " + (Quoted(name) + (": " + v)), name) == Some(v)
  {
    FindKeySkips(" ", Quoted(name) + (": " + v), name);
    NamedValue(name, v);
  }

  lemma {:induction false} MediaBodyRead(thumbnail: string, capacity: nat)
    requires capacity > 0
    ensures GetString(MediaBody(thumbnail), "thumbnail", capacity, "") == Back(thumbnail, capacity)
  {
    MediaNames();
    NamedAfterSpace("thumbnail", ThumbnailValue(thumbnail));
    if thumbnail == "" {
      assert "null " == "null" + " ";
    } else {
      ReadQuoted(thumbnail, " ", capacity);
    }
  }

  lemma {:induction false} ThumbnailText(thumbnail: string)
    ensures "{ " + Render(ThumbnailTokens(thumbnail)) == "{" + MediaBody(thumbnail) + "}"
  {
    if thumbnail == "" {
      BareText("thumbnail", "null }");
      assert "null }" == "null " + "}";
      Closed(Quoted("thumbnail"), "null ", "null }");
    } else {
      PairRender("thumbnail", thumbnail, " }");
      ClosedPair(Quoted("thumbnail"), Quoted(thumbnail));
    }
  }

  lemma {:induction false} ClosedPair(q: string, v: string)
    ensures "{ " + (q + (": " + (v + " }"))) == "{" + (" " + (q + (": " + (v + " ")))) + "}"
  {
    assert v + " }" == (v + " ") + "}";
    Closed(q, v + " ", v + " }");
  }

  lemma {:induction false} Closed(q: string, v: string, w: string)
    requires w == v + "}"
    ensures "{ " + (q + (": " + w)) == "{" + (" " + (q + (": " + v))) + "}"
  {
  }

  function MediaBodyTokens(thumbnail: string): seq<Token> {
    [Raw(" ")] + ([Str("thumbnail"), Raw(": ")] + ValueTokens(thumbnail))
  }

  function ValueTokens(thumbnail: string): seq<Token> {
    if thumbnail == "" then [Raw("null ")] else [Str(thumbnail), Raw(" ")]
  }

  lemma {:induction false} MediaBodyText(thumbnail: string)
    ensures Render(MediaBodyTokens(thumbnail)) == MediaBody(thumbnail)
  {
    var name, value := [Str("thumbnail"), Raw(": ")], ValueTokens(thumbnail);
    RawInFront(" ", name + value, "", "");
    RenderConcat(name, value);
    RenderTwo(Str("thumbnail"), Raw(": "));
    ValueTextIs(thumbnail);
    Spread(Quoted("thumbnail"), ThumbnailValue(thumbnail));
  }

  lemma {:induction false} MediaBodyFlat(thumbnail: string)
    ensures NoRawBrackets(MediaBodyTokens(thumbnail))
  {
    assert NoBrackets(" ") && NoBrackets(": ") && NoBrackets("null ");
  }

  lemma {:induction false} ValueTextIs(thumbnail: string)
    ensures Render(ValueTokens(thumbnail)) == ThumbnailValue(thumbnail)
  {
    if thumbnail == "" {
      assert [Raw("null ")][1..] == [];
    } else {
      RenderTwo(Str(thumbnail), Raw(" "));
    }
  }

  lemma {:induction false} Spread(q: string, v: string)
    ensures " " + ((q + ": ") + v) == " " + (q + (": " + v))
  {
  }

  /** From the text behind "media" to the thumbnail. */
  lemma {:induction false} MediaRead(thumbnail: string, after: string)
    ensures var t := ": " + "{ " + (Render(ThumbnailTokens(thumbnail)) + after) + "";
            && Colon(t)
            && MatchContainer(AfterColon(t), '{', '}') == Some(|MediaBody(thumbnail)| + 2)
            && AfterColon(t)[1..|MediaBody(thumbnail)| + 1] == MediaBody(thumbnail)
            && GetString(MediaBody(thumbnail), "thumbnail", TEXT_PATH_MAX, "") == Back(thumbnail, TEXT_PATH_MAX)
  {
    ThumbnailText(thumbnail);
    MediaShape(Render(ThumbnailTokens(thumbnail)), MediaBody(thumbnail), after);
    ValueAfterColon("{" + MediaBody(thumbnail) + "}" + after, "");
    MediaMatches(thumbnail, after);
    MediaBodyRead(thumbnail, TEXT_PATH_MAX);
  }

  lemma {:induction false} MediaMatches(thumbnail: string, after: string)
    ensures MatchContainer("{" + MediaBody(thumbnail) + "}" + after, '{', '}') == Some(|MediaBody(thumbnail)| + 2)
  {
    MediaBodyText(thumbnail);
    MediaBodyFlat(thumbnail);
    MatchFlat(MediaBodyTokens(thumbnail), MediaBody(thumbnail), after);
  }

  lemma {:induction false} MediaShape(text: string, body: string, after: string)
    requires "{ " + text == "{" + body + "}"
    ensures ": " + "{ " + (text + after) + "" == ": " + ("{" + body + "}" + after) + ""
    ensures ("{" + body + "}" + after)[1..|body| + 1] == body && "{" + body + "}" + after + "" == "{" + body + "}" + after
  {
    assert ": " + "{ " + (text + after) == ": " + ("{ " + text) + after;
  }

  /** A ROM entry is read back as it should be seen. */
  lemma {:induction false} ReadRomBack(systemId: string, rom: Scanned)
    ensures ReadRom(Render(Block(RomInner(systemId, rom)))) == Seen(rom)
  {
    var fields, media := ListedRomFields(systemId, rom), MediaTokens(rom.thumbnail);
    ListedRomFieldsGood(systemId, rom);
    RomKeys(systemId, rom);
    MediaNeat(rom.thumbnail, "id");
    ReadRomField(fields, media, 0, 64);
    ReadRomField(fields, media, 5, 256);
    ReadRomField(fields, media, 4, 256);
    ReadRomField(fields, media, 3, TEXT_PATH_MAX);
    ReadRomField(fields, media, 2, TEXT_PATH_MAX);
    ReadThumbnailBack(systemId, rom);
  }

  // ----- the list of a system -----

  lemma {:induction false} RomBlocksGood(systemId: string, roms: seq<Scanned>, key: string)
    requires key in {"roms", "systems", "ready_ms"}
    ensures var blocks := RomBlocks(systemId, roms);
            forall i :: 0 <= i < |blocks| ==>
              Neat(blocks[i]) && !Mentions(blocks[i], key) && Level(blocks[i], '[', ']') && Braced(blocks[i])
              && Level(blocks[i], '{', '}')
  {
    forall i | 0 <= i < |roms|
      ensures var b := Block(RomInner(systemId, roms[i]));
              Neat(b) && !Mentions(b, key) && Level(b, '[', ']') && Braced(b) && Level(b, '{', '}')
    {
      RomInnerGood(systemId, roms[i], key);
      BlockGood(RomInner(systemId, roms[i]), key);
      BlockBraces(RomInner(systemId, roms[i]));
    }
  }

  lemma {:induction false} BlockBraces(inner: seq<Token>)
    requires Level(inner, '{', '}')
    ensures Level(Block(inner), '{', '}')
  {
    var close := [Raw("}")];
    assert "{" == "" + ['{'] + "" && "}" == "" + ['}'] + "";
    OneRaw("{", "", '{', "");
    OneRaw("}", "", '}', "");
    SinksConcat(inner, close, 0, -1);
    SinksConcat([Raw("{")], inner + close, 1, -1);
  }

  lemma {:induction false} RomBlocksRest(systemId: string, roms: seq<Scanned>)
    requires roms != []
    ensures RomBlocks(systemId, roms)[0] == Block(RomInner(systemId, roms[0]))
    ensures RomBlocks(systemId, roms)[1..] == RomBlocks(systemId, roms[1..])
  {
    var all, rest := RomBlocks(systemId, roms), RomBlocks(systemId, roms[1..]);
    assert |all[1..]| == |rest|;
    forall i | 0 <= i < |rest|
      ensures all[1..][i] == rest[i]
    {
      assert roms[1..][i] == roms[i + 1];
    }
  }

  lemma {:induction false} AllSeenRest(roms: seq<Scanned>)
    requires roms != []
    ensures AllSeen(roms) == [Seen(roms[0])] + AllSeen(roms[1..])
  {
    var all, rest := AllSeen(roms), AllSeen(roms[1..]);
    forall i | 0 <= i < |rest|
      ensures all[i + 1] == rest[i]
    {
      assert roms[1..][i] == roms[i + 1];
    }
  }

  lemma {:induction false} ReadRomsBack(systemId: string, roms: seq<Scanned>)
    ensures ReadRoms(Texts(RomBlocks(systemId, roms))) == AllSeen(roms)
    decreases |roms|
  {
    if roms != [] {
      RomBlocksRest(systemId, roms);
      AllSeenRest(roms);
      ReadRomBack(systemId, roms[0]);
      ReadRomsBack(systemId, roms[1..]);
      assert ([Render(RomBlocks(systemId, roms)[0])] + Texts(RomBlocks(systemId, roms[1..])))[1..] ==
             Texts(RomBlocks(systemId, roms[1..]));
    }
  }

  // ----- a system -----

  lemma {:induction false} SignedNumberGood(n: int)
    ensures var text := Number(n);
            text != "" && !Space(text[0]) && '"' !in text && NoBrackets(text)
  {
    var m := if n < 0 then 0 - n else n;
    DigitsAreDigits(m);
    assert forall i :: 0 <= i < |Digits(m)| ==> Digits(m)[i] != '"' && Digits(m)[i] !in BRACKETS && !Space(Digits(m)[i]);
  }

  lemma {:induction false} DigitsGood(n: nat)
    ensures var text := Digits(n);
            text != "" && !Space(text[0]) && '"' !in text && NoBrackets(text)
  {
    SignedNumberGood(n);
  }

  lemma {:induction false} ListedSystemFieldsGood(system: System, roms: seq<Scanned>)
    ensures GoodFields(ListedSystemFields(system, roms))
  {
    SignedNumberGood(system.sortOrder);
    DigitsGood(|roms|);
    DigitsGood(WithThumbnail(roms));
    assert NoBrackets("true") && NoBrackets("false");
    SystemNames();
    var fields := ListedSystemFields(system, roms);
    assert fields[6].value.text in {"true", "false"};
  }

  lemma {:induction false} SystemNames()
    ensures Ident("id") && Ident("display_name") && Ident("short_name") && Ident("sort_order") && Ident("rom_count")
    ensures Ident("thumbnail_count") && Ident("pinned") && Ident("default_launch_profile")
  {
  }

  /** The list of ROM entries in its brackets, up to the system's closing brace. */
  function RomSection(systemId: string, roms: seq<Scanned>, after: seq<Token>): seq<Token> {
    Bare("roms", "[" + "\n") + (RomList(systemId, roms) + ([Raw("\n      " + "]")] + after))
  }

  lemma {:induction false} RomListGood(systemId: string, roms: seq<Scanned>, key: string)
    requires key in {"roms", "systems", "ready_ms"}
    ensures Neat(RomList(systemId, roms)) && !Mentions(RomList(systemId, roms), key)
    ensures Level(RomList(systemId, roms), '{', '}') && Level(RomList(systemId, roms), '[', ']')
  {
    var blocks := RomBlocks(systemId, roms);
    RomBlocksGood(systemId, roms, key);
    assert NoBrackets("        ") && NoBrackets(",\n        ");
    BlocksNeat(blocks, "        ", ",\n        ", key);
    BlocksLevel(blocks, "        ", ",\n        ", '{', '}');
    BlocksLevel(blocks, "        ", ",\n        ", '[', ']');
  }

  lemma {:induction false} RomSectionNeat(systemId: string, roms: seq<Scanned>, after: seq<Token>, key: string)
    requires key in {"systems", "ready_ms"} && Neat(after) && !Mentions(after, key)
    ensures Neat(RomSection(systemId, roms, after)) && !Mentions(RomSection(systemId, roms, after), key)
  {
    var list := RomList(systemId, roms);
    RomListGood(systemId, roms, key);
    ListTail(list, "\n      ", after);
    assert ([Raw("\n      " + "]")] + after)[1..] == after;
    MentionsConcat(list, [Raw("\n      " + "]")] + after, key);
    assert Ident("roms");
    BareInFront("roms", "[" + "\n", list + ([Raw("\n      " + "]")] + after), key);
  }

  lemma {:induction false} RomSectionLevel(systemId: string, roms: seq<Scanned>, end: string)
    requires NoBrackets(end) && '"' !in end
    ensures Level(RomSection(systemId, roms, [Raw(end)]), '{', '}') && Level(RomSection(systemId, roms, [Raw(end)]), '[', ']')
  {
    var list, open, close := RomList(systemId, roms), Bare("roms", "[" + "\n"), [Raw("\n      " + "]")] + [Raw(end)];
    RomListGood(systemId, roms, "roms");
    forall depth: nat | depth > 0
      ensures TokenDepth(RomSection(systemId, roms, [Raw(end)]), '{', '}', depth) == Some(depth)
      ensures TokenDepth(RomSection(systemId, roms, [Raw(end)]), '[', ']', depth) == Some(depth)
    {
      OpensList(depth);
      ClosesList(end, depth);
      DepthConcat(list, close, '[', ']', depth + 1);
      DepthConcat(list, close, '{', '}', depth);
      DepthConcat(open, list + close, '[', ']', depth);
      DepthConcat(open, list + close, '{', '}', depth);
    }
  }

  lemma {:induction false} OpensList(depth: nat)
    requires depth > 0
    ensures TokenDepth(Bare("roms", "[" + "\n"), '[', ']', depth) == Some(depth + 1)
    ensures TokenDepth(Bare("roms", "[" + "\n"), '{', '}', depth) == Some(depth)
  {
    assert ": " + ("[" + "\n") == ": " + ['['] + "\n";
    OneBracket(": ", '[', "\n", '[', ']', depth);
    OneBracket(": ", '[', "\n", '{', '}', depth);
    var t := Bare("roms", "[" + "\n");
    assert t[1..] == [Raw(": " + ("[" + "\n"))];
    RawDepthOf(": " + ("[" + "\n"), '[', ']', depth);
    RawDepthOf(": " + ("[" + "\n"), '{', '}', depth);
  }

  lemma {:induction false} RawDepthOf(text: string, open: char, close: char, depth: nat)
    ensures TokenDepth([Raw(text)], open, close, depth) == RawDepth(text, open, close, depth)
  {
    assert [Raw(text)][1..] == [];
  }

  lemma {:induction false} ClosesList(end: string, depth: nat)
    requires depth > 0 && NoBrackets(end)
    ensures TokenDepth([Raw("\n      " + "]")] + [Raw(end)], '[', ']', depth + 1) == Some(depth)
    ensures TokenDepth([Raw("\n      " + "]")] + [Raw(end)], '{', '}', depth) == Some(depth)
  {
    assert "\n      " + "]" == "\n      " + [']'] + "";
    OneBracket("\n      ", ']', "", '[', ']', depth + 1);
    OneBracket("\n      ", ']', "", '{', '}', depth);
    NoBracketsKeepDepth(end, '[', ']', depth);
    NoBracketsKeepDepth(end, '{', '}', depth);
    RawDepthOf("\n      " + "]", '[', ']', depth + 1);
    RawDepthOf("\n      " + "]", '{', '}', depth);
    RawDepthOf(end, '[', ']', depth);
    RawDepthOf(end, '{', '}', depth);
    DepthConcat([Raw("\n      " + "]")], [Raw(end)], '[', ']', depth + 1);
    DepthConcat([Raw("\n      " + "]")], [Raw(end)], '{', '}', depth);
  }

  lemma {:induction false} SystemInnerGood(system: System, roms: seq<Scanned>, key: string)
    requires key in {"systems", "ready_ms"}
    ensures Neat(SystemInner(system, roms)) && !Mentions(SystemInner(system, roms), key)
    ensures Level(SystemInner(system, roms), '{', '}') && Level(SystemInner(system, roms), '[', ']')
  {
    var fields := ListedSystemFields(system, roms);
    var section := RomSection(system.id, roms, [Raw("\n    ")]);
    Seps();
    ListedSystemFieldsGood(system, roms);
    ItemsNeat(fields, SYSTEM_SEP, key);
    IndexOfMissing(fields, key);
    assert [Raw("\n    ")][1..] == [];
    RomSectionNeat(system.id, roms, [Raw("\n    ")], key);
    NeatConcat(Items(fields, SYSTEM_SEP), section);
    MentionsConcat(Items(fields, SYSTEM_SEP), section, key);
    assert SystemInner(system, roms)[1..] == Items(fields, SYSTEM_SEP) + section;
    ItemsFlat(fields, SYSTEM_SEP);
    assert NoBrackets("\n    ") && NoBrackets("\n      ");
    RomSectionLevel(system.id, roms, "\n    ");
    InnerLevel("\n      ", Items(fields, SYSTEM_SEP), section);
  }

  /** A system's block with its fields in front and its list behind them. */
  lemma {:induction false} SystemText(system: System, roms: seq<Scanned>)
    ensures Render(Block(SystemInner(system, roms))) ==
            Render([Raw("{" + "\n      ")] + (Items(ListedSystemFields(system, roms), SYSTEM_SEP)
                                              + RomSection(system.id, roms, [Raw("\n    "), Raw("}")])))
  {
    var items := Items(ListedSystemFields(system, roms), SYSTEM_SEP);
    BlockText("\n      ", items, RomSection(system.id, roms, [Raw("\n    ")]));
    SectionMore(Bare("roms", "[" + "\n"), RomList(system.id, roms), [Raw("\n      " + "]")], [Raw("\n    ")], [Raw("}")]);
    assert [Raw("\n    ")] + [Raw("}")] == [Raw("\n    "), Raw("}")];
  }

  lemma {:induction false} SectionMore(a: seq<Token>, b: seq<Token>, c: seq<Token>, d: seq<Token>, e: seq<Token>)
    ensures (a + (b + (c + d))) + e == a + (b + (c + (d + e)))
  {
  }

  lemma {:induction false} EndNeat()
    ensures Neat([Raw("\n    "), Raw("}")]) && !Mentions([Raw("\n    "), Raw("}")], "systems")
  {
    var t: seq<Token> := [Raw("\n    "), Raw("}")];
    assert t[1..] == [Raw("}")] && t[1..][1..] == [];
  }

  lemma {:induction false} ReadSystemId(system: System, roms: seq<Scanned>)
    ensures GetString(Render(Block(SystemInner(system, roms))), "id", 64, "") == Back(system.id, 64)
  {
    Seps();
    ListedSystemFieldsGood(system, roms);
    EndNeat();
    SystemText(system, roms);
    RomSectionNeat(system.id, roms, [Raw("\n    "), Raw("}")], "systems");
    ReadItem("{" + "\n      ", ListedSystemFields(system, roms), 0, SYSTEM_SEP,
             RomSection(system.id, roms, [Raw("\n    "), Raw("}")]), 64, "");
  }

  /** The list under "roms" is found whole. */
  lemma {:induction false} FindRoms(system: System, roms: seq<Scanned>)
    ensures FindContainer(Render(Block(SystemInner(system, roms))), "roms", '[', ']') ==
            Some("\n" + Render(RomList(system.id, roms)) + "\n      ")
  {
    var fields := ListedSystemFields(system, roms);
    Seps();
    ListedSystemFieldsGood(system, roms);
    EndNeat();
    SystemText(system, roms);
    ItemsNeat(fields, SYSTEM_SEP, "roms");
    IndexOfMissing(fields, "roms");
    RomListGood(system.id, roms, "roms");
    RomsFound(Items(fields, SYSTEM_SEP), RomList(system.id, roms), [Raw("\n    "), Raw("}")]);
  }

  lemma {:induction false} RomsFound(items: seq<Token>, list: seq<Token>, after: seq<Token>)
    requires Neat(items) && !Mentions(items, "roms") && Neat(list) && Level(list, '[', ']') && Neat(after)
    ensures FindContainer(
              Render([Raw("{" + "\n      ")]
                     + (items + (Bare("roms", "[" + "\n") + (list + ([Raw("\n      " + "]")] + after))))), "roms", '[', ']')
            == Some("\n" + Render(list) + "\n      ")
  {
    assert Ident("roms") && NoBrackets("\n") && NoBrackets("\n      ");
    FindSection("{" + "\n      ", items, "roms", "\n", list, "\n      ", after);
  }

  /** The objects of a system's list are read back as its entries. */
  lemma {:induction false} ReadSystemRoms(system: System, roms: seq<Scanned>)
    ensures ReadRoms(Objects("\n" + Render(RomList(system.id, roms)) + "\n      ")) == AllSeen(roms)
  {
    RomBlocksGood(system.id, roms, "roms");
    ObjectsOfBlocks(RomBlocks(system.id, roms), "\n", "        ", ",\n        ", "\n      ");
    ReadRomsBack(system.id, roms);
    assert "\n" + Render(RomList(system.id, roms)) + "\n      " == "\n" + (Render(RomList(system.id, roms)) + "\n      ");
  }

  // ----- all systems -----

  /** A block that scans and matching can pass over. */
  ghost predicate Passable(block: seq<Token>, key: string) {
    Neat(block) && !Mentions(block, key) && Level(block, '[', ']') && Braced(block)
  }

  lemma {:induction false} SystemBlocksGood(lib: Library, s: nat, key: string)
    requires s <= |lib.systems| && key in {"systems", "ready_ms"}
    ensures forall i :: 0 <= i < |SystemBlocks(lib, s)| ==> Passable(SystemBlocks(lib, s)[i], key)
    decreases |lib.systems| - s
  {
    if s < |lib.systems| {
      SystemBlocksGood(lib, s + 1, key);
      if Shown(lib, s) {
        SystemBlockGood(lib.systems[s], RomsOf(lib.roms, s), key);
      }
    }
  }

  lemma {:induction false} SystemBlockGood(system: System, roms: seq<Scanned>, key: string)
    requires key in {"systems", "ready_ms"}
    ensures Passable(Block(SystemInner(system, roms)), key)
  {
    SystemInnerGood(system, roms, key);
    BlockGood(SystemInner(system, roms), key);
  }

  lemma {:induction false} SystemListGood(lib: Library, key: string)
    requires key in {"systems", "ready_ms"}
    ensures Neat(SystemList(lib)) && !Mentions(SystemList(lib), key) && Level(SystemList(lib), '[', ']')
  {
    var blocks := SystemBlocks(lib, 0);
    SystemBlocksGood(lib, 0, key);
    assert forall i :: 0 <= i < |blocks| ==> Passable(blocks[i], key);
    assert NoBrackets("    ") && NoBrackets(",\n    ");
    BlocksNeat(blocks, "    ", ",\n    ", key);
    BlocksLevel(blocks, "    ", ",\n    ", '[', ']');
  }

  /** A shown system's text, with its id and its list as they are read. */
  lemma {:induction false} SystemObject(lib: Library, s: nat) returns (obj: string, list: string)
    requires Shown(lib, s)
    ensures Texts(SystemBlocks(lib, s)) == [obj] + Texts(SystemBlocks(lib, s + 1))
    ensures GetString(obj, "id", 64, "") == Back(lib.systems[s].id, 64)
    ensures FindContainer(obj, "roms", '[', ']') == Some(list) && ReadRoms(Objects(list)) == AllSeen(RomsOf(lib.roms, s))
  {
    var system, roms := lib.systems[s], RomsOf(lib.roms, s);
    var block := Block(SystemInner(system, roms));
    obj, list := Render(block), "\n" + Render(RomList(system.id, roms)) + "\n      ";
    assert ([block] + SystemBlocks(lib, s + 1))[1..] == SystemBlocks(lib, s + 1);
    ReadSystemId(system, roms);
    FindRoms(system, roms);
    ReadSystemRoms(system, roms);
  }

  lemma {:induction false} ReadOn(systems: seq<string>, obj: string, later: seq<string>, systemId: string)
    requires systems == [obj] + later && GetString(obj, "id", 64, "") != systemId
    ensures ReadSystem(systems, systemId) == ReadSystem(later, systemId)
  {
    assert systems[1..] == later;
  }

  lemma {:induction false} ReadHere(systems: seq<string>, obj: string, later: seq<string>, systemId: string,
                                    list: string)
    requires systems == [obj] + later && GetString(obj, "id", 64, "") == systemId
    requires FindContainer(obj, "roms", '[', ']') == Some(list)
    ensures ReadSystem(systems, systemId) == Some(ReadRoms(Objects(list)))
  {
  }

  /** The t-th system is the first shown one, from the s-th on, that reads back with its id. */
  predicate FirstWithId(lib: Library, s: nat, t: nat) {
    && s <= t && Shown(lib, t) && Back(lib.systems[t].id, 64) == lib.systems[t].id
    && forall k :: s <= k < t && Shown(lib, k) ==> Back(lib.systems[k].id, 64) != lib.systems[t].id
  }

  lemma {:induction false} ReadSystemBack(lib: Library, s: nat, t: nat)
    requires s <= |lib.systems| && FirstWithId(lib, s, t)
    ensures ReadSystem(Texts(SystemBlocks(lib, s)), lib.systems[t].id) == Some(AllSeen(RomsOf(lib.roms, t)))
    decreases |lib.systems| - s
  {
    if Shown(lib, s) {
      var obj, list := SystemObject(lib, s);
      if s == t {
        ReadHere(Texts(SystemBlocks(lib, s)), obj, Texts(SystemBlocks(lib, s + 1)), lib.systems[t].id, list);
      } else {
        ReadOn(Texts(SystemBlocks(lib, s)), obj, Texts(SystemBlocks(lib, s + 1)), lib.systems[t].id);
        ReadSystemBack(lib, s + 1, t);
      }
    } else {
      assert SystemBlocks(lib, s) == SystemBlocks(lib, s + 1);
      ReadSystemBack(lib, s + 1, t);
    }
  }

  /** No shown system from the s-th on reads back with this id. */
  predicate NoneWithId(lib: Library, s: nat, systemId: string)
    requires s <= |lib.systems|
    decreases |lib.systems| - s
  {
    s == |lib.systems|
    || ((Shown(lib, s) ==> Back(lib.systems[s].id, 64) != systemId) && NoneWithId(lib, s + 1, systemId))
  }

  /** A system that is not in the index has no entries. */
  lemma {:induction false} ReadMissing(lib: Library, s: nat, systemId: string)
    requires s <= |lib.systems| && NoneWithId(lib, s, systemId)
    ensures ReadSystem(Texts(SystemBlocks(lib, s)), systemId) == Some([])
    decreases |lib.systems| - s
  {
    if s < |lib.systems| {
      ReadMissing(lib, s + 1, systemId);
      if Shown(lib, s) {
        var obj, _ := SystemObject(lib, s);
        ReadOn(Texts(SystemBlocks(lib, s)), obj, Texts(SystemBlocks(lib, s + 1)), systemId);
      } else {
        assert SystemBlocks(lib, s) == SystemBlocks(lib, s + 1);
      }
    }
  }
}
