/**
 The library index as a whole document: its head, the systems section and the summary. The systems
 section is found whole between its brackets, and the scan's total time is read from the summary
 although every system in front of it is full of other keys and texts.
 */
module LibraryDocument {
  import opened Common
  import opened Decimal
  import opened JsonText
  import opened JsonReader
  import opened JsonObjects
  import opened TokenBlocks
  import opened LibraryIndex
  import opened LibraryRoundTrip

  lemma {:induction false} HeadFieldsGood(lib: Library)
    ensures GoodFields(HeadFields(lib))
  {
    SignedNumberGood(lib.generatedAt);
    assert Ident("version") && Ident("generated_by") && Ident("generated_at_unix") && Ident("sdcard_root");
    assert Ident("plumos_root") && NoBrackets("1");
  }

  lemma {:induction false} CounterNames()
    ensures Ident("system_count") && Ident("alias_dirs_found") && Ident("files_seen") && Ident("files_matched")
    ensures Ident("rom_count") && Ident("thumbnail_count") && Ident("thumbnail_lookup_deferred")
  {
  }

  lemma {:induction false} TimeNames()
    ensures Ident("load_ms") && Ident("scan_ms") && Ident("sort_ms") && Ident("ready_ms") && Ident("summary")
  {
  }

  lemma {:induction false} SummaryFieldsGood(lib: Library)
    ensures GoodFields(SummaryFields(lib))
  {
    CounterNames();
    TimeNames();
    CountGood("system_count", |lib.systems|);
    CountGood("alias_dirs_found", lib.aliasDirs);
    CountGood("files_seen", lib.filesSeen);
    CountGood("files_matched", lib.filesMatched);
    CountGood("rom_count", |lib.roms|);
    CountGood("thumbnail_count", lib.thumbnails);
    TruthGood("thumbnail_lookup_deferred", !lib.resolveThumbnails);
    TimeGood("load_ms", lib.loadMs);
    TimeGood("scan_ms", lib.scanMs);
    TimeGood("sort_ms", lib.sortMs);
  }

  lemma {:induction false} CountGood(key: string, n: nat)
    requires Ident(key)
    ensures GoodField(Field(key, Literal(Digits(n))))
  {
    DigitsGood(n);
  }

  lemma {:induction false} TimeGood(key: string, n: int)
    requires Ident(key)
    ensures GoodField(Field(key, Literal(Number(n))))
  {
    SignedNumberGood(n);
  }

  lemma {:induction false} TruthGood(key: string, b: bool)
    requires Ident(key)
    ensures GoodField(Field(key, BoolValue(b)))
  {
    assert NoBrackets("true") && NoBrackets("false");
  }

  function ReadyTokens(lib: Library): seq<Token> {
    Bare("ready_ms", Number(lib.readyMs) + "\n  }\n}\n")
  }

  lemma {:induction false} ReadyNeat(lib: Library, key: string)
    ensures Neat(ReadyTokens(lib)) && (Mentions(ReadyTokens(lib), key) <==> key == "ready_ms")
  {
    SignedNumberGood(lib.readyMs);
    TimeNames();
    BareInFront("ready_ms", Number(lib.readyMs) + "\n  }\n}\n", [], key);
    assert ReadyTokens(lib) + [] == ReadyTokens(lib);
  }

  lemma {:induction false} SummaryNeat(lib: Library)
    ensures Neat(SummaryTokens(lib))
  {
    var items := Items(SummaryFields(lib), SUMMARY_SEP);
    Seps();
    TimeNames();
    SummaryFieldsGood(lib);
    ItemsNeat(SummaryFields(lib), SUMMARY_SEP, "");
    ReadyNeat(lib, "");
    NeatConcat(items, ReadyTokens(lib));
    BareInFront("summary", "{\n    ", items + ReadyTokens(lib), "");
    assert SummaryTokens(lib)[1..] == Bare("summary", "{\n    ") + (items + ReadyTokens(lib));
  }

  function Head(lib: Library): seq<Token> {
    [Raw("{\n  ")] + Items(HeadFields(lib), HEAD_SEP)
  }

  lemma {:induction false} HeadNeat(lib: Library, key: string)
    requires key in {"systems", "ready_ms"}
    ensures Neat(Head(lib)) && !Mentions(Head(lib), key)
  {
    Seps();
    HeadFieldsGood(lib);
    ItemsNeat(HeadFields(lib), HEAD_SEP, key);
    IndexOfMissing(HeadFields(lib), key);
    assert Head(lib)[1..] == Items(HeadFields(lib), HEAD_SEP);
  }

  /** The systems section of the index is found whole. */
  lemma {:induction false} FindSystems(lib: Library)
    ensures FindContainer(Render(IndexTokens(lib)), "systems", '[', ']') ==
            Some("\n" + Render(SystemList(lib)) + "\n  ")
  {
    HeadNeat(lib, "systems");
    SystemListGood(lib, "systems");
    SummaryNeat(lib);
    FindSystemsIn(Head(lib), SystemList(lib), SummaryTokens(lib));
  }

  lemma {:induction false} FindSystemsIn(head: seq<Token>, list: seq<Token>, summary: seq<Token>)
    requires Neat(head) && !Mentions(head, "systems") && Neat(list) && Level(list, '[', ']') && Neat(summary)
    ensures FindContainer(Render(head + (Bare("systems", "[" + "\n") + (list + ([Raw("\n  " + "]")] + summary)))),
                          "systems", '[', ']') ==
            Some("\n" + Render(list) + "\n  ")
  {
    assert Ident("systems") && NoBrackets("\n") && NoBrackets("\n  ");
    FindList(head, "systems", "\n", list, "\n  ", summary);
  }

  /** Everything before the last field of the summary. */
  function BeforeReady(lib: Library): seq<Token> {
    Head(lib)
    + (Bare("systems", "[" + "\n")
       + (SystemList(lib)
          + ([Raw("\n  " + "]")]
             + ([Raw(HEAD_SEP)] + (Bare("summary", "{\n    ") + Items(SummaryFields(lib), SUMMARY_SEP))))))
  }

  lemma {:induction false} BeforeReadyIs(lib: Library)
    ensures IndexTokens(lib) == BeforeReady(lib) + (ReadyTokens(lib) + [])
  {
    var a, b, c, d := Head(lib), Bare("systems", "[" + "\n"), SystemList(lib), [Raw("\n  " + "]")];
    Reassociate(a, b, c, d, [Raw(HEAD_SEP)], Bare("summary", "{\n    "), Items(SummaryFields(lib), SUMMARY_SEP),
                ReadyTokens(lib));
  }

  lemma {:induction false} Reassociate(a: seq<Token>, b: seq<Token>, c: seq<Token>, d: seq<Token>, e: seq<Token>,
                                       f: seq<Token>, g: seq<Token>, h: seq<Token>)
    ensures a + (b + (c + (d + (e + (f + (g + h)))))) == (a + (b + (c + (d + (e + (f + g)))))) + (h + [])
  {
  }

  lemma {:induction false} BeforeReadyNeat(lib: Library)
    ensures Neat(BeforeReady(lib)) && !Mentions(BeforeReady(lib), "ready_ms")
  {
    var key := "ready_ms";
    var items := Items(SummaryFields(lib), SUMMARY_SEP);
    Seps();
    SummaryFieldsGood(lib);
    ItemsNeat(SummaryFields(lib), SUMMARY_SEP, key);
    IndexOfMissing(SummaryFields(lib), key);
    SystemListGood(lib, key);
    HeadNeat(lib, key);
    CloseNeat(SystemList(lib), items, key);
    FinishNeat(Head(lib), SystemList(lib) + ([Raw("\n  " + "]")] + ([Raw(HEAD_SEP)] + (Bare("summary", "{\n    ") + items))), key);
  }

  lemma {:induction false} CloseNeat(list: seq<Token>, items: seq<Token>, key: string)
    requires Neat(list) && Neat(items) && !Mentions(list, key) && !Mentions(items, key) && key == "ready_ms"
    ensures var all := list + ([Raw("\n  " + "]")] + ([Raw(HEAD_SEP)] + (Bare("summary", "{\n    ") + items)));
            Neat(all) && !Mentions(all, key)
  {
    var summary := [Raw(HEAD_SEP)] + (Bare("summary", "{\n    ") + items);
    var close := [Raw("\n  " + "]")] + summary;
    assert Ident("summary");
    BareInFront("summary", "{\n    ", items, key);
    assert summary[1..] == Bare("summary", "{\n    ") + items && close[1..] == summary;
    NeatConcat(list, close);
    MentionsConcat(list, close, key);
  }

  lemma {:induction false} FinishNeat(head: seq<Token>, rest: seq<Token>, key: string)
    requires Neat(head) && Neat(rest) && !Mentions(head, key) && !Mentions(rest, key) && key != "systems"
    ensures Neat(head + (Bare("systems", "[" + "\n") + rest)) && !Mentions(head + (Bare("systems", "[" + "\n") + rest), key)
  {
    assert Ident("systems");
    BareInFront("systems", "[" + "\n", rest, key);
    NeatConcat(head, Bare("systems", "[" + "\n") + rest);
    MentionsConcat(head, Bare("systems", "[" + "\n") + rest, key);
  }

  /** The scan's total time is read from the summary, however many systems come before it. */
  lemma {:induction false} ReadyBack(lib: Library)
    ensures GetLong(Render(IndexTokens(lib)), "ready_ms", -1) == lib.readyMs
  {
    var text := Number(lib.readyMs) + "\n  }\n}\n";
    SignedNumberGood(lib.readyMs);
    TimeNames();
    BeforeReadyNeat(lib);
    BeforeReadyIs(lib);
    BareFound(BeforeReady(lib), "ready_ms", text, []);
    assert ": " + text + Render([]) + "" == ": " + text + "";
    ValueAfterColon(text, "");
    assert text + "" == text;
    NumberParses(lib.readyMs, "\n  }\n}\n");
  }

  lemma {:induction false} NumberParses(n: int, tail: string)
    requires tail == "" || !Digit(tail[0])
    ensures ParseLong(Number(n) + tail) == n
  {
    if n < 0 {
      assert Number(n) == "-" + Digits(0 - n);
      NegativeParses(0 - n, tail);
    } else {
      assert Number(n) == Digits(n);
      DigitsParse(n, tail);
    }
  }

  lemma {:induction false} NegativeParses(m: nat, tail: string)
    requires tail == "" || !Digit(tail[0])
    ensures ParseLong("-" + Digits(m) + tail) == 0 - m
  {
    var u := Digits(m) + tail;
    var t := "-" + Digits(m) + tail;
    DigitsRead(m, tail);
    assert t == "-" + u && t[1..] == u;
    assert SkipSpace(t) == t;
  }
}
