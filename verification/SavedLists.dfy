/**
 Files that hold lists of entries: their text, the loop that loads them, what any saved list reads
 back as, and when that is the list itself. The concrete files (favorites, recently played games,
 core overrides) instantiate it.
 */
module SavedLists {
  import opened Common
  import opened JsonText
  import opened JsonReader
  import opened JsonObjects

  const FILE_HEAD: seq<Token> := [Raw("{\n  "), Str("version"), Raw(": 1,\n  ")]
  const FILE_END := "\n}\n"

  /** `"name": [` and the lines of a list, up to the closing bracket. */
  function SectionTokens(name: string, entries: seq<seq<Field>>): seq<Token> {
    [Str(name), Raw(": "), Raw("[\n")] + ListTokens(entries) + [Raw("]")]
  }

  function BodyText(entries: seq<seq<Field>>): string {
    "\n" + Render(ListTokens(entries))
  }

  lemma {:induction false} SectionRender(name: string, entries: seq<seq<Field>>)
    ensures Render(SectionTokens(name, entries)) == Quoted(name) + (": " + ("[" + BodyText(entries) + "]"))
  {
    var list := ListTokens(entries);
    SectionHead(name);
    RenderConcat([Str(name), Raw(": "), Raw("[\n")] + list, [Raw("]")]);
    RenderConcat([Str(name), Raw(": "), Raw("[\n")], list);
    RenderRaw("]");
    SectionParts(Quoted(name), Render(list));
  }

  lemma {:induction false} SectionParts(q: string, list: string)
    ensures q + ": [\n" + list + "]" == q + (": " + ("[" + ("\n" + list) + "]"))
  {
  }

  lemma {:induction false} SectionHead(name: string)
    ensures Render([Str(name), Raw(": "), Raw("[\n")]) == Quoted(name) + ": [\n"
  {
    var open: seq<Token> := [Raw("[\n")];
    assert open[1..] == [] && Render(open) == "[\n";
    RawInFront(": ", open, "", "");
    assert [Raw(": ")] + open == [Raw(": "), Raw("[\n")];
    assert [Str(name), Raw(": "), Raw("[\n")][1..] == [Raw(": "), Raw("[\n")];
    assert ": " + "[\n" == ": [\n";
  }

  lemma {:induction false} NamedValue(name: string, v: string)
    requires Ident(name) && v != "" && !Space(v[0])
    ensures FindKey(Quoted(name) + (": " + v), name) == Some(v)
  {
    ValueAfterColon(v, "");
    assert ": " + v + "" == ": " + v && v + "" == v;
    FindKeyAtLiteral(name, ": " + v, name);
  }

  lemma {:induction false} OtherName(name: string, v: string, key: string)
    requires Ident(name) && Ident(key) && key != name
    ensures FindKey(Quoted(name) + (": " + v), key) == FindKey(v, key)
  {
    FindKeyAtLiteral(name, ": " + v, key);
    FindKeySkips(": ", v, key);
  }

  lemma {:induction false} BodyMatches(entries: seq<seq<Field>>, rest: string)
    requires GoodEntries(entries)
    ensures var body := BodyText(entries);
            MatchContainer("[" + body + "]" + rest, '[', ']') == Some(|body| + 2)
  {
    var inner := [Raw("\n")] + ListTokens(entries);
    ListDepth(entries);
    FlatDepth([Raw("\n")], '[', ']', 1);
    DepthConcat([Raw("\n")], ListTokens(entries), '[', ']', 1);
    RawInFront("\n", ListTokens(entries), "", "");
    MatchTokens(inner, rest, '[', ']');
  }

  lemma {:induction false} Regroup(q: string, body: string, rest: string)
    ensures q + (": " + ("[" + body + "]")) + rest == q + (": " + ("[" + body + "]" + rest))
    ensures ("[" + body + "]" + rest)[1..|body| + 1] == body
  {
  }

  /** The text of a section with what follows it. */
  lemma {:induction false} SectionText(name: string, entries: seq<seq<Field>>, rest: string)
    ensures Render(SectionTokens(name, entries)) + rest ==
            Quoted(name) + (": " + ("[" + BodyText(entries) + "]" + rest))
  {
    SectionRender(name, entries);
    Regroup(Quoted(name), BodyText(entries), rest);
  }

  /** The list section is found by its name and delimited by its brackets. */
  lemma {:induction false} SectionBody(name: string, entries: seq<seq<Field>>, rest: string)
    requires Ident(name) && GoodEntries(entries)
    ensures FindContainer(Render(SectionTokens(name, entries)) + rest, name, '[', ']') == Some(BodyText(entries))
  {
    SectionText(name, entries, rest);
    BodyMatches(entries, rest);
    ListBody(name, BodyText(entries), rest);
  }

  lemma {:induction false} ListBody(name: string, body: string, rest: string)
    requires Ident(name) && MatchContainer("[" + body + "]" + rest, '[', ']') == Some(|body| + 2)
    ensures FindContainer(Quoted(name) + (": " + ("[" + body + "]" + rest)), name, '[', ']') == Some(body)
  {
    Regroup("", body, rest);
    NamedValue(name, "[" + body + "]" + rest);
  }

  /** A section with another name, and its text, can be scanned over. */
  lemma {:induction false} SectionSkipped(name: string, entries: seq<seq<Field>>, rest: string, key: string)
    requires Ident(name) && GoodEntries(entries) && KeyUnused(entries, key) && Ident(key) && key != name
    ensures FindKey(Render(SectionTokens(name, entries)) + rest, key) == FindKey(rest, key)
  {
    SectionText(name, entries, rest);
    OtherName(name, "[" + BodyText(entries) + "]" + rest, key);
    BodySkipped(entries, rest, key);
  }

  lemma {:induction false} BodySkipped(entries: seq<seq<Field>>, rest: string, key: string)
    requires GoodEntries(entries) && KeyUnused(entries, key) && Ident(key)
    ensures FindKey("[" + BodyText(entries) + "]" + rest, key) == FindKey(rest, key)
  {
    var list := ListTokens(entries);
    var tail := Render(list) + ("]" + rest);
    assert "[" + BodyText(entries) + "]" + rest == "[\n" + tail;
    FindKeySkips("[\n", tail, key);
    ListSpaced(entries, "]" + rest, key);
    FindKeyInDocument(list, "]" + rest, key);
    FindKeySkips("]", rest, key);
  }

  lemma {:induction false} HeadSkipped(rest: string, key: string)
    requires Ident(key) && key != "version"
    ensures FindKey(Render(FILE_HEAD) + rest, key) == FindKey(rest, key)
  {
    HeadText("{\n  ", "version", ": 1,\n  ", rest);
    HeadParts();
    LeadSkipped("{\n  ", "version", ": 1,\n  ", rest, key);
  }

  lemma {:induction false} HeadParts()
    ensures Ident("version") && '"' !in "{\n  " && '"' !in ": 1,\n  " && !IdentChar(": 1,\n  "[0])
  {
    assert ": 1,\n  "[0] == ':';
  }

  lemma {:induction false} HeadText(open: string, name: string, value: string, rest: string)
    ensures Render([Raw(open), Str(name), Raw(value)]) + rest == open + (Quoted(name) + (value + rest))
  {
    var tail: seq<Token> := [Raw(value)];
    var named: seq<Token> := [Str(name)] + tail;
    assert [Raw(open), Str(name), Raw(value)] == [Raw(open)] + named;
    assert ([Raw(open)] + named)[1..] == named && named[1..] == tail && tail[1..] == [];
    assert Render(tail) == value + Render([]) && value + "" == value;
    assert Render(named) == Quoted(name) + value;
    assert open + (Quoted(name) + value) + rest == open + (Quoted(name) + (value + rest));
  }

  /** A named number in front of the text with the key. */
  lemma {:induction false} LeadSkipped(open: string, name: string, value: string, rest: string, key: string)
    requires '"' !in open && '"' !in value && value != "" && !IdentChar(value[0])
    requires Ident(name) && Ident(key) && key != name
    ensures FindKey(open + (Quoted(name) + (value + rest)), key) == FindKey(rest, key)
  {
    FindKeySkips(open, Quoted(name) + (value + rest), key);
    FindKeyAtLiteral(name, value + rest, key);
    FindKeySkips(value, rest, key);
  }

  // ----- loading -----

  /** The loading loop: objects of the list body one by one, until the table is full. */
  function LoadEntries<T>(body: string, sofar: seq<T>, max: nat, add: (seq<T>, string) -> seq<T>): seq<T>
    decreases |body|
  {
    if |sofar| >= max then sofar
    else
      match NextObject(body)
      case None => sofar
      case Some(r) => LoadEntries(r.1, add(sofar, r.0), max, add)
  }

  /** The printed forms of a list of entries. */
  function FieldLists<T>(entries: seq<T>, fieldsOf: T -> seq<Field>): seq<seq<Field>> {
    seq(|entries|, i requires 0 <= i < |entries| => fieldsOf(entries[i]))
  }

  lemma {:induction false} OneLonger<T>(s: seq<T>, i: nat)
    requires i < |s|
    ensures s[..i] + [s[i]] == s[..i + 1]
  {
  }

  /** The printed entries one by one. */
  function EntryTexts(lists: seq<seq<Field>>): (texts: seq<string>)
    ensures |texts| == |lists|
  {
    seq(|lists|, i requires 0 <= i < |lists| => EntryText(lists[i]))
  }

  /** Objects added one after the other, until the table is full. */
  function AddAll<T>(sofar: seq<T>, objs: seq<string>, max: nat, add: (seq<T>, string) -> seq<T>): seq<T>
    decreases |objs|
  {
    if |sofar| >= max || objs == [] then sofar else AddAll(add(sofar, objs[0]), objs[1..], max, add)
  }

  /** The same for entries instead of their texts. */
  function KeepAll<T>(sofar: seq<T>, entries: seq<T>, max: nat, keep: (seq<T>, T) -> seq<T>): seq<T>
    decreases |entries|
  {
    if |sofar| >= max || entries == [] then sofar else KeepAll(keep(sofar, entries[0]), entries[1..], max, keep)
  }

  lemma {:induction false} AddIsKeep<T(!new)>(sofar: seq<T>, entries: seq<T>, objs: seq<string>, max: nat,
                                              add: (seq<T>, string) -> seq<T>, keep: (seq<T>, T) -> seq<T>)
    requires |objs| == |entries|
    requires forall s, i :: 0 <= i < |objs| ==> add(s, objs[i]) == keep(s, entries[i])
    ensures AddAll(sofar, objs, max, add) == KeepAll(sofar, entries, max, keep)
    decreases |objs|
  {
    if |sofar| < max && objs != [] {
      assert add(sofar, objs[0]) == keep(sofar, entries[0]);
      forall s, i | 0 <= i < |objs[1..]|
        ensures add(s, objs[1..][i]) == keep(s, entries[1..][i])
      {
        assert add(s, objs[i + 1]) == keep(s, entries[i + 1]);
      }
      AddIsKeep(add(sofar, objs[0]), entries[1..], objs[1..], max, add, keep);
    }
  }

  /** Entries that are kept alike give the same table. */
  lemma {:induction false} KeepsSame<T(!new)>(sofar: seq<T>, a: seq<T>, b: seq<T>, max: nat,
                                              keep: (seq<T>, T) -> seq<T>)
    requires |a| == |b| && forall s, i :: 0 <= i < |a| ==> keep(s, a[i]) == keep(s, b[i])
    ensures KeepAll(sofar, a, max, keep) == KeepAll(sofar, b, max, keep)
    decreases |a|
  {
    if |sofar| < max && a != [] {
      assert keep(sofar, a[0]) == keep(sofar, b[0]);
      forall s, i | 0 <= i < |a[1..]|
        ensures keep(s, a[1..][i]) == keep(s, b[1..][i])
      {
        assert keep(s, a[i + 1]) == keep(s, b[i + 1]);
      }
      KeepsSame(keep(sofar, a[0]), a[1..], b[1..], max, keep);
    }
  }

  /** Loading printed lines is adding their entries. */
  lemma {:induction false} ListLoads<T>(lists: seq<seq<Field>>, sofar: seq<T>, add: (seq<T>, string) -> seq<T>, max: nat,
                                        pre: string)
    requires GoodEntries(lists) && '{' !in pre
    ensures LoadEntries(pre + Render(ListTokens(lists)), sofar, max, add) == AddAll(sofar, EntryTexts(lists), max, add)
    decreases |lists|
  {
    if |sofar| < max {
      var body := pre + Render(ListTokens(lists));
      if lists == [] {
        NoLines(pre);
      } else {
        FirstLine(lists, pre);
        var end := LineEnd(lists);
        LoadStep(body, sofar, max, add, EntryText(lists[0]), end + Render(ListTokens(lists[1..])));
        assert EntryTexts(lists)[1..] == EntryTexts(lists[1..]);
        ListLoads(lists[1..], add(sofar, EntryText(lists[0])), add, max, end);
      }
    }
  }

  // ----- when a list comes back as it was -----

  /** A loader adds an object behind what there is, or ignores it. */
  ghost predicate AddsOne<T(!new)>(add: (seq<T>, string) -> seq<T>) {
    forall s, obj :: s <= add(s, obj) && |add(s, obj)| <= |s| + 1
  }

  /** Adding the printed form of each entry to the ones before it appends that entry. */
  ghost predicate AddsBack<T>(entries: seq<T>, objs: seq<string>, add: (seq<T>, string) -> seq<T>)
    requires |objs| == |entries|
  {
    forall i :: 0 <= i < |entries| ==> add(entries[..i], objs[i]) == entries[..i + 1]
  }

  lemma {:induction false} AddAllBounds<T(!new)>(sofar: seq<T>, objs: seq<string>, max: nat,
                                                 add: (seq<T>, string) -> seq<T>)
    requires AddsOne(add)
    ensures var r := AddAll(sofar, objs, max, add);
            sofar <= r && |r| <= |sofar| + |objs| && (|r| == |sofar| || |r| <= max)
    decreases |objs|
  {
    if |sofar| < max && objs != [] {
      var next := add(sofar, objs[0]);
      assert sofar <= next && |next| <= |sofar| + 1;
      AddAllBounds(next, objs[1..], max, add);
    }
  }

  /** The rest of a list comes back if and only if it fits and every entry in it is added back. */
  lemma {:induction false} AddedBack<T(!new)>(entries: seq<T>, objs: seq<string>, i: nat, max: nat,
                                              add: (seq<T>, string) -> seq<T>)
    requires |objs| == |entries| && i <= |entries| && AddsOne(add)
    ensures AddAll(entries[..i], objs[i..], max, add) == entries <==>
            i == |entries| || (|entries| <= max && forall k :: i <= k < |entries| ==>
                                 add(entries[..k], objs[k]) == entries[..k + 1])
    decreases |entries| - i
  {
    if i == |entries| {
      assert entries[..i] == entries;
    } else if i < max {
      var next := add(entries[..i], objs[i]);
      assert entries[..i] <= next && |next| <= i + 1;
      assert objs[i..][1..] == objs[i + 1..];
      if next == entries[..i + 1] {
        AddedBack(entries, objs, i + 1, max, add);
      } else {
        AddAllBounds(next, objs[i + 1..], max, add);
      }
    }
  }

  function LineEnd(lists: seq<seq<Field>>): (end: string)
    ensures '{' !in end
  {
    if |lists| > 1 then ",\n" else "\n"
  }

  lemma {:induction false} NoLines(pre: string)
    requires '{' !in pre
    ensures NextObject(pre + Render(ListTokens([]))) == None
  {
    assert [Raw("  ")][1..] == [];
    assert Render(ListTokens([])) == "  ";
    NoMoreEntries(pre + "  ");
  }

  lemma {:induction false} LoadStep<T>(body: string, sofar: seq<T>, max: nat, add: (seq<T>, string) -> seq<T>,
                                       obj: string, rest: string)
    requires |sofar| < max && NextObject(body) == Some((obj, rest))
    ensures LoadEntries(body, sofar, max, add) == LoadEntries(rest, add(sofar, obj), max, add)
  {
  }

  /** The first entry of a printed list, and what remains. */
  lemma {:induction false} FirstLine(lists: seq<seq<Field>>, pre: string)
    requires lists != [] && GoodFields(lists[0]) && '{' !in pre
    ensures NextObject(pre + Render(ListTokens(lists))) ==
            Some((EntryText(lists[0]), LineEnd(lists) + Render(ListTokens(lists[1..]))))
  {
    var end := LineEnd(lists);
    var rest := Render(ListTokens(lists[1..]));
    RenderConcat(LineTokens(lists[0], end), ListTokens(lists[1..]));
    LineRender(lists[0], end);
    LineParts(pre, "    ", EntryText(lists[0]), end, rest);
    NextEntry(pre + "    ", lists[0], end + rest);
  }

  lemma {:induction false} LineParts(a: string, b: string, c: string, d: string, e: string)
    ensures a + ((b + c + d) + e) == (a + b) + c + (d + e)
  {
  }

  lemma {:induction false} LineRender(fields: seq<Field>, end: string)
    ensures Render(LineTokens(fields, end)) == "    " + EntryText(fields) + end
  {
    assert [Raw(end)][1..] == [];
    RenderConcat(EntryTokens(fields), [Raw(end)]);
    RawInFront("    ", EntryTokens(fields) + [Raw(end)], "", "");
    assert Render([Raw(end)]) == end;
  }

  /** What loading a printed list of any entries gives. */
  lemma {:induction false} ListReadsBack<T>(lists: seq<seq<Field>>, add: (seq<T>, string) -> seq<T>, max: nat)
    requires GoodEntries(lists)
    ensures LoadEntries(BodyText(lists), [], max, add) == AddAll([], EntryTexts(lists), max, add)
  {
    ListLoads(lists, [], add, max, "\n");
  }

  /** The loop gives back the list itself if and only if it fits and every entry is added back. */
  lemma {:induction false} ListRoundTrip<T(!new)>(entries: seq<T>, lists: seq<seq<Field>>,
                                                  add: (seq<T>, string) -> seq<T>, max: nat)
    requires GoodEntries(lists) && |lists| == |entries| && AddsOne(add)
    ensures LoadEntries(BodyText(lists), [], max, add) == entries <==>
            |entries| <= max && AddsBack(entries, EntryTexts(lists), add)
  {
    ListReadsBack(lists, add, max);
    AddedBack(entries, EntryTexts(lists), 0, max, add);
    assert entries[..0] == [] && EntryTexts(lists)[0..] == EntryTexts(lists);
  }

  // ----- a file with one list -----

  function ListFile(name: string, entries: seq<seq<Field>>): string {
    Render(FILE_HEAD) + (Render(SectionTokens(name, entries)) + FILE_END)
  }

  /** The list of a saved file is found whole. */
  lemma {:induction false} ListFileBody(name: string, entries: seq<seq<Field>>)
    requires Ident(name) && name != "version" && GoodEntries(entries)
    ensures FindContainer(ListFile(name, entries), name, '[', ']') == Some(BodyText(entries))
  {
    FirstBody(name, entries, FILE_END);
  }

  // ----- a file with two lists -----

  function TwoListFile(name1: string, entries1: seq<seq<Field>>, name2: string, entries2: seq<seq<Field>>): string {
    Render(FILE_HEAD)
    + (Render(SectionTokens(name1, entries1)) + (",\n  " + (Render(SectionTokens(name2, entries2)) + FILE_END)))
  }

  /** Both lists are found, the second one behind everything the first one contains. */
  lemma {:induction false} TwoListFileBodies(name1: string, entries1: seq<seq<Field>>, name2: string,
                                             entries2: seq<seq<Field>>)
    requires Ident(name1) && Ident(name2) && name1 != name2 && name1 != "version" && name2 != "version"
    requires GoodEntries(entries1) && GoodEntries(entries2) && KeyUnused(entries1, name2)
    ensures var text := TwoListFile(name1, entries1, name2, entries2);
            && FindContainer(text, name1, '[', ']') == Some(BodyText(entries1))
            && FindContainer(text, name2, '[', ']') == Some(BodyText(entries2))
  {
    FirstBody(name1, entries1, ",\n  " + (Render(SectionTokens(name2, entries2)) + FILE_END));
    SecondBody(name1, entries1, name2, entries2);
  }

  lemma {:induction false} FirstBody(name: string, entries: seq<seq<Field>>, rest: string)
    requires Ident(name) && name != "version" && GoodEntries(entries)
    ensures FindContainer(Render(FILE_HEAD) + (Render(SectionTokens(name, entries)) + rest), name, '[', ']')
            == Some(BodyText(entries))
  {
    var section := Render(SectionTokens(name, entries)) + rest;
    HeadSkipped(section, name);
    SameFind(Render(FILE_HEAD) + section, section, name);
    SectionBody(name, entries, rest);
  }

  /** Texts in which the scan finds the same have the same list under that name. */
  lemma {:induction false} SameFind(a: string, b: string, name: string)
    requires FindKey(a, name) == FindKey(b, name)
    ensures FindContainer(a, name, '[', ']') == FindContainer(b, name, '[', ']')
  {
  }

  lemma {:induction false} SecondBody(name1: string, entries1: seq<seq<Field>>, name2: string,
                                      entries2: seq<seq<Field>>)
    requires Ident(name1) && Ident(name2) && name1 != name2 && name2 != "version"
    requires GoodEntries(entries1) && GoodEntries(entries2) && KeyUnused(entries1, name2)
    ensures FindContainer(TwoListFile(name1, entries1, name2, entries2), name2, '[', ']') == Some(BodyText(entries2))
  {
    var second := Render(SectionTokens(name2, entries2)) + FILE_END;
    FirstSkipped(name1, entries1, ",\n  ", second, name2);
    SameFind(TwoListFile(name1, entries1, name2, entries2), second, name2);
    SectionBody(name2, entries2, FILE_END);
  }

  /** The head of the file and its first list hold no such key. */
  lemma {:induction false} FirstSkipped(name: string, entries: seq<seq<Field>>, sep: string, rest: string, key: string)
    requires Ident(name) && Ident(key) && name != key && key != "version" && '"' !in sep
    requires GoodEntries(entries) && KeyUnused(entries, key)
    ensures FindKey(Render(FILE_HEAD) + (Render(SectionTokens(name, entries)) + (sep + rest)), key) == FindKey(rest, key)
  {
    HeadSkipped(Render(SectionTokens(name, entries)) + (sep + rest), key);
    SectionSkipped(name, entries, sep + rest, key);
    FindKeySkips(sep, rest, key);
  }
}
