/**
 The saved-state code as the program runs it: cursors moving over the text, an output buffer that
 grows, and tables that are shifted in place. Each method equals the function that the theorems
 about printing and reading are about.
 */
module StateStores {
  import opened Common
  import opened JsonText
  import opened JsonReader
  import opened JsonObjects
  import opened SavedLists
  import opened StateFiles

  // ----- reading with a cursor -----

  lemma {:induction false} SliceStep(s: string, i: nat)
    requires i < |s|
    ensures s[i..] != "" && s[i..][0] == s[i] && s[i..][1..] == s[i + 1..]
    ensures i + 1 < |s| ==> s[i..][1] == s[i + 1] && s[i..][2..] == s[i + 2..]
  {
  }

  method SkipSpaceFrom(json: string, start: nat) returns (p: nat)
    requires start <= |json|
    ensures start <= p <= |json| && json[p..] == SkipSpace(json[start..])
  {
    p := start;
    while p < |json| && Space(json[p])
      invariant start <= p <= |json|
      invariant SkipSpace(json[p..]) == SkipSpace(json[start..])
    {
      SliceStep(json, p);
      p := p + 1;
    }
  }

  /** What `json_decode_string` has still to do: `done` decoded, the rest to be read. */
  ghost function Decoding(done: string, rest: string): Option<(string, string)> {
    match DecodeBody(rest)
    case Some(r) => Some((done + r.0, r.1))
    case None => None
  }

  lemma {:induction false} DecodingStart(t: string)
    ensures Decoding("", t) == DecodeBody(t)
  {
    if DecodeBody(t).Some? {
      assert "" + DecodeBody(t).value.0 == DecodeBody(t).value.0;
    }
  }

  lemma {:induction false} DecodingStep(done: string, t: string)
    requires t != "" && t[0] != '"'
    ensures if t[0] == '\\' && |t| > 1 then Decoding(done, t) == Decoding(done + [Unescape(t[1])], t[2..])
            else Decoding(done, t) == Decoding(done + [t[0]], t[1..])
  {
    var escaped := t[0] == '\\' && |t| > 1;
    var c := if escaped then Unescape(t[1]) else t[0];
    var rest := if escaped then t[2..] else t[1..];
    if DecodeBody(rest).Some? {
      var r := DecodeBody(rest).value.0;
      assert done + ([c] + r) == (done + [c]) + r;
    }
  }

  lemma {:induction false} FitStep(done: string, c: char, capacity: nat)
    requires capacity > 0
    ensures Fit(done + [c], capacity) ==
            if |Fit(done, capacity)| + 1 < capacity then Fit(done, capacity) + [c] else Fit(done, capacity)
  {
  }

  /** `json_decode_string` */
  method DecodeStringAt(json: string, start: nat, capacity: nat) returns (ok: bool, out: string, next: nat)
    requires start <= |json| && capacity > 0
    ensures match DecodeString(json[start..], capacity)
            case None => !ok
            case Some(r) => ok && out == r.0 && next <= |json| && json[next..] == r.1
  {
    if start >= |json| || json[start] != '"' {
      return false, "", start;
    }
    SliceStep(json, start);
    ok, out, next := DecodeBodyAt(json, start + 1, capacity);
  }

  /** Its loop, from just behind the opening quote. */
  method DecodeBodyAt(json: string, start: nat, capacity: nat) returns (ok: bool, out: string, next: nat)
    requires start <= |json| && capacity > 0
    ensures match DecodeBody(json[start..])
            case None => !ok
            case Some(r) => ok && out == Fit(r.0, capacity) && next <= |json| && json[next..] == r.1
  {
    out := "";
    ghost var done := "";
    var p := start;
    DecodingStart(json[start..]);
    while p < |json| && json[p] != '"'
      invariant start <= p <= |json|
      invariant out == Fit(done, capacity)
      invariant Decoding(done, json[p..]) == DecodeBody(json[start..])
    {
      SliceStep(json, p);
      DecodingStep(done, json[p..]);
      var c, step := json[p], 1;
      if c == '\\' && p + 1 < |json| {
        c, step := Unescape(json[p + 1]), 2;
      }
      FitStep(done, c, capacity);
      if |out| + 1 < capacity {
        out := out + [c];
      }
      done := done + [c];
      p := p + step;
    }
    if p >= |json| {
      return false, "", start;
    }
    SliceStep(json, p);
    assert done + "" == done;
    return true, out, p + 1;
  }

  /** A scan that has to pass over one escaped character first, or not. */
  ghost function ScanOn(t: string, open: char, close: char, depth: int, inString: bool, escape: bool): Option<nat> {
    if escape then if t == "" then None else Shift(Scan(t[1..], open, close, depth, true), 1)
    else Scan(t, open, close, depth, inString)
  }

  /** `json_match_container`: `after` is just past the closing bracket. */
  method MatchContainerAt(json: string, start: nat, open: char, close: char) returns (ok: bool, after: nat)
    requires start <= |json| && open != close && open != '"' && close != '"' && open != '\\' && close != '\\'
    ensures match MatchContainer(json[start..], open, close)
            case None => !ok
            case Some(n) => ok && after == start + n <= |json|
  {
    after := start;
    if start >= |json| || json[start] != open {
      return false, start;
    }
    SliceStep(json, start);
    var depth, inString, escape := 0, false, false;
    var p := start;
    ghost var goal := Scan(json[start..], open, close, 0, false);
    ScanBounds(json[start..], open, close, 0, false);
    while p < |json|
      invariant start <= p <= |json|
      invariant escape ==> inString
      invariant p > start ==> goal == Shift(ScanOn(json[p..], open, close, depth, inString, escape), p - start)
      invariant p == start ==> depth == 0 && !inString && !escape
    {
      SliceStep(json, p);
      if escape {
        escape := false;
      } else if inString && json[p] == '\\' {
        escape := true;
      } else if json[p] == '"' {
        inString := !inString;
      } else if !inString && json[p] == open {
        depth := depth + 1;
      } else if !inString && json[p] == close {
        depth := depth - 1;
        if depth == 0 {
          return true, p + 1;
        }
      }
      p := p + 1;
    }
    return false, start;
  }

  /** The key in quotes and then a colon at position `p`; `value` is where its value starts. */
  method KeyAt(json: string, p: nat, key: string) returns (found: bool, value: nat)
    requires p <= |json|
    ensures found <==> "\"" + key + "\"" <= json[p..] && Colon(json[p..][|key| + 2..])
    ensures found ==> value <= |json| && json[value..] == AfterColon(json[p..][|key| + 2..])
  {
    var pattern := "\"" + key + "\"";
    if !(pattern <= json[p..]) {
      return false, p;
    }
    assert json[p..][|pattern|..] == json[p + |pattern|..];
    var q := SkipSpaceFrom(json, p + |pattern|);
    if q < |json| && json[q] == ':' {
      SliceStep(json, q);
      value := SkipSpaceFrom(json, q + 1);
      return true, value;
    }
    return false, p;
  }

  /** `json_find_key_value` */
  method FindKeyFrom(json: string, start: nat, key: string) returns (found: bool, value: nat)
    requires start <= |json|
    ensures match FindKey(json[start..], key)
            case None => !found
            case Some(v) => found && value <= |json| && json[value..] == v
  {
    var p := start;
    while p < |json|
      invariant start <= p <= |json|
      invariant FindKey(json[p..], key) == FindKey(json[start..], key)
    {
      SliceStep(json, p);
      found, value := KeyAt(json, p, key);
      if found {
        return;
      }
      p := p + 1;
    }
    return false, start;
  }

  /** `json_next_object`: the object's text and the cursor after it. */
  method NextObjectFrom(body: string, cursor: nat) returns (found: bool, obj: string, next: nat)
    requires cursor <= |body|
    ensures match NextObject(body[cursor..])
            case None => !found
            case Some(r) => found && obj == r.0 && next <= |body| && body[next..] == r.1
  {
    obj, next := "", cursor;
    var p := cursor;
    while p < |body| && body[p] != '{'
      invariant cursor <= p <= |body|
      invariant SkipTo(body[p..], '{') == SkipTo(body[cursor..], '{')
    {
      SliceStep(body, p);
      p := p + 1;
    }
    if p >= |body| {
      return false, "", cursor;
    }
    var ok, after := MatchContainerAt(body, p, '{', '}');
    if !ok {
      return false, "", cursor;
    }
    assert body[p..][..after - p] == body[p..after];
    assert body[p..][after - p..] == body[after..];
    return true, body[p..after], after;
  }

  lemma {:induction false} SliceOfTail(s: string, from: nat, to: nat)
    requires from + 2 <= to <= |s|
    ensures s[from + 1..to - 1] == s[from..][1..to - from - 1]
  {
  }

  /** `json_find_array` */
  method FindArray(json: string, key: string) returns (found: bool, body: string)
    ensures match FindContainer(json, key, '[', ']')
            case None => !found
            case Some(b) => found && body == b
  {
    body := "";
    assert json[0..] == json;
    var value;
    found, value := FindKeyFrom(json, 0, key);
    if found {
      var after;
      found, after := MatchContainerAt(json, value, '[', ']');
      if found {
        body := json[value + 1..after - 1];
        SliceOfTail(json, value, after);
      }
    }
  }

  /** `json_get_string` into a buffer that holds `prior`. */
  method GetStringFrom(json: string, key: string, capacity: nat, prior: string) returns (out: string)
    requires capacity > 0
    ensures out == GetString(json, key, capacity, prior)
  {
    assert json[0..] == json;
    var found, value := FindKeyFrom(json, 0, key);
    if !found || "null" <= json[value..] {
      return "";
    }
    var ok, text, _ := DecodeStringAt(json, value, capacity);
    if ok {
      return text;
    }
    return if value < |json| && json[value] == '"' then "" else prior;
  }

  /** The loading loop shared by the saved lists. */
  method LoadList<T>(body: string, max: nat, add: (seq<T>, string) -> seq<T>) returns (entries: seq<T>)
    ensures entries == LoadEntries(body, [], max, add)
  {
    entries := [];
    var cursor := 0;
    assert body[0..] == body;
    while |entries| < max
      invariant cursor <= |body|
      invariant LoadEntries(body[cursor..], entries, max, add) == LoadEntries(body, [], max, add)
      decreases |body| - cursor
    {
      var found, obj, next := NextObjectFrom(body, cursor);
      if !found {
        return;
      }
      assert |body[next..]| < |body[cursor..]|;
      entries := add(entries, obj);
      cursor := next;
    }
  }

  // ----- writing -----

  method WriteField(out: string, f: Field) returns (out': string)
    requires Ident(f.key)
    ensures out' == out + (Quoted(f.key) + ": " + ValueText(f.value))
  {
    EscapeIdent(f.key);
    out' := out + ("\"" + f.key + "\": ");
    assert "\"" + f.key + "\": " == Quoted(f.key) + ": ";
    match f.value {
      case Text(s) => out' := WriteEscaped(out', s);
      case Literal(text) => out' := out' + text;
    }
  }

  /** One entry: its fields with their keys, in order. */
  method WriteEntry(out: string, fields: seq<Field>) returns (out': string)
    requires GoodFields(fields)
    ensures out' == out + EntryText(fields)
  {
    RawInFront("{ ", FieldTokens(fields, ", ", " }"), "", "");
    out' := out + "{ ";
    ghost var goal := out' + Render(FieldTokens(fields, ", ", " }"));
    assert goal == out + EntryText(fields);
    if fields == [] {
      assert [Raw(" }")][1..] == [];
      out' := out' + " }";
      return;
    }
    assert fields[0..] == fields;
    var i := 0;
    while i < |fields|
      invariant i <= |fields|
      invariant if i < |fields| then out' + Render(FieldTokens(fields[i..], ", ", " }")) == goal else out' == goal
    {
      EntryStep(fields, i);
      ghost var before := out';
      ghost var field := Quoted(fields[i].key) + ": " + ValueText(fields[i].value);
      out' := WriteField(out', fields[i]);
      i := i + 1;
      out' := out' + if i < |fields| then ", " else " }";
      if i < |fields| {
        Assoc(before, field, ", ", Render(FieldTokens(fields[i..], ", ", " }")));
      } else {
        Assoc(before, field, " }", "");
      }
    }
  }

  lemma {:induction false} Assoc(out: string, a: string, b: string, c: string)
    ensures out + (a + (b + c)) == out + a + b + c
    ensures out + (a + b) == out + a + b
    ensures out + (a + b + c) == out + a + b + c
  {
  }

  /** The text of the fields from number `i` on, one field unfolded. */
  lemma {:induction false} EntryStep(fields: seq<Field>, i: nat)
    requires i < |fields|
    ensures Render(FieldTokens(fields[i..], ", ", " }")) ==
            Quoted(fields[i].key) + ": " + ValueText(fields[i].value)
            + if i + 1 < |fields| then ", " + Render(FieldTokens(fields[i + 1..], ", ", " }")) else " }"
  {
    var rest := fields[i..];
    assert rest[0] == fields[i] && rest[1..] == fields[i + 1..];
    var first := [Str(fields[i].key), Raw(": "), ValueToken(fields[i].value)];
    var next := AfterField(rest, ", ", " }");
    assert FieldTokens(rest, ", ", " }") == first + next;
    RenderConcat(first, next);
    FieldText(fields[i]);
    if i + 1 < |fields| {
      RawInFront(", ", FieldTokens(fields[i + 1..], ", ", " }"), "", "");
    } else {
      assert [Raw(" }")][1..] == [];
      assert Render([Raw(" }")]) == " }";
    }
  }

  lemma {:induction false} FieldText(f: Field)
    ensures Render([Str(f.key), Raw(": "), ValueToken(f.value)]) == Quoted(f.key) + ": " + ValueText(f.value)
  {
    var v := ValueToken(f.value);
    assert [v][1..] == [] && Render([v]) == ValueText(f.value);
    assert [Raw(": "), v][1..] == [v];
    assert [Str(f.key), Raw(": "), v][1..] == [Raw(": "), v];
  }

  lemma {:induction false} ListStep<T>(entries: seq<T>, fieldsOf: T -> seq<Field>, i: nat)
    requires i < |entries|
    ensures Render(ListTokens(FieldLists(entries[i..], fieldsOf))) ==
            "    " + EntryText(fieldsOf(entries[i])) + (if i + 1 < |entries| then ",\n" else "\n")
            + Render(ListTokens(FieldLists(entries[i + 1..], fieldsOf)))
  {
    var lists := FieldLists(entries[i..], fieldsOf);
    assert lists[0] == fieldsOf(entries[i]) && lists[1..] == FieldLists(entries[i + 1..], fieldsOf);
    var end := if |lists| > 1 then ",\n" else "\n";
    RenderConcat(LineTokens(lists[0], end), ListTokens(lists[1..]));
    LineRender(lists[0], end);
  }

  lemma {:induction false} SectionJoin(out: string, q: string, lines: string)
    ensures out + q + ": [\n" + lines + "]" == out + (q + (": " + ("[" + ("\n" + lines) + "]")))
  {
  }

  method WriteLine(out: string, fields: seq<Field>, end: string) returns (out': string)
    requires GoodFields(fields)
    ensures out' == out + ("    " + EntryText(fields) + end)
  {
    out' := out + "    ";
    out' := WriteEntry(out', fields);
    out' := out' + end;
  }

  /** The lines of a list, and the indent of its closing bracket. */
  method WriteLines<T>(out: string, entries: seq<T>, fieldsOf: T -> seq<Field>) returns (out': string)
    requires GoodEntries(FieldLists(entries, fieldsOf))
    ensures out' == out + Render(ListTokens(FieldLists(entries, fieldsOf)))
  {
    out' := out;
    ghost var goal := out + Render(ListTokens(FieldLists(entries, fieldsOf)));
    assert entries[0..] == entries;
    for i := 0 to |entries|
      invariant out' + Render(ListTokens(FieldLists(entries[i..], fieldsOf))) == goal
    {
      ListStep(entries, fieldsOf, i);
      assert GoodFields(FieldLists(entries, fieldsOf)[i]);
      ghost var line := "    " + EntryText(fieldsOf(entries[i])) + if i + 1 < |entries| then ",\n" else "\n";
      ghost var rest := Render(ListTokens(FieldLists(entries[i + 1..], fieldsOf)));
      Assoc(out', line, rest, "");
      out' := WriteLine(out', fieldsOf(entries[i]), if i + 1 < |entries| then ",\n" else "\n");
    }
    assert ListTokens(FieldLists(entries[|entries|..], fieldsOf)) == [Raw("  ")] && [Raw("  ")][1..] == [];
    out' := out' + "  ";
  }

  /** The list of a saved file, from its name to its closing bracket. */
  method WriteSection<T>(out: string, name: string, entries: seq<T>, fieldsOf: T -> seq<Field>) returns (out': string)
    requires Ident(name) && GoodEntries(FieldLists(entries, fieldsOf))
    ensures out' == out + Render(SectionTokens(name, FieldLists(entries, fieldsOf)))
  {
    ghost var lines := Render(ListTokens(FieldLists(entries, fieldsOf)));
    SectionRender(name, FieldLists(entries, fieldsOf));
    EscapeIdent(name);
    out' := out + ("\"" + name + "\"") + ": [\n";
    out' := WriteLines(out', entries, fieldsOf);
    out' := out' + "]";
    SectionJoin(out, Quoted(name), lines);
  }

  lemma {:induction false} HeadText()
    ensures Render(FILE_HEAD) == "{\n  " + ("\"version\"" + ": 1,\n  ")
  {
    assert Ident("version");
    EscapeIdent("version");
    assert FILE_HEAD[1..] == [Str("version"), Raw(": 1,\n  ")];
    assert FILE_HEAD[1..][1..] == [Raw(": 1,\n  ")] && FILE_HEAD[1..][1..][1..] == [];
    assert Quoted("version") == "\"version\"";
  }

  /** The file of one list. */
  method SaveList<T>(name: string, entries: seq<T>, fieldsOf: T -> seq<Field>) returns (text: string)
    requires Ident(name) && GoodEntries(FieldLists(entries, fieldsOf))
    ensures text == ListFile(name, FieldLists(entries, fieldsOf))
  {
    HeadText();
    text := "{\n  " + ("\"version\"" + ": 1,\n  ");
    text := WriteSection(text, name, entries, fieldsOf);
    text := text + FILE_END;
  }

  // ----- favorites in place -----

  class FavoriteStore {
    var entries: seq<Game>

    constructor ()
      ensures entries == []
    {
      entries := [];
    }

    /** `load_favorites`; a missing file leaves the table empty. */
    method Load(file: Option<string>) returns (ok: bool)
      modifies this
      ensures FavoriteTable(entries)
      ensures match file
              case None => ok && entries == []
              case Some(text) =>
                match LoadFavorites(text)
                case None => !ok && entries == []
                case Some(loaded) => ok && entries == loaded
    {
      entries := [];
      match file {
        case None =>
          return true;
        case Some(text) =>
          var found, body := FindArray(text, "favorites");
          if !found {
            return false;
          }
          LoadedFavoritesDistinct(body, []);
          entries := LoadList(body, MAX_FAVORITES, AddFavorite);
          return true;
      }
    }

    /** `save_favorites` */
    method Save() returns (text: string)
      ensures text == SaveFavorites(entries)
    {
      FavoritesPrint(entries);
      text := SaveList("favorites", entries, GameFields);
    }

    /** `find_favorite` */
    method Find(systemId: string, relativePath: string) returns (index: int)
      ensures -1 <= index < |entries|
      ensures index >= 0 ==> SameGame(entries[index], systemId, relativePath)
      ensures index < 0 <==> !HasFavorite(entries, systemId, relativePath)
    {
      for i := 0 to |entries|
        invariant forall j :: 0 <= j < i ==> !SameGame(entries[j], systemId, relativePath)
      {
        if SameGame(entries[i], systemId, relativePath) {
          return i;
        }
      }
      return -1;
    }

    /** `set_favorite_from_rom`; false when the table is full. */
    method Set(systemId: string, rom: Rom) returns (ok: bool)
      requires FavoriteTable(entries)
      modifies this
      ensures ok <==> old(HasFavorite(entries, systemId, rom.relativePath)) || old(|entries|) < 2048
      ensures !ok ==> entries == old(entries)
      ensures ok && !old(HasFavorite(entries, systemId, rom.relativePath)) ==>
                entries == old(entries) + [FavoriteOf(systemId, rom)]
      ensures old(HasFavorite(entries, systemId, rom.relativePath)) ==>
                exists i :: 0 <= i < |old(entries)| && SameGame(old(entries)[i], systemId, rom.relativePath)
                            && entries == old(entries)[i := FavoriteOf(systemId, rom)]
      ensures |systemId| < 64 && |rom.relativePath| < 1024 ==> FavoriteTable(entries)
      ensures old(GoodFavorites(entries)) && GoodGame(FavoriteOf(systemId, rom)) ==> GoodFavorites(entries)
    {
      var index := Find(systemId, rom.relativePath);
      if index < 0 && |entries| >= MAX_FAVORITES {
        return false;
      }
      if index >= 0 {
        entries := entries[index := FavoriteOf(systemId, rom)];
      } else {
        entries := entries + [FavoriteOf(systemId, rom)];
      }
      return true;
    }

    /** `clear_favorite`: the entries behind the removed one move up. */
    method Clear(systemId: string, relativePath: string)
      requires FavoriteTable(entries)
      modifies this
      ensures FavoriteTable(entries)
      ensures old(GoodFavorites(entries)) ==> GoodFavorites(entries)
      ensures !HasFavorite(entries, systemId, relativePath)
      ensures exists i :: 0 <= i <= old(|entries|)
                && entries == old(entries)[..i] + (if i < old(|entries|) then old(entries)[i + 1..] else [])
                && (i < old(|entries|) ==> SameGame(old(entries)[i], systemId, relativePath))
    {
      var index := Find(systemId, relativePath);
      if index < 0 {
        assert entries == entries[..|entries|] + [];
        return;
      }
      entries := entries[..index] + entries[index + 1..];
    }
  }

  /** The entry that `set_favorite_from_rom` stores; a text too long for its field is dropped. */
  function FavoriteOf(systemId: string, rom: Rom): Game {
    Game(CopyString(systemId, 64), CopyString(rom.relativePath, TEXT_PATH_MAX),
         CopyString(if rom.title != "" then rom.title else rom.relativePath, 256),
         CopyString(rom.fileName, 256), CopyString(rom.path, TEXT_PATH_MAX),
         CopyString(rom.thumbnail, TEXT_PATH_MAX))
  }

  /** Whatever a favorites file contains, the table loaded from it names no game twice. */
  lemma {:induction false} LoadedFavoritesDistinct(body: string, sofar: seq<Game>)
    requires FavoriteTable(sofar)
    ensures FavoriteTable(LoadEntries(body, sofar, MAX_FAVORITES, AddFavorite))
    decreases |body|
  {
    if |sofar| < MAX_FAVORITES && NextObject(body).Some? {
      var r := NextObject(body).value;
      LoadedFavoritesDistinct(r.1, AddFavorite(sofar, r.0));
    }
  }

  /** The same of the recently played games. */
  lemma {:induction false} LoadedRecentsDistinct(body: string, sofar: seq<Recent>)
    requires RecentTable(sofar)
    ensures RecentTable(LoadEntries(body, sofar, MAX_RECENTS, AddRecent))
    decreases |body|
  {
    if |sofar| < MAX_RECENTS && NextObject(body).Some? {
      var r := NextObject(body).value;
      LoadedRecentsDistinct(r.1, AddRecent(sofar, r.0));
    }
  }

  // ----- recents in place -----

  class RecentStore {
    var entries: seq<Recent>

    constructor ()
      ensures entries == []
    {
      entries := [];
    }

    /** `load_recent` */
    method Load(file: Option<string>) returns (ok: bool)
      modifies this
      ensures RecentTable(entries)
      ensures match file
              case None => ok && entries == []
              case Some(text) =>
                match LoadRecents(text)
                case None => !ok && entries == []
                case Some(loaded) => ok && entries == loaded
    {
      entries := [];
      match file {
        case None =>
          return true;
        case Some(text) =>
          if text == "" {
            return true;
          }
          var found, body := FindArray(text, "recents");
          if !found {
            return false;
          }
          LoadedRecentsDistinct(body, []);
          entries := LoadList(body, MAX_RECENTS, AddRecent);
          return true;
      }
    }

    /** `save_recent` */
    method Save() returns (text: string)
      ensures text == SaveRecents(entries)
    {
      RecentsPrint(entries);
      text := SaveList("recents", entries, RecentFields);
    }

    /** `add_recent_entry`: the entry moves or is put to the front; the oldest falls off a full table. */
    method Add(e: Recent)
      requires RecentTable(entries)
      modifies this
      ensures RecentTable(entries)
      ensures old(GoodRecents(entries)) && GoodRecent(e) ==> GoodRecents(entries)
      ensures entries == Promoted(old(entries), e)
    {
      PromotedDistinct(entries, e);
      if GoodRecents(entries) && GoodRecent(e) {
        PromotedGood(entries, e);
      }
      var index := Find(e.game.systemId, e.game.relativePath);
      PromotedFrom(entries, e, index);
      if index >= 0 {
        entries := [e] + entries[..index] + entries[index + 1..];
      } else {
        entries := [e] + if |entries| < MAX_RECENTS then entries else entries[..|entries| - 1];
      }
    }

    /** `find_recent` */
    method Find(systemId: string, relativePath: string) returns (index: int)
      ensures -1 <= index < |entries|
      ensures index >= 0 ==> SameGame(entries[index].game, systemId, relativePath)
      ensures index < 0 ==> forall j :: 0 <= j < |entries| ==> !SameGame(entries[j].game, systemId, relativePath)
    {
      for i := 0 to |entries|
        invariant forall j :: 0 <= j < i ==> !SameGame(entries[j].game, systemId, relativePath)
      {
        if SameGame(entries[i].game, systemId, relativePath) {
          return i;
        }
      }
      return -1;
    }
  }

  /** The entries of other games, in order. */
  function Others(entries: seq<Recent>, e: Recent): seq<Recent> {
    if entries == [] then []
    else
      var n := |entries| - 1;
      Others(entries[..n], e)
      + if SameGame(entries[n].game, e.game.systemId, e.game.relativePath) then [] else [entries[n]]
  }

  /** Most recent first: the entry, then the other games as they were, as many as fit. */
  function Promoted(entries: seq<Recent>, e: Recent): seq<Recent> {
    var all := [e] + Others(entries, e);
    if |all| > 256 then all[..256] else all
  }

  lemma {:induction false} OthersOnly(entries: seq<Recent>, e: Recent)
    ensures |Others(entries, e)| <= |entries|
    ensures forall x :: x in Others(entries, e) ==>
              x in entries && !SameGame(x.game, e.game.systemId, e.game.relativePath)
    ensures DistinctRecents(entries) ==> DistinctRecents(Others(entries, e))
    decreases |entries|
  {
    if entries != [] {
      var n := |entries| - 1;
      var before := Others(entries[..n], e);
      OthersOnly(entries[..n], e);
      assert entries == entries[..n] + [entries[n]];
      if DistinctRecents(entries) {
        forall i | 0 <= i < |before|
          ensures !SameGame(before[i].game, entries[n].game.systemId, entries[n].game.relativePath)
        {
          assert before[i] in entries[..n];
        }
      }
    }
  }

  lemma {:induction false} OthersConcat(a: seq<Recent>, b: seq<Recent>, e: Recent)
    ensures Others(a + b, e) == Others(a, e) + Others(b, e)
    decreases |b|
  {
    if b == [] {
      assert a + b == a;
    } else {
      var n := |b| - 1;
      assert (a + b)[..|a| + n] == a + b[..n];
      OthersConcat(a, b[..n], e);
    }
  }

  /** In a table without duplicates only one entry is of the same game. */
  lemma {:induction false} OthersAround(entries: seq<Recent>, e: Recent, index: nat)
    requires DistinctRecents(entries) && index < |entries|
    requires SameGame(entries[index].game, e.game.systemId, e.game.relativePath)
    ensures Others(entries, e) == entries[..index] + entries[index + 1..]
  {
    var before, x, after := entries[..index], entries[index], entries[index + 1..];
    assert entries == before + ([x] + after);
    OthersKeep(before, e);
    OthersKeep(after, e);
    OthersWithout(before, x, after, e);
  }

  lemma {:induction false} OthersWithout(before: seq<Recent>, x: Recent, after: seq<Recent>, e: Recent)
    requires SameGame(x.game, e.game.systemId, e.game.relativePath)
    requires Others(before, e) == before && Others(after, e) == after
    ensures Others(before + ([x] + after), e) == before + after
  {
    OthersConcat(before, [x] + after, e);
    OthersConcat([x], after, e);
    assert [x][..0] == [];
    assert Others([x], e) == [];
    assert [] + after == after;
  }

  lemma {:induction false} OthersKeep(entries: seq<Recent>, e: Recent)
    requires forall i :: 0 <= i < |entries| ==> !SameGame(entries[i].game, e.game.systemId, e.game.relativePath)
    ensures Others(entries, e) == entries
    decreases |entries|
  {
    if entries != [] {
      OthersKeep(entries[..|entries| - 1], e);
    }
  }

  /** How the new table comes about, given where the entry was found. */
  lemma {:induction false} PromotedFrom(entries: seq<Recent>, e: Recent, index: int)
    requires RecentTable(entries) && -1 <= index < |entries|
    requires index >= 0 ==> SameGame(entries[index].game, e.game.systemId, e.game.relativePath)
    requires index < 0 ==>
               forall j :: 0 <= j < |entries| ==> !SameGame(entries[j].game, e.game.systemId, e.game.relativePath)
    ensures Promoted(entries, e) ==
            if index >= 0 then [e] + entries[..index] + entries[index + 1..]
            else [e] + if |entries| < MAX_RECENTS then entries else entries[..|entries| - 1]
  {
    if index >= 0 {
      OthersAround(entries, e, index);
      assert [e] + entries[..index] + entries[index + 1..] == [e] + (entries[..index] + entries[index + 1..]);
    } else {
      OthersKeep(entries, e);
    }
  }

  /** The new table is one again: no game twice, no more than fit. */
  lemma {:induction false} PromotedDistinct(entries: seq<Recent>, e: Recent)
    requires RecentTable(entries)
    ensures RecentTable(Promoted(entries, e))
  {
    OthersOnly(entries, e);
    var all := [e] + Others(entries, e);
    forall i, j | 0 <= i < j < |all|
      ensures !SameGame(all[i].game, all[j].game.systemId, all[j].game.relativePath)
    {
      assert all[j] in Others(entries, e);
    }
  }

  lemma {:induction false} PromotedGood(entries: seq<Recent>, e: Recent)
    requires GoodRecents(entries) && GoodRecent(e)
    ensures GoodRecents(Promoted(entries, e))
  {
    PromotedDistinct(entries, e);
    OthersOnly(entries, e);
    var all := [e] + Others(entries, e);
    forall i | 0 <= i < |all|
      ensures GoodRecent(all[i])
    {
      if i > 0 {
        assert all[i] in Others(entries, e);
      }
    }
  }

  /**
   A table saved by one run of the program and loaded by the next: every entry restored, and the same
   table if and only if it was a good one.
   */
  method SaveThenLoad(store: FavoriteStore) returns (ok: bool)
    modifies store
    ensures ok && store.entries == KeepAll([], old(store.entries), MAX_FAVORITES, RestoreFavorite)
    ensures store.entries == old(store.entries) <==> old(GoodFavorites(store.entries))
  {
    FavoritesReadBack(store.entries);
    FavoritesRoundTrip(store.entries);
    var text := store.Save();
    ok := store.Load(Some(text));
  }
}
