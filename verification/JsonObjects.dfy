/**
 Printed objects and lists of objects, and what the reader finds in them: the value of the first
 field with a key, the numbers and truth values of its fields, and the objects of a list one by
 one, whatever their texts contain.
 */
module JsonObjects {
  import opened Common
  import opened Decimal
  import opened JsonText
  import opened JsonReader

  // ----- fields of one object -----

  lemma {:induction false} SkipSpaceConcat(a: string, b: string)
    requires SkipSpace(a) != ""
    ensures SkipSpace(a + b) == SkipSpace(a) + b
    decreases |a|
  {
    assert (a + b)[0] == a[0] && (a + b)[1..] == a[1..] + b;
    if Space(a[0]) {
      SkipSpaceConcat(a[1..], b);
    }
  }

  lemma {:induction false} SeparatorFollows(sep: string, rest: string)
    requires Separator(sep)
    ensures sep + rest != "" && !IdentChar((sep + rest)[0]) && !Colon(sep + rest)
  {
    SkipSpaceConcat(sep, rest);
  }

  /** `": "` and the value: the reader ends up at the value. */
  lemma {:induction false} ValueAfterColon(value: string, rest: string)
    requires value != "" && !Space(value[0])
    ensures Colon(": " + value + rest)
    ensures AfterColon(": " + value + rest) == value + rest
  {
    var t := ": " + value + rest;
    var u := value + rest;
    assert t[1..] == " " + u && (" " + u)[1..] == u;
    assert SkipSpace(u) == u;
    assert SkipSpace(" " + u) == u;
  }

  function ValueText(v: Value): string {
    RenderToken(ValueToken(v))
  }

  /** The tokens of one field in front of text that separates. */
  lemma {:induction false} FieldSpaced(f: Field, rest: string, key: string)
    requires GoodField(f) && rest != "" && !IdentChar(rest[0]) && !Colon(rest)
    ensures var tokens := [Str(f.key), Raw(": "), ValueToken(f.value)];
            && Spaced(tokens, rest)
            && FindToken(tokens, rest, key) == (if f.key == key then Some(ValueText(f.value) + rest) else None)
            && Render(tokens) == Quoted(f.key) + ": " + ValueText(f.value)
  {
    var v := ValueToken(f.value);
    var tokens := [Str(f.key), Raw(": "), v];
    assert tokens[1..] == [Raw(": "), v] && [Raw(": "), v][1..] == [v] && [v][1..] == [];
    assert Render([v]) == ValueText(f.value) + "" == ValueText(f.value);
    assert Render([Raw(": "), v]) == ": " + ValueText(f.value);
    assert Render([]) + rest == rest;
    assert Spaced([v], rest);
    assert Spaced([Raw(": "), v], rest);
    ValueAfterColon(ValueText(f.value), rest);
    assert Render(tokens[1..]) + rest == ": " + ValueText(f.value) + rest;
    assert FindToken([v], rest, key) == None;
    assert FindToken([Raw(": "), v], rest, key) == None;
  }

  /** The first field with this key, as an index, or the number of fields. */
  function FieldIndex(fields: seq<Field>, key: string): nat {
    if fields == [] || fields[0].key == key then 0 else 1 + FieldIndex(fields[1..], key)
  }

  /** Raw text in front of other tokens changes neither what is found nor whether it can be. */
  lemma {:induction false} RawInFront(text: string, tokens: seq<Token>, rest: string, key: string)
    requires '"' !in text
    ensures Spaced([Raw(text)] + tokens, rest) <==> Spaced(tokens, rest)
    ensures FindToken([Raw(text)] + tokens, rest, key) == FindToken(tokens, rest, key)
    ensures Render([Raw(text)] + tokens) == text + Render(tokens)
  {
    assert ([Raw(text)] + tokens)[1..] == tokens;
  }

  /** What follows a field in its object. */
  function AfterField(fields: seq<Field>, sep: string, close: string): seq<Token>
    requires fields != []
  {
    if |fields| == 1 then [Raw(close)] else [Raw(sep)] + FieldTokens(fields[1..], sep, close)
  }

  lemma {:induction false} AfterFieldSeparates(fields: seq<Field>, sep: string, close: string, rest: string)
    requires fields != [] && Separator(sep) && Separator(close)
    ensures var after := Render(AfterField(fields, sep, close)) + rest;
            after != "" && !IdentChar(after[0]) && !Colon(after)
  {
    var tail := if |fields| == 1 then [] else FieldTokens(fields[1..], sep, close);
    var text := if |fields| == 1 then close else sep;
    RawInFront(text, tail, rest, "");
    assert AfterField(fields, sep, close) == [Raw(text)] + tail;
    SeparatorFollows(text, Render(tail) + rest);
    Assoc(text, Render(tail), rest);
  }

  /** What the scan finds among the fields: the value of the first field with that key. */
  ghost predicate FieldsFind(fields: seq<Field>, sep: string, close: string, rest: string, key: string) {
    var found := FindToken(FieldTokens(fields, sep, close), rest, key);
    var i := FieldIndex(fields, key);
    if i < |fields| then exists tail :: Follows(tail) && found == Some(ValueText(fields[i].value) + tail)
    else found == None
  }

  predicate Follows(tail: string) {
    tail != "" && !IdentChar(tail[0])
  }

  lemma {:induction false} FieldsSpaced(fields: seq<Field>, sep: string, close: string, rest: string, key: string)
    requires GoodFields(fields) && Separator(sep) && Separator(close)
    ensures Spaced(FieldTokens(fields, sep, close), rest)
    ensures FieldsFind(fields, sep, close, rest, key)
    decreases |fields|
  {
    RawInFront(close, [], rest, key);
    assert [Raw(close)] + [] == [Raw(close)];
    if fields != [] {
      var first := [Str(fields[0].key), Raw(": "), ValueToken(fields[0].value)];
      var next := AfterField(fields, sep, close);
      assert FieldTokens(fields, sep, close) == first + next;
      AfterFieldSeparates(fields, sep, close, rest);
      FieldSpaced(fields[0], Render(next) + rest, key);
      if |fields| > 1 {
        FieldsSpaced(fields[1..], sep, close, rest, key);
        RawInFront(sep, FieldTokens(fields[1..], sep, close), rest, key);
      }
      FirstField(fields, sep, close, rest, key);
      SpacedConcat(first, next, rest);
    }
  }

  /** What is found among the fields, once it is known for what follows the first one. */
  lemma {:induction false} FirstField(fields: seq<Field>, sep: string, close: string, rest: string, key: string)
    requires GoodFields(fields) && fields != [] && Separator(sep) && Separator(close)
    requires var next := AfterField(fields, sep, close);
             if |fields| == 1 then FindToken(next, rest, key) == None
             else FindToken(next, rest, key) == FindToken(FieldTokens(fields[1..], sep, close), rest, key)
                  && FieldsFind(fields[1..], sep, close, rest, key)
    ensures FieldsFind(fields, sep, close, rest, key)
  {
    var first := [Str(fields[0].key), Raw(": "), ValueToken(fields[0].value)];
    var next := AfterField(fields, sep, close);
    assert FieldTokens(fields, sep, close) == first + next;
    AfterFieldSeparates(fields, sep, close, rest);
    FieldSpaced(fields[0], Render(next) + rest, key);
    FindTokenConcat(first, next, rest, key);
  }

  function ObjectText(fields: seq<Field>, open: string, sep: string, close: string): string {
    Render(ObjectTokens(fields, open, sep, close))
  }

  lemma {:induction false} ObjectFinds(fields: seq<Field>, open: string, sep: string, close: string, key: string)
    requires GoodFields(fields) && Separator(sep) && Separator(close) && '"' !in open && Ident(key)
    ensures var found := FindKey(ObjectText(fields, open, sep, close), key);
            var i := FieldIndex(fields, key);
            if i < |fields| then exists tail :: Follows(tail) && found == Some(ValueText(fields[i].value) + tail)
            else found == None
  {
    var tokens := FieldTokens(fields, sep, close);
    FieldsSpaced(fields, sep, close, "", key);
    FindKeyInDocument(tokens, "", key);
    assert FindKey("", key) == None;
    FindKeySkips(open, Render(tokens), key);
    assert Render(tokens) + "" == Render(tokens);
    assert ObjectTokens(fields, open, sep, close)[1..] == tokens;
  }

  /** The value of the first field with this key. */
  function Lookup(fields: seq<Field>, key: string): Option<Value> {
    if fields == [] then None
    else if fields[0].key == key then Some(fields[0].value)
    else Lookup(fields[1..], key)
  }

  /** The same when it is a string; "" when there is no such field. */
  function TextOf(fields: seq<Field>, key: string): string {
    match Lookup(fields, key)
    case Some(Text(s)) => s
    case _ => ""
  }

  lemma {:induction false} LookupConcat(a: seq<Field>, b: seq<Field>, key: string)
    ensures Lookup(a + b, key) == if Lookup(a, key).Some? then Lookup(a, key) else Lookup(b, key)
    decreases |a|
  {
    if a == [] {
      assert a + b == b;
    } else {
      assert (a + b)[0] == a[0] && (a + b)[1..] == a[1..] + b;
      LookupConcat(a[1..], b, key);
    }
  }

  lemma {:induction false} LookupIndex(fields: seq<Field>, key: string)
    ensures var i := FieldIndex(fields, key);
            Lookup(fields, key) == if i < |fields| then Some(fields[i].value) else None
    decreases |fields|
  {
    if fields != [] {
      LookupIndex(fields[1..], key);
    }
  }

  /** Where a key first occurs in a written-out list of fields. */
  lemma {:induction false} LookupAt(fields: seq<Field>, i: nat, key: string)
    requires i < |fields| && fields[i].key == key
    requires forall j :: 0 <= j < i ==> fields[j].key != key
    ensures Lookup(fields, key) == Some(fields[i].value)
    decreases i
  {
    if i > 0 {
      assert fields[0].key != key;
      LookupAt(fields[1..], i - 1, key);
    }
  }

  /** Reading a string field of a printed object is looking it up. */
  lemma {:induction false} GetStringIsLookup(fields: seq<Field>, open: string, sep: string, close: string, key: string,
                                             capacity: nat, prior: string)
    requires GoodFields(fields) && Separator(sep) && Separator(close) && '"' !in open && Ident(key)
    requires capacity > 0
    requires Lookup(fields, key).Some? ==> Lookup(fields, key).value.Text?
    ensures GetString(ObjectText(fields, open, sep, close), key, capacity, prior) ==
            Fit(ReadBack(TextOf(fields, key)), capacity)
  {
    ObjectFinds(fields, open, sep, close, key);
    LookupIndex(fields, key);
    var i := FieldIndex(fields, key);
    if i < |fields| {
      var v := FindKey(ObjectText(fields, open, sep, close), key).value;
      var tail :| Follows(tail) && v == ValueText(fields[i].value) + tail;
      ReadQuoted(fields[i].value.s, tail, capacity);
    }
  }

  lemma {:induction false} ReadQuoted(s: string, tail: string, capacity: nat)
    requires capacity > 0
    ensures var v := Quoted(s) + tail;
            !("null" <= v) && DecodeString(v, capacity) == Some((Fit(ReadBack(s), capacity), tail))
  {
    var v := Quoted(s) + tail;
    assert v[0] == '"';
    assert v[1..] == Escape(s) + "\"" + tail;
    DecodeEscaped(s, tail);
  }

  lemma {:induction false} GetBoolIsLookup(fields: seq<Field>, open: string, sep: string, close: string, key: string,
                                           b: bool, default: bool)
    requires GoodFields(fields) && Separator(sep) && Separator(close) && '"' !in open && Ident(key)
    requires Lookup(fields, key) == Some(BoolValue(b))
    ensures GetBool(ObjectText(fields, open, sep, close), key, default) == b
  {
    ObjectFinds(fields, open, sep, close, key);
    LookupIndex(fields, key);
    var text := if b then "true" else "false";
    var v := FindKey(ObjectText(fields, open, sep, close), key).value;
    var tail :| Follows(tail) && v == text + tail;
    assert v[..|text|] == text;
    assert !b ==> v[0] == 'f';
  }

  function BoolValue(b: bool): Value {
    Literal(if b then "true" else "false")
  }

  // ----- decimal numbers -----

  /** `strtol` on text that starts with decimal digits: the number so far, then the rest. */
  function ParseDigits(t: string, sofar: nat): nat {
    if t != "" && Digit(t[0]) then ParseDigits(t[1..], 10 * sofar + (t[0] as int - '0' as int)) else sofar
  }

  function ParseLong(t: string): int {
    var u := SkipSpace(t);
    if u != "" && u[0] == '-' then 0 - ParseDigits(u[1..], 0)
    else if u != "" && u[0] == '+' then ParseDigits(u[1..], 0)
    else ParseDigits(u, 0)
  }

  /** `json_get_long` */
  function GetLong(t: string, key: string, default: int): int {
    match FindKey(t, key)
    case None => default
    case Some(v) => ParseLong(v)
  }

  lemma {:induction false} GetLongIsLookup(fields: seq<Field>, open: string, sep: string, close: string, key: string,
                                           n: nat, default: int)
    requires GoodFields(fields) && Separator(sep) && Separator(close) && '"' !in open && Ident(key)
    requires Lookup(fields, key) == Some(Literal(Digits(n)))
    ensures GetLong(ObjectText(fields, open, sep, close), key, default) == n
  {
    ObjectFinds(fields, open, sep, close, key);
    LookupIndex(fields, key);
    var v := FindKey(ObjectText(fields, open, sep, close), key).value;
    var tail :| Follows(tail) && v == Digits(n) + tail;
    DigitsParse(n, tail);
  }

  lemma {:induction false} GetLongMissing(fields: seq<Field>, open: string, sep: string, close: string, key: string,
                                          default: int)
    requires GoodFields(fields) && Separator(sep) && Separator(close) && '"' !in open && Ident(key)
    requires Lookup(fields, key) == None
    ensures GetLong(ObjectText(fields, open, sep, close), key, default) == default
  {
    ObjectFinds(fields, open, sep, close, key);
    LookupIndex(fields, key);
  }

  lemma {:induction false} DigitsRead(n: nat, tail: string)
    ensures ParseDigits(Digits(n) + tail, 0) == ParseDigits(tail, n)
    decreases n
  {
    DigitValues();
    if n < 10 {
      assert ([DECIMAL[n]] + tail)[1..] == tail;
    } else {
      var last := [DECIMAL[n % 10]] + tail;
      assert last[1..] == tail;
      assert Digits(n) + tail == Digits(n / 10) + last;
      DigitsRead(n / 10, last);
    }
  }

  lemma {:induction false} DigitsParse(n: nat, tail: string)
    requires tail == "" || !Digit(tail[0])
    ensures ParseLong(Digits(n) + tail) == n
  {
    DigitsAreDigits(n);
    var t := Digits(n) + tail;
    assert Digit(Digits(n)[0]) && t[0] == Digits(n)[0];
    assert SkipSpace(t) == t;
    DigitsRead(n, tail);
  }

  // ----- lists of objects -----

  predicate NoRawBrackets(tokens: seq<Token>) {
    forall i :: 0 <= i < |tokens| && tokens[i].Raw? ==> NoBrackets(tokens[i].text) && '"' !in tokens[i].text
  }

  lemma {:induction false} NoBracketsKeepDepth(r: string, open: char, close: char, depth: nat)
    requires open in BRACKETS && close in BRACKETS && NoBrackets(r)
    ensures RawDepth(r, open, close, depth) == Some(depth)
  {
    if r != "" {
      NoBracketsKeepDepth(r[1..], open, close, depth);
    }
  }

  lemma {:induction false} FlatDepth(tokens: seq<Token>, open: char, close: char, depth: nat)
    requires open in BRACKETS && close in BRACKETS && NoRawBrackets(tokens)
    ensures TokenDepth(tokens, open, close, depth) == Some(depth)
  {
    if tokens != [] {
      FlatDepth(tokens[1..], open, close, depth);
      if tokens[0].Raw? {
        NoBracketsKeepDepth(tokens[0].text, open, close, depth);
      }
    }
  }

  lemma {:induction false} DepthConcat(a: seq<Token>, b: seq<Token>, open: char, close: char, depth: nat)
    ensures TokenDepth(a + b, open, close, depth) ==
            match TokenDepth(a, open, close, depth)
            case Some(d) => TokenDepth(b, open, close, d)
            case None => None
    decreases |a|
  {
    if a == [] {
      assert a + b == b;
    } else {
      assert (a + b)[0] == a[0] && (a + b)[1..] == a[1..] + b;
      match a[0] {
        case Str(_) => DepthConcat(a[1..], b, open, close, depth);
        case Raw(text) =>
          if RawDepth(text, open, close, depth).Some? {
            DepthConcat(a[1..], b, open, close, RawDepth(text, open, close, depth).value);
          }
      }
    }
  }

  lemma {:induction false} FieldsFlat(fields: seq<Field>, sep: string, close: string)
    requires GoodFields(fields) && NoBrackets(sep) && '"' !in sep && NoBrackets(close) && '"' !in close
    ensures NoRawBrackets(FieldTokens(fields, sep, close))
    decreases |fields|
  {
    if |fields| > 1 {
      FieldsFlat(fields[1..], sep, close);
    }
  }

  lemma {:induction false} FieldsCloseWith(fields: seq<Field>, sep: string, a: string, b: string)
    ensures Render(FieldTokens(fields, sep, a + b)) == Render(FieldTokens(fields, sep, a)) + b
    decreases |fields|
  {
    RenderRaw(a);
    RenderRaw(a + b);
    if fields != [] {
      var first := [Str(fields[0].key), Raw(": "), ValueToken(fields[0].value)];
      if |fields| == 1 {
        CloseLater(first, [Raw(a + b)], [Raw(a)], b);
      } else {
        var x, y := FieldTokens(fields[1..], sep, a + b), FieldTokens(fields[1..], sep, a);
        FieldsCloseWith(fields[1..], sep, a, b);
        CloseLater([Raw(sep)], x, y, b);
        CloseLater(first, [Raw(sep)] + x, [Raw(sep)] + y, b);
      }
    }
  }

  lemma {:induction false} RenderRaw(text: string)
    ensures Render([Raw(text)]) == text
  {
    assert [Raw(text)][1..] == [];
  }

  lemma {:induction false} CloseLater(first: seq<Token>, x: seq<Token>, y: seq<Token>, b: string)
    requires Render(x) == Render(y) + b
    ensures Render(first + x) == Render(first + y) + b
  {
    RenderConcat(first, x);
    RenderConcat(first, y);
    Assoc(Render(first), Render(y), b);
  }

  function EntryText(fields: seq<Field>): string {
    Render(EntryTokens(fields))
  }

  /** An entry is one braced group with no brackets inside outside its literals. */
  lemma {:induction false} EntryMatches(fields: seq<Field>, rest: string)
    requires GoodFields(fields)
    ensures EntryText(fields) != "" && EntryText(fields)[0] == '{'
    ensures MatchContainer(EntryText(fields) + rest, '{', '}') == Some(|EntryText(fields)|)
  {
    var inner := [Raw(" ")] + FieldTokens(fields, ", ", " ");
    FieldsFlat(fields, ", ", " ");
    EntryParts(fields);
    FlatMatches(inner, rest);
  }

  lemma {:induction false} FlatMatches(inner: seq<Token>, rest: string)
    requires NoRawBrackets(inner)
    ensures MatchContainer(['{'] + Render(inner) + ['}'] + rest, '{', '}') == Some(|Render(inner)| + 2)
  {
    FlatDepth(inner, '{', '}', 1);
    MatchTokens(inner, rest, '{', '}');
  }

  lemma {:induction false} EntryParts(fields: seq<Field>)
    ensures EntryText(fields) == ['{'] + Render([Raw(" ")] + FieldTokens(fields, ", ", " ")) + ['}']
  {
    FieldsCloseWith(fields, ", ", " ", "}");
    assert " " + "}" == " }";
    var body := FieldTokens(fields, ", ", " ");
    assert ([Raw(" ")] + body)[1..] == body;
    assert EntryTokens(fields)[1..] == FieldTokens(fields, ", ", " }");
    assert "{ " + (Render(body) + "}") == ['{'] + (" " + Render(body)) + ['}'];
  }

  lemma {:induction false} SkipToAt(pre: string, rest: string, c: char)
    requires c !in pre && rest != "" && rest[0] == c
    ensures SkipTo(pre + rest, c) == rest
    decreases |pre|
  {
    if pre == "" {
      assert pre + rest == rest;
    } else {
      assert (pre + rest)[0] == pre[0] && (pre + rest)[1..] == pre[1..] + rest;
      SkipToAt(pre[1..], rest, c);
    }
  }

  /** The next object of a list body is the next printed entry. */
  lemma {:induction false} NextEntry(pre: string, fields: seq<Field>, rest: string)
    requires '{' !in pre && GoodFields(fields)
    ensures NextObject(pre + EntryText(fields) + rest) == Some((EntryText(fields), rest))
  {
    EntryMatches(fields, rest);
    var u := EntryText(fields) + rest;
    assert pre + EntryText(fields) + rest == pre + u;
    assert u[0] == '{';
    SkipToAt(pre, u, '{');
    assert u[..|EntryText(fields)|] == EntryText(fields) && u[|EntryText(fields)|..] == rest;
  }

  lemma {:induction false} SkipToNone(t: string, c: char)
    requires c !in t
    ensures SkipTo(t, c) == ""
  {
    if t != "" {
      SkipToNone(t[1..], c);
    }
  }

  lemma {:induction false} NoMoreEntries(t: string)
    requires '{' !in t
    ensures NextObject(t) == None
  {
    SkipToNone(t, '{');
  }

  /** One line of a saved list. */
  function LineTokens(fields: seq<Field>, end: string): seq<Token> {
    [Raw("    ")] + (EntryTokens(fields) + [Raw(end)])
  }

  /** The lines of a saved list, and the indent of its closing bracket. */
  function ListTokens(entries: seq<seq<Field>>): seq<Token> {
    if entries == [] then [Raw("  ")]
    else LineTokens(entries[0], if |entries| > 1 then ",\n" else "\n") + ListTokens(entries[1..])
  }

  predicate GoodEntries(entries: seq<seq<Field>>) {
    forall i :: 0 <= i < |entries| ==> GoodFields(entries[i])
  }

  /** No entry has this key. */
  predicate KeyUnused(entries: seq<seq<Field>>, key: string) {
    forall i :: 0 <= i < |entries| ==> FieldIndex(entries[i], key) == |entries[i]|
  }

  lemma {:induction false} LineSpaced(fields: seq<Field>, end: string, rest: string, key: string)
    requires GoodFields(fields) && FieldIndex(fields, key) == |fields| && '"' !in end
    ensures Spaced(LineTokens(fields, end), rest)
    ensures FindToken(LineTokens(fields, end), rest, key) == None
  {
    var entry := EntryTokens(fields);
    RawInFront(end, [], rest, key);
    assert [Raw(end)] + [] == [Raw(end)];
    EntrySpaced(fields, Render([Raw(end)]) + rest, key);
    SpacedConcat(entry, [Raw(end)], rest);
    FindTokenConcat(entry, [Raw(end)], rest, key);
    RawInFront("    ", entry + [Raw(end)], rest, key);
  }

  lemma {:induction false} LineDepth(fields: seq<Field>, end: string)
    requires GoodFields(fields) && NoBrackets(end) && '"' !in end
    ensures TokenDepth(LineTokens(fields, end), '[', ']', 1) == Some(1)
    ensures NoRawQuotes(LineTokens(fields, end))
  {
    FieldsSquareFlat(fields);
    FlatDepth([Raw(end)], '[', ']', 1);
    FlatDepth([Raw("    ")], '[', ']', 1);
    DepthConcat(EntryTokens(fields), [Raw(end)], '[', ']', 1);
    DepthConcat([Raw("    ")], EntryTokens(fields) + [Raw(end)], '[', ']', 1);
  }

  /** A whole list can be scanned over, and keys that no entry has are not found in it. */
  lemma {:induction false} ListSpaced(entries: seq<seq<Field>>, rest: string, key: string)
    requires GoodEntries(entries) && KeyUnused(entries, key)
    ensures Spaced(ListTokens(entries), rest)
    ensures FindToken(ListTokens(entries), rest, key) == None
    decreases |entries|
  {
    if entries == [] {
      RawInFront("  ", [], rest, key);
      assert [Raw("  ")] + [] == [Raw("  ")];
    } else {
      var line := LineTokens(entries[0], if |entries| > 1 then ",\n" else "\n");
      var tail := ListTokens(entries[1..]);
      ListSpaced(entries[1..], rest, key);
      LineSpaced(entries[0], if |entries| > 1 then ",\n" else "\n", Render(tail) + rest, key);
      SpacedConcat(line, tail, rest);
      FindTokenConcat(line, tail, rest, key);
    }
  }

  lemma {:induction false} ListDepth(entries: seq<seq<Field>>)
    requires GoodEntries(entries)
    ensures TokenDepth(ListTokens(entries), '[', ']', 1) == Some(1)
    ensures NoRawQuotes(ListTokens(entries))
    decreases |entries|
  {
    if entries == [] {
      FlatDepth([Raw("  ")], '[', ']', 1);
    } else {
      var end := if |entries| > 1 then ",\n" else "\n";
      ListDepth(entries[1..]);
      LineDepth(entries[0], end);
      DepthConcat(LineTokens(entries[0], end), ListTokens(entries[1..]), '[', ']', 1);
    }
  }

  ghost predicate NoRawQuotes(tokens: seq<Token>) {
    forall i :: 0 <= i < |tokens| && tokens[i].Raw? ==> '"' !in tokens[i].text
  }

  lemma {:induction false} EntrySpaced(fields: seq<Field>, rest: string, key: string)
    requires GoodFields(fields) && FieldIndex(fields, key) == |fields|
    ensures Spaced(EntryTokens(fields), rest)
    ensures FindToken(EntryTokens(fields), rest, key) == None
  {
    FieldsSpaced(fields, ", ", " }", rest, key);
    RawInFront("{ ", FieldTokens(fields, ", ", " }"), rest, key);
  }

  lemma {:induction false} FieldsSquareFlat(fields: seq<Field>)
    requires GoodFields(fields)
    ensures TokenDepth(EntryTokens(fields), '[', ']', 1) == Some(1)
    ensures NoRawQuotes(EntryTokens(fields))
  {
    var tokens := FieldTokens(fields, ", ", " }");
    SquareDepth(fields);
    assert EntryTokens(fields) == [Raw("{ ")] + tokens;
    assert RawDepth("{ ", '[', ']', 1) == Some(1) by {
      assert "{ "[1..] == " " && " "[1..] == "";
    }
    assert [Raw("{ ")][1..] == [];
    DepthConcat([Raw("{ ")], tokens, '[', ']', 1);
  }

  lemma {:induction false} SquareDepth(fields: seq<Field>)
    requires GoodFields(fields)
    ensures TokenDepth(FieldTokens(fields, ", ", " }"), '[', ']', 1) == Some(1)
    ensures NoRawQuotes(FieldTokens(fields, ", ", " }"))
    decreases |fields|
  {
    assert RawDepth(" }", '[', ']', 1) == Some(1) by {
      assert " }"[1..] == "}" && "}"[1..] == "";
    }
    assert [Raw(" }")][1..] == [];
    if fields != [] {
      var first := [Str(fields[0].key), Raw(": "), ValueToken(fields[0].value)];
      FlatDepth(first, '[', ']', 1);
      if |fields| == 1 {
        DepthConcat(first, [Raw(" }")], '[', ']', 1);
      } else {
        var tail := FieldTokens(fields[1..], ", ", " }");
        SquareDepth(fields[1..]);
        FlatDepth([Raw(", ")], '[', ']', 1);
        DepthConcat([Raw(", ")], tail, '[', ']', 1);
        DepthConcat(first, [Raw(", ")] + tail, '[', ']', 1);
      }
    }
  }
}
