/**
 The JSON text the frontend writes: string literals with escapes, and documents as lists of
 tokens, each a string literal or raw text between literals. The reader's theorems are stated for
 documents in which every literal is followed by raw text that tells whether it is a key, which is
 what `Spaced` says and what everything the programs print has in common.
 */
module JsonText {

  const HEX := "0123456789abcdef"

  /** How one byte is written: as it is, as a two-character escape, or as `\u00` and two digits. */
  datatype Unit = Itself(c: char) | Short(x: char) | Hex(h: char, l: char)

  function UnitOf(c: char): Unit {
    if c == '"' || c == '\\' then Short(c)
    else if c == 8 as char then Short('b')
    else if c == 12 as char then Short('f')
    else if c == '\n' then Short('n')
    else if c == '\r' then Short('r')
    else if c == '\t' then Short('t')
    else if (c as int) < 0x20 then Hex(HEX[c as int / 16], HEX[c as int % 16])
    else Itself(c)
  }

  function UnitText(u: Unit): (text: string)
    ensures text != ""
  {
    match u
    case Itself(c) => [c]
    case Short(x) => ['\\', x]
    case Hex(h, l) => ['\\', 'u', '0', '0', h, l]
  }

  /** What `json_write_escaped` emits for one byte. */
  function EscapeChar(c: char): (e: string)
    ensures e != ""
  {
    UnitText(UnitOf(c))
  }

  predicate GoodUnit(u: Unit) {
    match u
    case Itself(c) => c != '"' && c != '\\'
    case Short(_) => true
    case Hex(h, l) => IdentChar(h) && IdentChar(l)
  }

  lemma {:induction false} UnitsAreGood(c: char)
    ensures GoodUnit(UnitOf(c))
  {
    assert forall i :: 0 <= i < |HEX| ==> IdentChar(HEX[i]);
  }

  function Escape(s: string): string {
    if s == "" then "" else EscapeChar(s[0]) + Escape(s[1..])
  }

  function Quoted(s: string): string {
    "\"" + Escape(s) + "\""
  }

  /** `json_write_escaped` */
  method WriteEscaped(out: string, s: string) returns (out': string)
    ensures out' == out + Quoted(s)
  {
    out' := out + "\"";
    assert s[0..] == s;
    for i := 0 to |s|
      invariant out' + Escape(s[i..]) == out + "\"" + Escape(s)
    {
      EscapeFrom(s, i);
      out' := out' + EscapeChar(s[i]);
    }
    assert out' == out + "\"" + Escape(s);
    out' := out' + "\"";
  }

  lemma {:induction false} EscapeFrom(s: string, i: nat)
    requires i < |s|
    ensures Escape(s[i..]) == EscapeChar(s[i]) + Escape(s[i + 1..])
  {
    assert s[i..][1..] == s[i + 1..];
  }

  datatype Token = Str(s: string) | Raw(text: string)

  function RenderToken(t: Token): string {
    match t
    case Str(s) => Quoted(s)
    case Raw(text) => text
  }

  function Render(tokens: seq<Token>): string {
    if tokens == [] then "" else RenderToken(tokens[0]) + Render(tokens[1..])
  }

  lemma {:induction false} RenderConcat(a: seq<Token>, b: seq<Token>)
    ensures Render(a + b) == Render(a) + Render(b)
    decreases |a|
  {
    if a == [] {
      assert a + b == b;
    } else {
      assert (a + b)[0] == a[0] && (a + b)[1..] == a[1..] + b;
      RenderConcat(a[1..], b);
    }
  }

  // ----- what a literal may contain -----

  /** A byte that survives writing and reading: every control byte but \b \f \n \r \t does not. */
  predicate PlainChar(c: char) {
    (c as int) >= 0x20 || c == 8 as char || c == 12 as char || c == '\n' || c == '\r' || c == '\t'
  }

  predicate Plain(s: string) {
    forall i :: 0 <= i < |s| ==> PlainChar(s[i])
  }

  /** Keys the program looks up: identifier characters only. */
  predicate IdentChar(c: char) {
    'a' <= c <= 'z' || 'A' <= c <= 'Z' || '0' <= c <= '9' || c == '_'
  }

  predicate Ident(s: string) {
    s != "" && forall i :: 0 <= i < |s| ==> IdentChar(s[i])
  }

  lemma {:induction false} EscapeIdent(s: string)
    requires forall i :: 0 <= i < |s| ==> IdentChar(s[i])
    ensures Escape(s) == s
  {
    if s != "" {
      assert IdentChar(s[0]);
      EscapeIdent(s[1..]);
      assert s == [s[0]] + s[1..];
    }
  }

  // ----- documents -----

  predicate Space(c: char) {
    c == ' ' || c == '\t' || c == '\n' || c == '\r' || c == 11 as char || c == 12 as char
  }

  function SkipSpace(t: string): string {
    if t != "" && Space(t[0]) then SkipSpace(t[1..]) else t
  }

  /** The text goes on, after white space, with a colon. */
  predicate Colon(t: string) {
    var u := SkipSpace(t);
    u != "" && u[0] == ':'
  }

  /**
   Tokens, followed by `rest`, that a key scan can rely on: raw text holds no quotes, no literal is
   followed directly by an identifier character, and only identifiers are followed by a colon.
   */
  ghost predicate Spaced(tokens: seq<Token>, rest: string) {
    tokens == [] ||
    (Spaced(tokens[1..], rest) &&
     match tokens[0]
     case Raw(text) => '"' !in text
     case Str(s) =>
       var after := Render(tokens[1..]) + rest;
       (after == "" || !IdentChar(after[0])) && (Colon(after) ==> Ident(s)))
  }

  lemma {:induction false} SpacedConcat(a: seq<Token>, b: seq<Token>, rest: string)
    requires Spaced(a, Render(b) + rest) && Spaced(b, rest)
    ensures Spaced(a + b, rest)
    decreases |a|
  {
    if a == [] {
      assert a + b == b;
    } else {
      assert (a + b)[0] == a[0] && (a + b)[1..] == a[1..] + b;
      SpacedConcat(a[1..], b, rest);
      RenderConcat(a[1..], b);
      assert Render(a[1..] + b) + rest == Render(a[1..]) + (Render(b) + rest);
    }
  }

  datatype Value = Text(s: string) | Literal(text: string)

  datatype Field = Field(key: string, value: Value)

  function ValueToken(v: Value): Token {
    match v
    case Text(s) => Str(s)
    case Literal(text) => Raw(text)
  }

  /** `"key": value` for each field, `sep` between them and `close` after the last. */
  function FieldTokens(fields: seq<Field>, sep: string, close: string): seq<Token> {
    if fields == [] then [Raw(close)]
    else
      [Str(fields[0].key), Raw(": "), ValueToken(fields[0].value)]
      + (if |fields| == 1 then [Raw(close)] else [Raw(sep)] + FieldTokens(fields[1..], sep, close))
  }

  function ObjectTokens(fields: seq<Field>, open: string, sep: string, close: string): seq<Token> {
    [Raw(open)] + FieldTokens(fields, sep, close)
  }

  /** An entry of one of the saved lists: `{ "key": value, "key": value }`. */
  function EntryTokens(fields: seq<Field>): seq<Token> {
    ObjectTokens(fields, "{ ", ", ", " }")
  }

  /** Text that can follow a value. */
  predicate Separator(s: string) {
    && s != "" && !IdentChar(s[0]) && '"' !in s
    && SkipSpace(s) != "" && SkipSpace(s)[0] != ':'
  }

  const BRACKETS: set<char> := {'{', '}', '[', ']'}

  predicate NoBrackets(s: string) {
    forall i :: 0 <= i < |s| ==> s[i] !in BRACKETS
  }

  /** A key the scan can find, with a string or an unquoted literal such as a number. */
  predicate GoodField(f: Field) {
    && Ident(f.key)
    && (f.value.Literal? ==>
          f.value.text != "" && !Space(f.value.text[0]) && '"' !in f.value.text && NoBrackets(f.value.text))
  }

  predicate GoodFields(fields: seq<Field>) {
    forall i :: 0 <= i < |fields| ==> GoodField(fields[i])
  }
}
