/** The reader half: a key scan, not a JSON parser. */
module JsonReader {
  // It scans the text for `"key"` followed by a colon, and matches brackets outside string
  // literals. The lemmas say what it finds in a printed document.

  import opened Common
  import opened JsonText

  /** The text inside a literal, from just after its opening quote: contents and what follows it. */
  function DecodeBody(t: string): Option<(string, string)> {
    if t == "" then None
    else if t[0] == '"' then Some(("", t[1..]))
    else if t[0] == '\\' && |t| > 1 then
      match DecodeBody(t[2..])
      case Some(r) => Some(([Unescape(t[1])] + r.0, r.1))
      case None => None
    else
      match DecodeBody(t[1..])
      case Some(r) => Some(([t[0]] + r.0, r.1))
      case None => None
  }

  function Unescape(c: char): char {
    if c == 'b' then 8 as char
    else if c == 'f' then 12 as char
    else if c == 'n' then '\n'
    else if c == 'r' then '\r'
    else if c == 't' then '\t'
    else c
  }

  /** What fits a buffer of `capacity` bytes with its terminator. */
  function Fit(s: string, capacity: nat): string
    requires capacity > 0
  {
    if |s| < capacity then s else s[..capacity - 1]
  }

  /** `json_decode_string`: the decoded text cut to the buffer, and the text after the literal. */
  function DecodeString(t: string, capacity: nat): Option<(string, string)>
    requires capacity > 0
  {
    if t == "" || t[0] != '"' then None
    else
      match DecodeBody(t[1..])
      case Some(r) => Some((Fit(r.0, capacity), r.1))
      case None => None
  }

  /** The text after the colon of the first `"key"` that a colon follows. */
  function FindKey(t: string, key: string): Option<string> {
    if t == "" then None
    else if "\"" + key + "\"" <= t && Colon(t[|key| + 2..])
    then Some(AfterColon(t[|key| + 2..]))
    else FindKey(t[1..], key)
  }

  function AfterColon(t: string): string
    requires Colon(t)
  {
    SkipSpace(SkipSpace(t)[1..])
  }

  /** How far it is to the bracket that brings the nesting depth to zero. */
  function Scan(t: string, open: char, close: char, depth: int, inString: bool): Option<nat> {
    if t == "" then None
    else if inString && t[0] == '\\' then
      if |t| > 1 then Shift(Scan(t[2..], open, close, depth, true), 2) else None
    else if t[0] == '"' then Shift(Scan(t[1..], open, close, depth, !inString), 1)
    else if !inString && t[0] == open then Shift(Scan(t[1..], open, close, depth + 1, false), 1)
    else if !inString && t[0] == close then
      if depth == 1 then Some(0) else Shift(Scan(t[1..], open, close, depth - 1, false), 1)
    else Shift(Scan(t[1..], open, close, depth, inString), 1)
  }

  function Shift(r: Option<nat>, n: nat): Option<nat> {
    match r
    case Some(k) => Some(k + n)
    case None => None
  }

  lemma {:induction false} ScanBounds(t: string, open: char, close: char, depth: int, inString: bool)
    ensures Scan(t, open, close, depth, inString).Some? ==>
              var k := Scan(t, open, close, depth, inString).value;
              k < |t| && t[k] == close
    decreases |t|
  {
    if t != "" {
      if inString && t[0] == '\\' {
        if |t| > 1 {
          ScanBounds(t[2..], open, close, depth, true);
        }
      } else if t[0] == '"' {
        ScanBounds(t[1..], open, close, depth, !inString);
      } else if !inString && t[0] == open {
        ScanBounds(t[1..], open, close, depth + 1, false);
      } else if !inString && t[0] == close {
        ScanBounds(t[1..], open, close, depth - 1, false);
      } else {
        ScanBounds(t[1..], open, close, depth, inString);
      }
    }
  }

  /** `json_match_container` at the start of `t`: the length of the bracketed text. */
  function MatchContainer(t: string, open: char, close: char): (r: Option<nat>)
    ensures r.Some? ==> 2 <= r.value <= |t| && t[0] == open && t[r.value - 1] == close
  {
    if t == "" || t[0] != open || open == close then None
    else
      ScanBounds(t, open, close, 0, false);
      match Scan(t, open, close, 0, false)
      case Some(k) => if k > 0 then Some(k + 1) else None
      case None => None
  }

  /** `json_find_array` and `json_find_object`: the text between the brackets. */
  function FindContainer(t: string, key: string, open: char, close: char): Option<string> {
    match FindKey(t, key)
    case None => None
    case Some(v) =>
      match MatchContainer(v, open, close)
      case None => None
      case Some(n) => Some(v[1..n - 1])
  }

  function SkipTo(t: string, c: char): string {
    if t == "" || t[0] == c then t else SkipTo(t[1..], c)
  }

  /** `json_next_object`: the next braced text and what follows it. */
  function NextObject(t: string): (r: Option<(string, string)>)
    ensures r.Some? ==> |r.value.1| < |t|
  {
    SkipToShortens(t, '{');
    var u := SkipTo(t, '{');
    match MatchContainer(u, '{', '}')
    case None => None
    case Some(n) => Some((u[..n], u[n..]))
  }

  lemma {:induction false} SkipToShortens(t: string, c: char)
    ensures |SkipTo(t, c)| <= |t|
  {
    if t != "" && t[0] != c {
      SkipToShortens(t[1..], c);
    }
  }

  /** `json_get_string`: the new contents of a buffer that held `prior`. */
  function GetString(t: string, key: string, capacity: nat, prior: string): string
    requires capacity > 0
  {
    match FindKey(t, key)
    case None => ""
    case Some(v) =>
      if "null" <= v then ""
      else
        match DecodeString(v, capacity)
        case Some(r) => r.0
        case None => if v != "" && v[0] == '"' then "" else prior
  }

  /** `json_get_bool` */
  function GetBool(t: string, key: string, default: bool): bool {
    match FindKey(t, key)
    case None => default
    case Some(v) => if "true" <= v then true else if "false" <= v then false else default
  }

  // ----- literals read back -----

  /** What a byte becomes when it is written and read again. */
  function ReadBackChar(c: char): string {
    match UnitOf(c)
    case Hex(h, l) => ['u', '0', '0', h, l]
    case _ => [c]
  }

  function ReadBack(s: string): string {
    if s == "" then "" else ReadBackChar(s[0]) + ReadBack(s[1..])
  }

  /** A written text as it comes back through a buffer. */
  function Back(s: string, capacity: nat): string
    requires capacity > 0
  {
    Fit(ReadBack(s), capacity)
  }

  lemma {:induction false} PlainReadsBack(s: string)
    ensures |ReadBack(s)| >= |s|
    ensures ReadBack(s) == s <==> Plain(s)
    ensures |ReadBack(s)| == |s| ==> Plain(s)
  {
    if s != "" {
      var rest := s[1..];
      PlainReadsBack(rest);
      assert s == [s[0]] + rest;
      assert Plain(s) <==> PlainChar(s[0]) && Plain(rest);
      assert |ReadBackChar(s[0])| == if PlainChar(s[0]) then 1 else 5;
      if PlainChar(s[0]) {
        assert ReadBack(s) == [s[0]] + ReadBack(rest);
        assert ReadBack(s)[1..] == ReadBack(rest) && s[1..] == rest;
      }
    }
  }

  /** A text that a buffer of `capacity` bytes holds and that survives writing and reading. */
  predicate Holds(s: string, capacity: nat) {
    Plain(s) && |s| < capacity
  }

  /** Those are exactly the texts that come back as they were. */
  lemma {:induction false} BackIsSame(s: string, capacity: nat)
    requires capacity > 0
    ensures Back(s, capacity) == s <==> Holds(s, capacity)
  {
    PlainReadsBack(s);
    if Back(s, capacity) == s && !Plain(s) {
      ReadBackDiffers(s);
    }
  }

  /** A byte that does not survive shows in what is read. */
  lemma {:induction false} ReadBackDiffers(s: string)
    requires !Plain(s)
    ensures |ReadBack(s)| > |s| && ReadBack(s)[..|s|] != s
  {
    PlainReadsBack(s);
    var rest := s[1..];
    PlainReadsBack(rest);
    assert s == [s[0]] + rest;
    if PlainChar(s[0]) {
      ReadBackDiffers(rest);
      assert ReadBack(s) == [s[0]] + ReadBack(rest);
      assert ReadBack(s)[..|s|][1..] == ReadBack(rest)[..|rest|] && s[1..] == rest;
    } else {
      assert ReadBack(s)[0] == 'u';
    }
  }

  lemma {:induction false} DecodeOrdinary(c: char, rest: string)
    requires c != '"' && c != '\\'
    ensures DecodeBody([c] + rest) ==
            match DecodeBody(rest)
            case Some(r) => Some(([c] + r.0, r.1))
            case None => None
  {
    assert ([c] + rest)[1..] == rest;
  }

  lemma {:induction false} DecodeEscape(x: char, rest: string)
    ensures DecodeBody(['\\', x] + rest) ==
            match DecodeBody(rest)
            case Some(r) => Some(([Unescape(x)] + r.0, r.1))
            case None => None
  {
    assert (['\\', x] + rest)[2..] == rest;
  }

  /** `\u00hl` is read as the five characters u00hl. */
  lemma {:induction false} DecodeHex(h: char, l: char, rest: string)
    requires IdentChar(h) && IdentChar(l)
    ensures DecodeBody(['\\', 'u', '0', '0', h, l] + rest) ==
            match DecodeBody(rest)
            case Some(r) => Some((['u', '0', '0', h, l] + r.0, r.1))
            case None => None
  {
    var t1 := [l] + rest;
    var t2 := [h] + t1;
    var t3 := ['0'] + t2;
    var t4 := ['0'] + t3;
    assert ['\\', 'u', '0', '0', h, l] + rest == ['\\', 'u'] + t4;
    DecodeOrdinary(l, rest);
    DecodeOrdinary(h, t1);
    DecodeOrdinary('0', t2);
    DecodeOrdinary('0', t3);
    DecodeEscape('u', t4);
    if DecodeBody(rest).Some? {
      var r := DecodeBody(rest).value.0;
      assert ['u'] + (['0'] + (['0'] + ([h] + ([l] + r)))) == ['u', '0', '0', h, l] + r;
    }
  }

  lemma {:induction false} DecodeUnit(c: char, rest: string)
    ensures DecodeBody(EscapeChar(c) + rest) ==
            match DecodeBody(rest)
            case Some(r) => Some((ReadBackChar(c) + r.0, r.1))
            case None => None
  {
    UnitsAreGood(c);
    match UnitOf(c) {
      case Itself(_) => DecodeOrdinary(c, rest);
      case Short(x) => DecodeEscape(x, rest);
      case Hex(h, l) => DecodeHex(h, l, rest);
    }
  }

  /** Reading a printed literal gives its contents back, up to the control bytes that do not survive. */
  lemma {:induction false} DecodeEscaped(s: string, rest: string)
    ensures DecodeBody(Escape(s) + "\"" + rest) == Some((ReadBack(s), rest))
  {
    if s == "" {
      assert Escape(s) + "\"" + rest == "\"" + rest;
    } else {
      DecodeEscaped(s[1..], rest);
      DecodeUnit(s[0], Escape(s[1..]) + "\"" + rest);
      assert Escape(s) + "\"" + rest == EscapeChar(s[0]) + (Escape(s[1..]) + "\"" + rest);
    }
  }

  /**
   A printed string is read back unchanged exactly when it has no control byte outside
   \b \f \n \r \t (among strings whose printed form fits the buffer when read).
   */
  lemma {:induction false} LiteralRoundTrip(s: string, rest: string, capacity: nat)
    requires |ReadBack(s)| < capacity
    ensures DecodeString(Quoted(s) + rest, capacity) == Some((ReadBack(s), rest))
    ensures DecodeString(Quoted(s) + rest, capacity) == Some((s, rest)) <==> Plain(s)
  {
    DecodeEscaped(s, rest);
    PlainReadsBack(s);
    assert (Quoted(s) + rest)[1..] == Escape(s) + "\"" + rest;
  }

  // ----- no value can forge a key -----

  lemma {:induction false} FindKeySkips(r: string, rest: string, key: string)
    requires '"' !in r
    ensures FindKey(r + rest, key) == FindKey(rest, key)
    decreases |r|
  {
    if r == "" {
      assert r + rest == rest;
    } else {
      assert (r + rest)[0] == r[0] && (r + rest)[1..] == r[1..] + rest;
      FindKeySkips(r[1..], rest, key);
    }
  }

  lemma {:induction false} QuoteInUnit(c: char, i: nat)
    requires i < |EscapeChar(c)| && EscapeChar(c)[i] == '"'
    ensures c == '"' && i == 1
  {
    UnitsAreGood(c);
  }

  /** Every quote in an escaped text follows a backslash. */
  lemma {:induction false} EscapedQuotes(s: string, i: nat)
    requires i < |Escape(s)| && Escape(s)[i] == '"'
    ensures i > 0 && Escape(s)[i - 1] == '\\'
  {
    var u := EscapeChar(s[0]);
    if i >= |u| {
      assert Escape(s)[i] == Escape(s[1..])[i - |u|];
      EscapedQuotes(s[1..], i - |u|);
      assert Escape(s)[i - 1] == Escape(s[1..])[i - |u| - 1];
    } else {
      assert Escape(s)[i] == u[i];
      QuoteInUnit(s[0], i);
    }
  }

  /** A pattern that starts at a quote just before escaped text ends with the closing quote. */
  /** Two quoted texts in front of each other agree as far as the shorter one goes. */
  lemma {:induction false} QuotedPrefix(a: string, b: string, after: string)
    requires "\"" + a + "\"" <= "\"" + b + "\"" + after
    ensures forall i :: 0 <= i < |a| && i < |b| ==> a[i] == b[i]
    ensures |a| < |b| ==> b[|a|] == '"'
    ensures |b| < |a| ==> a[|b|] == '"'
  {
    var p, t := "\"" + a + "\"", "\"" + b + "\"" + after;
    assert forall i :: 0 <= i < |p| ==> p[i] == t[i];
    assert forall i :: 0 <= i < |a| ==> a[i] == p[i + 1];
    assert forall i :: 0 <= i < |b| ==> b[i] == t[i + 1];
    assert p[|a| + 1] == '"' && t[|b| + 1] == '"';
  }

  lemma {:induction false} PatternAtLiteral(s: string, after: string, key: string)
    requires Ident(key)
    requires "\"" + key + "\"" <= "\"" + Escape(s) + "\"" + after
    ensures Escape(s) == key
  {
    var n, m := |key|, |Escape(s)|;
    QuotedPrefix(key, Escape(s), after);
    if n < m {
      assert IdentChar(key[n - 1]) && Escape(s)[n - 1] == key[n - 1];
      EscapedQuotes(s, n);
    }
  }

  lemma {:induction false} EscapeIsIdent(s: string)
    requires forall i :: 0 <= i < |Escape(s)| ==> IdentChar(Escape(s)[i])
    ensures Escape(s) == s
  {
    if s != "" {
      var u := EscapeChar(s[0]);
      var rest := Escape(s[1..]);
      assert Escape(s) == u + rest && Escape(s)[0] == u[0];
      assert u == [s[0]];
      forall i | 0 <= i < |rest|
        ensures IdentChar(rest[i])
      {
        assert rest[i] == Escape(s)[i + 1];
      }
      EscapeIsIdent(s[1..]);
      assert s == [s[0]] + s[1..];
    }
  }

  /** Right after an escaped quote no key is found, since no colon follows the literal. */
  lemma {:induction false} FindKeyAtEscapedQuote(s: string, after: string, key: string)
    requires Ident(key) && !Colon(after)
    ensures FindKey("\"" + Escape(s) + "\"" + after, key) == FindKey(Escape(s) + "\"" + after, key)
  {
    var t := "\"" + Escape(s) + "\"" + after;
    assert t[1..] == Escape(s) + "\"" + after;
    if "\"" + key + "\"" <= t {
      PatternAtLiteral(s, after, key);
      assert t[|key| + 2..] == after;
    }
  }

  lemma {:induction false} FindKeyAtClosingQuote(after: string, key: string)
    requires Ident(key) && (after == "" || !IdentChar(after[0]))
    ensures FindKey("\"" + after, key) == FindKey(after, key)
  {
    var t := "\"" + after;
    assert t[1..] == after;
    var pattern := "\"" + key + "\"";
    assert pattern[1] == key[0] && IdentChar(key[0]);
    assert after != "" ==> t[1] == after[0];
  }

  /** Written characters other than the quote are passed over. */
  lemma {:induction false} FindKeyPastUnit(c: char, rest: string, key: string)
    requires c != '"'
    ensures FindKey(EscapeChar(c) + rest, key) == FindKey(rest, key)
  {
    if i :| 0 <= i < |EscapeChar(c)| && EscapeChar(c)[i] == '"' {
      QuoteInUnit(c, i);
    }
    FindKeySkips(EscapeChar(c), rest, key);
  }

  lemma {:induction false} FindKeyPastQuote(s: string, after: string, key: string)
    requires Ident(key) && !Colon(after)
    ensures FindKey(EscapeChar('"') + (Escape(s) + "\"" + after), key) == FindKey(Escape(s) + "\"" + after, key)
  {
    var t := "\"" + Escape(s) + "\"" + after;
    assert EscapeChar('"') + (Escape(s) + "\"" + after) == "\\" + t;
    FindKeySkips("\\", t, key);
    FindKeyAtEscapedQuote(s, after, key);
  }

  /** Inside a literal that no colon follows (or that is an identifier) no key is found. */
  lemma {:induction false} FindKeyInLiteral(s: string, after: string, key: string)
    requires Ident(key)
    requires after == "" || !IdentChar(after[0])
    requires Colon(after) ==> forall i :: 0 <= i < |s| ==> IdentChar(s[i])
    ensures FindKey(Escape(s) + "\"" + after, key) == FindKey(after, key)
    decreases |s|
  {
    if s == "" {
      assert Escape(s) + "\"" + after == "\"" + after;
      FindKeyAtClosingQuote(after, key);
    } else {
      FindKeyInLiteral(s[1..], after, key);
      var rest := Escape(s[1..]) + "\"" + after;
      assert Escape(s) + "\"" + after == EscapeChar(s[0]) + rest;
      if s[0] == '"' {
        FindKeyPastQuote(s[1..], after, key);
      } else {
        FindKeyPastUnit(s[0], rest, key);
      }
    }
  }

  /** The text after the colon of the first literal equal to the key that a colon follows. */
  ghost function FindToken(tokens: seq<Token>, rest: string, key: string): Option<string> {
    if tokens == [] then None
    else
      var after := Render(tokens[1..]) + rest;
      if tokens[0] == Str(key) && Colon(after) then Some(AfterColon(after))
      else FindToken(tokens[1..], rest, key)
  }

  lemma {:induction false} FindTokenConcat(a: seq<Token>, b: seq<Token>, rest: string, key: string)
    ensures FindToken(a + b, rest, key) ==
            if FindToken(a, Render(b) + rest, key).Some? then FindToken(a, Render(b) + rest, key)
            else FindToken(b, rest, key)
    decreases |a|
  {
    if a == [] {
      assert a + b == b;
    } else {
      assert (a + b)[0] == a[0] && (a + b)[1..] == a[1..] + b;
      FindTokenConcat(a[1..], b, rest, key);
      RenderConcat(a[1..], b);
      Assoc(Render(a[1..]), Render(b), rest);
    }
  }

  /** The scan at a literal of the document: it is the key itself, or it is skipped. */
  lemma {:induction false} FindKeyAtLiteral(s: string, after: string, key: string)
    requires Ident(key)
    requires after == "" || !IdentChar(after[0])
    requires Colon(after) ==> Ident(s)
    ensures FindKey(Quoted(s) + after, key) ==
            if s == key && Colon(after) then Some(AfterColon(after)) else FindKey(after, key)
  {
    var t := Quoted(s) + after;
    assert t == "\"" + Escape(s) + "\"" + after;
    assert t[1..] == Escape(s) + "\"" + after;
    FindKeyInLiteral(s, after, key);
    if "\"" + key + "\"" <= t {
      PatternAtLiteral(s, after, key);
      EscapeIsIdent(s);
      assert t[|key| + 2..] == after;
    } else {
      if s == key {
        EscapeIdent(s);
      }
      assert s != key;
    }
  }

  /**
   The scan finds a key exactly where the document has one as a key literal, whatever the string
   values contain: no value, however quoted, can forge a key.
   */
  lemma {:induction false} FindKeyInDocument(tokens: seq<Token>, rest: string, key: string)
    requires Spaced(tokens, rest) && Ident(key)
    ensures FindKey(Render(tokens) + rest, key) ==
            if FindToken(tokens, rest, key).Some? then FindToken(tokens, rest, key) else FindKey(rest, key)
    decreases |tokens|
  {
    if tokens == [] {
      assert Render(tokens) + rest == rest;
    } else {
      var after := Render(tokens[1..]) + rest;
      assert Render(tokens) + rest == RenderToken(tokens[0]) + after;
      FindKeyInDocument(tokens[1..], rest, key);
      match tokens[0] {
        case Raw(text) => FindKeySkips(text, after, key);
        case Str(s) => FindKeyAtLiteral(s, after, key);
      }
    }
  }

  // ----- brackets -----

  lemma {:induction false} ScanOrdinary(c: char, rest: string, open: char, close: char, depth: int)
    requires c != '"' && c != '\\'
    ensures Scan([c] + rest, open, close, depth, true) == Shift(Scan(rest, open, close, depth, true), 1)
  {
    assert ([c] + rest)[1..] == rest;
  }

  lemma {:induction false} ScanEscape(x: char, rest: string, open: char, close: char, depth: int)
    ensures Scan(['\\', x] + rest, open, close, depth, true) == Shift(Scan(rest, open, close, depth, true), 2)
  {
    assert (['\\', x] + rest)[2..] == rest;
  }

  lemma {:induction false} ScanUnit(c: char, rest: string, open: char, close: char, depth: int)
    ensures Scan(EscapeChar(c) + rest, open, close, depth, true) ==
            Shift(Scan(rest, open, close, depth, true), |EscapeChar(c)|)
  {
    UnitsAreGood(c);
    match UnitOf(c) {
      case Itself(_) => ScanOrdinary(c, rest, open, close, depth);
      case Short(x) => ScanEscape(x, rest, open, close, depth);
      case Hex(h, l) =>
        assert EscapeChar(c) + rest == ['\\', 'u'] + (['0'] + (['0'] + ([h] + ([l] + rest))));
        ScanHex(h, l, rest, open, close, depth);
    }
  }

  lemma {:induction false} ScanHex(h: char, l: char, rest: string, open: char, close: char, depth: int)
    requires h != '"' && h != '\\' && l != '"' && l != '\\'
    ensures Scan(['\\', 'u'] + (['0'] + (['0'] + ([h] + ([l] + rest)))), open, close, depth, true) ==
            Shift(Scan(rest, open, close, depth, true), 6)
  {
    var t1 := [l] + rest;
    var t2 := [h] + t1;
    var t3 := ['0'] + t2;
    ScanOrdinary(l, rest, open, close, depth);
    ScanOrdinary(h, t1, open, close, depth);
    ScanOrdinary('0', t2, open, close, depth);
    ScanOrdinary('0', t3, open, close, depth);
    ScanEscape('u', ['0'] + t3, open, close, depth);
  }

  lemma {:induction false} ScanLiteral(s: string, rest: string, open: char, close: char, depth: int)
    ensures Scan(Escape(s) + "\"" + rest, open, close, depth, true) ==
            Shift(Scan(rest, open, close, depth, false), |Escape(s)| + 1)
    decreases |s|
  {
    if s == "" {
      assert Escape(s) + "\"" + rest == "\"" + rest;
      assert ("\"" + rest)[1..] == rest;
    } else {
      var tail := Escape(s[1..]) + "\"" + rest;
      Assoc(EscapeChar(s[0]), Escape(s[1..]), "\"");
      Assoc(EscapeChar(s[0]), Escape(s[1..]) + "\"", rest);
      ScanLiteral(s[1..], rest, open, close, depth);
      ScanUnit(s[0], tail, open, close, depth);
    }
  }

  lemma {:induction false} ScanQuoted(s: string, rest: string, open: char, close: char, depth: int)
    requires open != '"' && close != '"'
    ensures Scan(Quoted(s) + rest, open, close, depth, false) ==
            Shift(Scan(rest, open, close, depth, false), |Quoted(s)|)
  {
    assert (Quoted(s) + rest)[1..] == Escape(s) + "\"" + rest;
    ScanLiteral(s, rest, open, close, depth);
  }

  /** Nesting depth after raw text, or None where it would close the outermost bracket. */
  function RawDepth(r: string, open: char, close: char, depth: nat): Option<nat> {
    if r == "" then Some(depth)
    else if r[0] == open then RawDepth(r[1..], open, close, depth + 1)
    else if r[0] == close then if depth <= 1 then None else RawDepth(r[1..], open, close, depth - 1)
    else RawDepth(r[1..], open, close, depth)
  }

  function TokenDepth(tokens: seq<Token>, open: char, close: char, depth: nat): Option<nat> {
    if tokens == [] then Some(depth)
    else
      match tokens[0]
      case Str(_) => TokenDepth(tokens[1..], open, close, depth)
      case Raw(text) =>
        match RawDepth(text, open, close, depth)
        case None => None
        case Some(d) => TokenDepth(tokens[1..], open, close, d)
  }

  lemma {:induction false} ScanRaw(r: string, rest: string, open: char, close: char, depth: nat)
    requires open != close && open != '"' && close != '"' && '"' !in r
    requires RawDepth(r, open, close, depth).Some?
    ensures Scan(r + rest, open, close, depth, false) ==
            Shift(Scan(rest, open, close, RawDepth(r, open, close, depth).value, false), |r|)
    decreases |r|
  {
    if r == "" {
      assert r + rest == rest;
    } else {
      assert (r + rest)[0] == r[0] && (r + rest)[1..] == r[1..] + rest;
      var d := if r[0] == open then depth + 1 else if r[0] == close then depth - 1 else depth;
      ScanRaw(r[1..], rest, open, close, d);
    }
  }

  lemma {:induction false} ScanTokens(tokens: seq<Token>, rest: string, open: char, close: char, depth: nat)
    requires open != close && open != '"' && close != '"'
    requires forall i :: 0 <= i < |tokens| && tokens[i].Raw? ==> '"' !in tokens[i].text
    requires TokenDepth(tokens, open, close, depth).Some?
    ensures Scan(Render(tokens) + rest, open, close, depth, false) ==
            Shift(Scan(rest, open, close, TokenDepth(tokens, open, close, depth).value, false), |Render(tokens)|)
    decreases |tokens|
  {
    if tokens == [] {
      assert Render(tokens) + rest == rest;
    } else {
      var first, more := RenderToken(tokens[0]), Render(tokens[1..]);
      var after := DepthAfter(tokens[0], open, close, depth);
      assert Render(tokens) == first + more;
      Assoc(first, more, rest);
      ScanTokens(tokens[1..], rest, open, close, after);
      ScanToken(tokens[0], more + rest, open, close, depth);
    }
  }

  /** The depth behind one token that does not close the outermost bracket. */
  function DepthAfter(token: Token, open: char, close: char, depth: nat): nat {
    match token
    case Str(_) => depth
    case Raw(text) =>
      match RawDepth(text, open, close, depth)
      case Some(d) => d
      case None => depth
  }

  lemma {:induction false} ScanToken(token: Token, tail: string, open: char, close: char, depth: nat)
    requires open != close && open != '"' && close != '"'
    requires token.Raw? ==> '"' !in token.text && RawDepth(token.text, open, close, depth).Some?
    ensures Scan(RenderToken(token) + tail, open, close, depth, false) ==
            Shift(Scan(tail, open, close, DepthAfter(token, open, close, depth), false), |RenderToken(token)|)
  {
    match token {
      case Str(s) => ScanQuoted(s, tail, open, close, depth);
      case Raw(text) => ScanRaw(text, tail, open, close, depth);
    }
  }

  /** Bracket matching is not misled by brackets inside literals. */
  lemma {:induction false} MatchTokens(tokens: seq<Token>, rest: string, open: char, close: char)
    requires open != close && open != '"' && close != '"'
    requires forall i :: 0 <= i < |tokens| && tokens[i].Raw? ==> '"' !in tokens[i].text
    requires TokenDepth(tokens, open, close, 1) == Some(1)
    ensures MatchContainer([open] + Render(tokens) + [close] + rest, open, close) == Some(|Render(tokens)| + 2)
  {
    var tail := [close] + rest;
    var t := [open] + Render(tokens) + [close] + rest;
    assert t[1..] == Render(tokens) + tail;
    ScanTokens(tokens, tail, open, close, 1);
    assert Scan(tail, open, close, 1, false) == Some(0);
  }
}
