/** JSON texts and the values they denote, by RFC 8259. */
module JsonGrammar {
  // Sections 2 (white space), 4 (objects), 5 (arrays), 6 (integers) and 7 (strings), with no reference
  // to what the program prints or reads.

  datatype Json =
    | JString(s: string)
    | JNumber(n: int)
    | JBool(b: bool)
    | JNull
    | JArray(items: seq<Json>)
    | JObject(members: seq<Pair>)

  datatype Pair = Pair(key: string, value: Json)

  predicate White(t: string) {
    forall i :: 0 <= i < |t| ==> t[i] == ' ' || t[i] == '\t' || t[i] == '\n' || t[i] == '\r'
  }

  /** The value of a hexadecimal digit, or -1. */
  function HexValue(h: char): int {
    if '0' <= h <= '9' then h as int - '0' as int
    else if 'a' <= h <= 'f' then h as int - 'a' as int + 10
    else if 'A' <= h <= 'F' then h as int - 'A' as int + 10
    else -1
  }

  /** The two-character escapes. */
  const ESCAPES: seq<(char, int)> :=
    [('"', 0x22), ('\\', 0x5C), ('/', 0x2F), ('b', 0x08), ('f', 0x0C), ('n', 0x0A), ('r', 0x0D), ('t', 0x09)]

  /** The text stands for one character of a string. */
  predicate CharText(u: string, c: char) {
    || (|u| == 1 && u[0] == c && c as int >= 0x20 && c != '"' && c != '\\')
    || (|u| == 2 && u[0] == '\\' && (u[1], c as int) in ESCAPES)
    || (|u| == 6 && u[0] == '\\' && u[1] == 'u'
        && HexValue(u[2]) >= 0 && HexValue(u[3]) >= 0 && HexValue(u[4]) >= 0 && HexValue(u[5]) >= 0
        && c as int ==
           0x1000 * HexValue(u[2]) + 0x100 * HexValue(u[3]) + 0x10 * HexValue(u[4]) + HexValue(u[5]))
  }

  ghost predicate CharsText(t: string, s: string)
    decreases |s|
  {
    if s == "" then t == ""
    else exists n: nat :: 0 < n <= |t| && CharText(t[..n], s[0]) && CharsText(t[n..], s[1..])
  }

  ghost predicate StringText(t: string, s: string) {
    |t| >= 2 && t[0] == '"' && t[|t| - 1] == '"' && CharsText(t[1..|t| - 1], s)
  }

  function DecimalValue(t: string): int {
    if t == "" then 0 else 10 * DecimalValue(t[..|t| - 1]) + (t[|t| - 1] as int - '0' as int)
  }

  predicate NaturalText(t: string, n: int) {
    && t != "" && (forall i :: 0 <= i < |t| ==> '0' <= t[i] <= '9') && (|t| > 1 ==> t[0] != '0')
    && DecimalValue(t) == n
  }

  predicate NumberText(t: string, n: int) {
    if t != "" && t[0] == '-' then NaturalText(t[1..], -n) else NaturalText(t, n)
  }

  ghost predicate Denotes(t: string, v: Json)
    decreases v, 0
  {
    match v
    case JString(s) => StringText(t, s)
    case JNumber(n) => NumberText(t, n)
    case JBool(b) => t == if b then "true" else "false"
    case JNull => t == "null"
    case JArray(items) => |t| >= 2 && t[0] == '[' && t[|t| - 1] == ']' && Elements(t[1..|t| - 1], items)
    case JObject(members) => |t| >= 2 && t[0] == '{' && t[|t| - 1] == '}' && Members(t[1..|t| - 1], members)
  }

  /** A value between white space. */
  ghost predicate Padded(t: string, v: Json)
    decreases v, 1
  {
    exists before, u, after :: t == before + u + after && White(before) && Denotes(u, v) && White(after)
  }

  ghost predicate Elements(t: string, vs: seq<Json>)
    decreases vs
  {
    if vs == [] then White(t)
    else if |vs| == 1 then Padded(t, vs[0])
    else exists first, rest :: t == first + "," + rest && Padded(first, vs[0]) && Elements(rest, vs[1..])
  }

  /** A name between white space. */
  ghost predicate Named(t: string, key: string) {
    exists before, u, after :: t == before + u + after && White(before) && StringText(u, key) && White(after)
  }

  ghost predicate Member(t: string, p: Pair)
    decreases p
  {
    exists name, rest :: t == name + ":" + rest && Named(name, p.key) && Padded(rest, p.value)
  }

  ghost predicate Members(t: string, ps: seq<Pair>)
    decreases ps
  {
    if ps == [] then White(t)
    else if |ps| == 1 then Member(t, ps[0])
    else exists first, rest :: t == first + "," + rest && Member(first, ps[0]) && Members(rest, ps[1..])
  }

  // ----- putting texts together -----

  lemma {:induction false} WhiteConcat(a: string, b: string)
    requires White(a) && White(b)
    ensures White(a + b)
  {
  }

  lemma {:induction false} PaddedBetween(before: string, u: string, after: string, v: Json)
    requires White(before) && Padded(u, v) && White(after)
    ensures Padded(before + u + after, v)
  {
    hide Denotes, White;
    var b, w, a :| u == b + w + a && White(b) && Denotes(w, v) && White(a);
    WhiteConcat(before, b);
    WhiteConcat(a, after);
    Widened(before, b, w, a, after);
  }

  lemma {:induction false} DenotedIsPadded(u: string, v: Json)
    requires Denotes(u, v)
    ensures Padded(u, v)
  {
    hide Denotes;
    assert u == "" + u + "" && White("");
  }

  lemma {:induction false} MemberBetween(before: string, u: string, after: string, p: Pair)
    requires White(before) && Member(u, p) && White(after)
    ensures Member(before + u + after, p)
  {
    hide Padded, StringText, White;
    var name, rest :| u == name + ":" + rest && Named(name, p.key) && Padded(rest, p.value);
    NamedBehind(before, name, p.key);
    NoWhite();
    PaddedBetween("", rest, after, p.value);
    Parted(before, name, ':', rest, after);
  }

  lemma {:induction false} NamedBehind(before: string, name: string, key: string)
    requires White(before) && Named(name, key)
    ensures Named(before + name + "", key)
  {
    hide StringText, White;
    var b, w, a :| name == b + w + a && White(b) && StringText(w, key) && White(a);
    WhiteConcat(before, b);
    Widened(before, b, w, a, "");
    assert a + "" == a;
  }

  lemma {:induction false} Widened(before: string, b: string, w: string, a: string, after: string)
    ensures before + (b + w + a) + after == (before + b) + w + (a + after)
  {
  }

  lemma {:induction false} Parted(before: string, first: string, c: char, rest: string, after: string)
    ensures before + (first + [c] + rest) + after == (before + first + "") + [c] + ("" + rest + after)
  {
  }

  lemma {:induction false} NoWhite()
    ensures White("")
  {
  }

  /** A name, a colon and a blank, and a value. */
  lemma {:induction false} MemberText(name: string, text: string, p: Pair)
    requires StringText(name, p.key) && Padded(text, p.value)
    ensures Member(name + ": " + text, p)
  {
    hide Padded, StringText;
    assert White(" ") && White("");
    PaddedBetween(" ", text, "", p.value);
    assert name == "" + name + "";
    assert Named(name, p.key);
    assert name + ": " + text == name + ":" + (" " + text + "");
  }

  lemma {:induction false} MembersBetween(before: string, u: string, after: string, ps: seq<Pair>)
    requires White(before) && ps != [] && Members(u, ps) && White(after)
    ensures Members(before + u + after, ps)
    decreases |ps|
  {
    hide Member, White;
    NoWhite();
    if |ps| == 1 {
      MemberBetween(before, u, after, ps[0]);
    } else {
      var first, rest :| u == first + "," + rest && Member(first, ps[0]) && Members(rest, ps[1..]);
      MemberBetween(before, first, "", ps[0]);
      MembersBetween("", rest, after, ps[1..]);
      Parted(before, first, ',', rest, after);
    }
  }

  lemma {:induction false} MembersOne(t: string, p: Pair)
    requires Member(t, p)
    ensures Members(t, [p])
  {
  }

  lemma {:induction false} MembersCons(first: string, rest: string, p: Pair, ps: seq<Pair>)
    requires Member(first, p) && ps != [] && Members(rest, ps)
    ensures Members(first + "," + rest, [p] + ps)
  {
    hide Member;
    assert ([p] + ps)[1..] == ps;
  }

  lemma {:induction false} ElementsCons(first: string, rest: string, v: Json, vs: seq<Json>)
    requires Padded(first, v) && vs != [] && Elements(rest, vs)
    ensures Elements(first + "," + rest, [v] + vs)
  {
    hide Padded;
    assert ([v] + vs)[1..] == vs;
  }

  lemma {:induction false} ElementsBetween(before: string, u: string, after: string, vs: seq<Json>)
    requires White(before) && Elements(u, vs) && White(after)
    ensures Elements(before + u + after, vs)
    decreases |vs|
  {
    hide Padded, White;
    NoWhite();
    if vs == [] {
      WhiteConcat(before, u);
      WhiteConcat(before + u, after);
    } else if |vs| == 1 {
      PaddedBetween(before, u, after, vs[0]);
    } else {
      var first, rest :| u == first + "," + rest && Padded(first, vs[0]) && Elements(rest, vs[1..]);
      PaddedBetween(before, first, "", vs[0]);
      ElementsBetween("", rest, after, vs[1..]);
      Parted(before, first, ',', rest, after);
    }
  }

  lemma {:induction false} ObjectText(inside: string, ps: seq<Pair>)
    requires Members(inside, ps)
    ensures Denotes("{" + inside + "}", JObject(ps))
  {
    hide Members;
    assert ("{" + inside + "}")[1..|inside| + 1] == inside;
  }

  lemma {:induction false} ArrayText(inside: string, vs: seq<Json>)
    requires Elements(inside, vs)
    ensures Denotes("[" + inside + "]", JArray(vs))
  {
    hide Elements;
    assert ("[" + inside + "]")[1..|inside| + 1] == inside;
  }
}
