/**
 Nested JSON documents: token lists that a key scan passes over safely wherever they stand, and
 lists of braced blocks that the object loop takes apart again. The library index is such a
 document: objects with lists of objects with objects in them, side by side with other fields.
 */
module TokenBlocks {
  import opened Common
  import opened JsonText
  import opened JsonReader
  import opened JsonObjects

  /** Raw text that by itself decides what follows a literal. */
  predicate Solid(text: string) {
    text != "" && !IdentChar(text[0]) && SkipSpace(text) != ""
  }

  /** Every literal is followed by raw text that decides whether it is a key, and keys are identifiers. */
  predicate Neat(tokens: seq<Token>) {
    tokens == [] ||
    (Neat(tokens[1..]) &&
     match tokens[0]
     case Raw(text) => '"' !in text
     case Str(s) =>
       && |tokens| > 1 && tokens[1].Raw? && Solid(tokens[1].text)
       && (Colon(tokens[1].text) ==> Ident(s)))
  }

  /** The tokens start with the key `key`. */
  predicate KeyHere(tokens: seq<Token>, key: string) {
    |tokens| > 1 && tokens[0] == Str(key) && tokens[1].Raw? && Colon(tokens[1].text)
  }

  /** Some token is the key `key`. */
  predicate Mentions(tokens: seq<Token>, key: string) {
    tokens != [] && (KeyHere(tokens, key) || Mentions(tokens[1..], key))
  }

  lemma {:induction false} SolidColon(text: string, rest: string)
    requires Solid(text)
    ensures Colon(text + rest) == Colon(text) && text + rest != "" && !IdentChar((text + rest)[0])
  {
    SkipSpaceConcat(text, rest);
  }

  lemma {:induction false} NeatSpaced(tokens: seq<Token>, rest: string)
    requires Neat(tokens)
    ensures Spaced(tokens, rest)
    decreases |tokens|
  {
    if tokens != [] {
      NeatSpaced(tokens[1..], rest);
      if tokens[0].Str? {
        var tail := Render(tokens[1..][1..]) + rest;
        SolidColon(tokens[1].text, tail);
        assert Render(tokens[1..]) + rest == tokens[1].text + tail;
      }
    }
  }

  lemma {:induction false} NeatConcat(a: seq<Token>, b: seq<Token>)
    requires Neat(a) && Neat(b)
    ensures Neat(a + b)
    decreases |a|
  {
    if a == [] {
      assert a + b == b;
    } else {
      assert (a + b)[1..] == a[1..] + b;
      NeatConcat(a[1..], b);
    }
  }

  lemma {:induction false} MentionsConcat(a: seq<Token>, b: seq<Token>, key: string)
    requires Neat(a)
    ensures Mentions(a + b, key) <==> Mentions(a, key) || Mentions(b, key)
    decreases |a|
  {
    if a == [] {
      assert a + b == b;
    } else {
      assert (a + b)[1..] == a[1..] + b;
      MentionsConcat(a[1..], b, key);
    }
  }

  lemma {:induction false} NotMentioned(tokens: seq<Token>, rest: string, key: string)
    requires Neat(tokens) && !Mentions(tokens, key)
    ensures FindToken(tokens, rest, key) == None
    decreases |tokens|
  {
    if tokens != [] {
      NotMentioned(tokens[1..], rest, key);
      if tokens[0] == Str(key) {
        var tail := Render(tokens[1..][1..]) + rest;
        SolidColon(tokens[1].text, tail);
        assert Render(tokens[1..]) + rest == tokens[1].text + tail;
      }
    }
  }

  /** What follows a key starts with its colon. */
  lemma {:induction false} ValueColon(value: seq<Token>, rest: string)
    requires value != [] && value[0].Raw? && Solid(value[0].text)
    ensures Colon(Render(value) + rest) == Colon(value[0].text)
  {
    var tail := Render(value[1..]) + rest;
    SolidColon(value[0].text, tail);
    assert Render(value) + rest == value[0].text + tail;
  }

  /** The scan finds the first mention of a key, behind tokens that do not mention it. */
  lemma {:induction false} FindFirst(before: seq<Token>, key: string, value: seq<Token>, rest: string)
    requires Neat(before) && !Mentions(before, key) && Ident(key)
    requires value != [] && value[0].Raw? && Colon(value[0].text) && Neat([Str(key)] + value)
    ensures Colon(Render(value) + rest)
    ensures FindKey(Render(before + ([Str(key)] + value)) + rest, key) == Some(AfterColon(Render(value) + rest))
  {
    var field := [Str(key)] + value;
    assert field[0] == Str(key) && field[1..] == value && field[1] == value[0];
    ValueColon(value, rest);
    NeatConcat(before, field);
    NeatSpaced(before + field, rest);
    FindKeyInDocument(before + field, rest, key);
    FindTokenConcat(before, field, rest, key);
    NotMentioned(before, Render(field) + rest, key);
  }

  // ----- fields -----

  /** `"key": "value"` and a separator. */
  function Pair(key: string, s: string, sep: string): seq<Token> {
    [Str(key), Raw(": "), Str(s), Raw(sep)]
  }

  /** `"key": ` with a number, a truth value or a bracket, and what follows it. */
  function Bare(key: string, text: string): seq<Token> {
    [Str(key), Raw(": " + text)]
  }

  predicate Breaks(sep: string) {
    Solid(sep) && !Colon(sep) && '"' !in sep
  }

  lemma {:induction false} ColonText(text: string)
    ensures Solid(": " + text) && Colon(": " + text)
    ensures text != "" && !Space(text[0]) ==> AfterColon(": " + text) == text
  {
    assert (": " + text)[1..] == " " + text && (" " + text)[1..] == text;
    assert SkipSpace(": " + text) == ": " + text;
    assert SkipSpace(" " + text) == SkipSpace(text);
  }

  /** A literal and the raw text behind it, in front of other tokens. */
  lemma {:induction false} LiteralInFront(s: string, text: string, rest: seq<Token>, key: string)
    requires Solid(text) && '"' !in text && (Colon(text) ==> Ident(s))
    ensures Neat([Str(s), Raw(text)] + rest) <==> Neat(rest)
    ensures Mentions([Str(s), Raw(text)] + rest, key) <==> (s == key && Colon(text)) || Mentions(rest, key)
    ensures Render([Str(s), Raw(text)] + rest) == Quoted(s) + (text + Render(rest))
  {
    var all := [Str(s), Raw(text)] + rest;
    assert all[1..] == [Raw(text)] + rest && all[1..][1..] == rest;
    assert !KeyHere(all[1..], key);
  }

  lemma {:induction false} PairInFront(key: string, s: string, sep: string, rest: seq<Token>, k: string)
    requires Ident(key) && Breaks(sep)
    ensures Neat(Pair(key, s, sep) + rest) <==> Neat(rest)
    ensures Mentions(Pair(key, s, sep) + rest, k) <==> k == key || Mentions(rest, k)
    ensures Render(Pair(key, s, sep) + rest) == Quoted(key) + (": " + (Quoted(s) + (sep + Render(rest))))
  {
    ColonText("");
    assert ": " + "" == ": ";
    LiteralInFront(s, sep, rest, k);
    LiteralInFront(key, ": ", [Str(s), Raw(sep)] + rest, k);
    assert Pair(key, s, sep) + rest == [Str(key), Raw(": ")] + ([Str(s), Raw(sep)] + rest);
  }

  lemma {:induction false} BareInFront(key: string, text: string, rest: seq<Token>, k: string)
    requires Ident(key) && '"' !in text
    ensures Neat(Bare(key, text) + rest) <==> Neat(rest)
    ensures Mentions(Bare(key, text) + rest, k) <==> k == key || Mentions(rest, k)
    ensures Render(Bare(key, text) + rest) == Quoted(key) + (": " + text + Render(rest))
  {
    ColonText(text);
    LiteralInFront(key, ": " + text, rest, k);
  }

  /** Reading the first pair with this key. */
  lemma {:induction false} ReadPair(before: seq<Token>, key: string, s: string, sep: string, after: seq<Token>,
                                    capacity: nat, prior: string)
    requires Neat(before) && !Mentions(before, key) && Ident(key) && Breaks(sep) && Neat(after) && capacity > 0
    ensures GetString(Render(before + (Pair(key, s, sep) + after)), key, capacity, prior) == Fit(ReadBack(s), capacity)
  {
    PairFound(before, key, s, sep, after);
    ReadQuoted(s, sep + Render(after), capacity);
  }

  lemma {:induction false} PairFound(before: seq<Token>, key: string, s: string, sep: string, after: seq<Token>)
    requires Neat(before) && !Mentions(before, key) && Ident(key) && Breaks(sep) && Neat(after)
    ensures FindKey(Render(before + (Pair(key, s, sep) + after)), key) == Some(Quoted(s) + (sep + Render(after)))
  {
    var tail := [Str(s), Raw(sep)] + after;
    LiteralInFront(s, sep, after, key);
    PairAsBare(key, s, sep, after);
    BareFound(before, key, "", tail);
    PairText(Quoted(s), sep + Render(after));
    ValueAfterColon(Quoted(s), sep + Render(after));
  }

  lemma {:induction false} PairAsBare(key: string, s: string, sep: string, after: seq<Token>)
    ensures Pair(key, s, sep) + after == Bare(key, "") + ([Str(s), Raw(sep)] + after)
  {
    assert ": " + "" == ": ";
  }

  lemma {:induction false} PairText(q: string, rest: string)
    ensures ": " + "" + (q + rest) + "" == ": " + q + rest
  {
  }

  // ----- depth -----

  lemma {:induction false} RawDepthConcat(a: string, b: string, open: char, close: char, depth: nat)
    ensures RawDepth(a + b, open, close, depth) ==
            match RawDepth(a, open, close, depth)
            case None => None
            case Some(d) => RawDepth(b, open, close, d)
    decreases |a|
  {
    if a == "" {
      assert a + b == b;
    } else {
      assert (a + b)[0] == a[0] && (a + b)[1..] == a[1..] + b;
      var d := if a[0] == open then depth + 1 else if a[0] == close then depth - 1 else depth;
      if !(a[0] != open && a[0] == close && depth <= 1) {
        RawDepthConcat(a[1..], b, open, close, d);
      }
    }
  }

  /** One bracket between text without brackets. */
  lemma {:induction false} OneBracket(a: string, x: char, b: string, open: char, close: char, depth: nat)
    requires NoBrackets(a) && NoBrackets(b) && x in BRACKETS && open in BRACKETS && close in BRACKETS && open != close
    requires x == close ==> depth > 1
    ensures RawDepth(a + [x] + b, open, close, depth) ==
            Some(if x == open then depth + 1 else if x == close then depth - 1 else depth)
  {
    var d := if x == open then depth + 1 else if x == close then depth - 1 else depth;
    NoBracketsKeepDepth(a, open, close, depth);
    NoBracketsKeepDepth(b, open, close, d);
    assert [x][1..] == "";
    RawDepthConcat(a, [x] + b, open, close, depth);
    RawDepthConcat([x], b, open, close, depth);
    assert a + [x] + b == a + ([x] + b);
  }

  /** Tokens that leave the nesting depth as it is, at any depth inside a bracket. */
  ghost predicate Level(tokens: seq<Token>, open: char, close: char) {
    forall depth: nat :: depth > 0 ==> TokenDepth(tokens, open, close, depth) == Some(depth)
  }

  lemma {:induction false} LevelConcat(a: seq<Token>, b: seq<Token>, open: char, close: char)
    requires Level(a, open, close) && Level(b, open, close)
    ensures Level(a + b, open, close)
  {
    forall depth: nat | depth > 0
      ensures TokenDepth(a + b, open, close, depth) == Some(depth)
    {
      DepthConcat(a, b, open, close, depth);
    }
  }

  lemma {:induction false} FlatLevel(tokens: seq<Token>, open: char, close: char)
    requires open in BRACKETS && close in BRACKETS && NoRawBrackets(tokens)
    ensures Level(tokens, open, close)
  {
    forall depth: nat | depth > 0
      ensures TokenDepth(tokens, open, close, depth) == Some(depth)
    {
      FlatDepth(tokens, open, close, depth);
    }
  }

  lemma {:induction false} NeatNoQuotes(tokens: seq<Token>)
    requires Neat(tokens)
    ensures NoRawQuotes(tokens)
    decreases |tokens|
  {
    if tokens != [] {
      NeatNoQuotes(tokens[1..]);
      assert tokens == [tokens[0]] + tokens[1..];
    }
  }

  // ----- lists of blocks -----

  /** Blocks one after the other, with text in front of the first and between them. */
  function Blocks(blocks: seq<seq<Token>>, first: string, between: string): seq<Token>
    decreases |blocks|
  {
    if blocks == [] then [] else [Raw(first)] + (blocks[0] + Blocks(blocks[1..], between, between))
  }

  predicate AllNeat(blocks: seq<seq<Token>>) {
    forall i :: 0 <= i < |blocks| ==> Neat(blocks[i])
  }

  lemma {:induction false} BlocksNeat(blocks: seq<seq<Token>>, first: string, between: string, key: string)
    requires AllNeat(blocks) && '"' !in first && '"' !in between
    requires forall i :: 0 <= i < |blocks| ==> !Mentions(blocks[i], key)
    ensures Neat(Blocks(blocks, first, between)) && !Mentions(Blocks(blocks, first, between), key)
    decreases |blocks|
  {
    if blocks != [] {
      var rest := Blocks(blocks[1..], between, between);
      BlocksNeat(blocks[1..], between, between, key);
      NeatConcat(blocks[0], rest);
      MentionsConcat(blocks[0], rest, key);
      assert Blocks(blocks, first, between)[1..] == blocks[0] + rest;
    }
  }

  lemma {:induction false} BlocksLevel(blocks: seq<seq<Token>>, first: string, between: string, open: char, close: char)
    requires open in BRACKETS && close in BRACKETS
    requires NoBrackets(first) && NoBrackets(between) && '"' !in first && '"' !in between
    requires forall i :: 0 <= i < |blocks| ==> Level(blocks[i], open, close)
    ensures Level(Blocks(blocks, first, between), open, close)
    decreases |blocks|
  {
    if blocks != [] {
      var rest := Blocks(blocks[1..], between, between);
      BlocksLevel(blocks[1..], between, between, open, close);
      LevelConcat(blocks[0], rest, open, close);
      FlatLevel([Raw(first)], open, close);
      LevelConcat([Raw(first)], blocks[0] + rest, open, close);
    }
  }

  /** Tokens whose text is one braced group. */
  ghost predicate Braced(block: seq<Token>) {
    && Render(block) != "" && Render(block)[0] == '{'
    && forall rest :: MatchContainer(Render(block) + rest, '{', '}') == Some(|Render(block)|)
  }

  /** A neat block with level contents between its braces is such a group. */
  lemma {:induction false} BracedGroup(inner: seq<Token>, block: seq<Token>)
    requires Neat(inner) && Level(inner, '{', '}')
    requires Render(block) == "{" + Render(inner) + "}"
    ensures Braced(block)
  {
    NeatNoQuotes(inner);
    forall rest
      ensures MatchContainer(Render(block) + rest, '{', '}') == Some(|Render(block)|)
    {
      MatchTokens(inner, rest, '{', '}');
      assert Render(block) + rest == ['{'] + Render(inner) + ['}'] + rest;
    }
  }

  /** The object loop takes the first block off a list of them. */
  lemma {:induction false} NextBlock(blocks: seq<seq<Token>>, pre: string, first: string, between: string, end: string)
    requires blocks != [] && Braced(blocks[0]) && '{' !in pre && '{' !in first && '"' !in first
    ensures NextObject(pre + (Render(Blocks(blocks, first, between)) + end)) ==
            Some((Render(blocks[0]), Render(Blocks(blocks[1..], between, between)) + end))
  {
    var block, rest := Render(blocks[0]), Render(Blocks(blocks[1..], between, between)) + end;
    RenderConcat(blocks[0], Blocks(blocks[1..], between, between));
    RawInFront(first, blocks[0] + Blocks(blocks[1..], between, between), "", "");
    var u := block + rest;
    Regrouped(pre, first, block, Render(Blocks(blocks[1..], between, between)), end);
    assert u[0] == '{';
    SkipToAt(pre + first, u, '{');
    assert u[..|block|] == block && u[|block|..] == rest;
  }

  lemma {:induction false} Regrouped(a: string, b: string, c: string, d: string, e: string)
    ensures a + (b + (c + d) + e) == (a + b) + (c + (d + e))
  {
  }

  /** A list between square brackets is found by its name, behind tokens that do not mention it. */
  lemma {:induction false} FindList(before: seq<Token>, name: string, open: string, inner: seq<Token>, close: string,
                                    after: seq<Token>)
    requires Neat(before) && !Mentions(before, name) && Ident(name)
    requires Neat(inner) && Level(inner, '[', ']') && Neat(after)
    requires NoBrackets(open) && '"' !in open && NoBrackets(close) && '"' !in close
    ensures FindContainer(Render(before + (Bare(name, "[" + open) + (inner + ([Raw(close + "]")] + after)))), name, '[', ']')
            == Some(open + Render(inner) + close)
  {
    ListKey(before, name, open, inner, close, after);
    ListFound(open, inner, close, Render(after));
  }

  lemma {:induction false} ListKey(before: seq<Token>, name: string, open: string, inner: seq<Token>, close: string,
                                   after: seq<Token>)
    requires Neat(before) && !Mentions(before, name) && Ident(name)
    requires Neat(inner) && Neat(after) && '"' !in open && '"' !in close
    ensures var t := ": " + ("[" + open) + (Render(inner) + (close + "]" + Render(after))) + "";
            && Colon(t)
            && FindKey(Render(before + (Bare(name, "[" + open) + (inner + ([Raw(close + "]")] + after)))), name)
               == Some(AfterColon(t))
  {
    var tail := inner + ([Raw(close + "]")] + after);
    ListTail(inner, close, after);
    BareFound(before, name, "[" + open, tail);
  }

  /** The text behind a name that is followed by a bare value. */
  lemma {:induction false} BareFound(before: seq<Token>, name: string, text: string, tail: seq<Token>)
    requires Neat(before) && !Mentions(before, name) && Ident(name) && '"' !in text && Neat(tail)
    ensures Colon(": " + text + Render(tail) + "")
    ensures FindKey(Render(before + (Bare(name, text) + tail)), name) == Some(AfterColon(": " + text + Render(tail) + ""))
  {
    var value := [Raw(": " + text)] + tail;
    BareInFront(name, text, tail, name);
    assert Bare(name, text) + tail == [Str(name)] + value;
    ColonText(text);
    FindFirst(before, name, value, "");
    assert Render(before + ([Str(name)] + value)) + "" == Render(before + ([Str(name)] + value));
    RawInFront(": " + text, tail, "", "");
  }

  /** From the text behind the name to the text between the brackets. */
  lemma {:induction false} ListFound(open: string, inner: seq<Token>, close: string, after: string)
    requires Neat(inner) && Level(inner, '[', ']')
    requires NoBrackets(open) && '"' !in open && NoBrackets(close) && '"' !in close
    ensures var t := ": " + ("[" + open) + (Render(inner) + (close + "]" + after)) + "";
            && Colon(t)
            && MatchContainer(AfterColon(t), '[', ']') == Some(|open + Render(inner) + close| + 2)
            && AfterColon(t)[1..|open + Render(inner) + close| + 1] == open + Render(inner) + close
  {
    var body := open + Render(inner) + close;
    ListValue(open, Render(inner), close, after);
    ValueAfterColon("[" + body + "]" + after, "");
    Unwrapped(body, after);
    ListMatches(open, inner, close, after);
  }

  lemma {:induction false} Unwrapped(body: string, after: string)
    ensures "[" + body + "]" + after + "" == "[" + body + "]" + after
    ensures ": " + ("[" + body + "]" + after) + "" == ": " + ("[" + body + "]" + after)
    ensures ("[" + body + "]" + after)[1..|body| + 1] == body
  {
  }

  lemma {:induction false} ListTail(inner: seq<Token>, close: string, after: seq<Token>)
    requires Neat(inner) && Neat(after) && '"' !in close
    ensures Neat(inner + ([Raw(close + "]")] + after))
    ensures Render(inner + ([Raw(close + "]")] + after)) == Render(inner) + (close + "]" + Render(after))
  {
    assert ([Raw(close + "]")] + after)[1..] == after;
    NeatConcat(inner, [Raw(close + "]")] + after);
    RenderConcat(inner, [Raw(close + "]")] + after);
    RawInFront(close + "]", after, "", "");
  }

  lemma {:induction false} ListValue(open: string, inner: string, close: string, after: string)
    ensures ": " + ("[" + open) + (inner + (close + "]" + after)) + "" ==
            ": " + ("[" + (open + inner + close) + "]" + after) + ""
  {
  }

  lemma {:induction false} ListMatches(open: string, inner: seq<Token>, close: string, rest: string)
    requires Neat(inner) && Level(inner, '[', ']')
    requires NoBrackets(open) && '"' !in open && NoBrackets(close) && '"' !in close
    ensures var body := open + Render(inner) + close;
            MatchContainer("[" + body + "]" + rest, '[', ']') == Some(|body| + 2)
  {
    WrappedNeat(open, inner, close);
    WrappedLevel(open, inner, close);
    MatchTokens([Raw(open)] + (inner + [Raw(close)]), rest, '[', ']');
  }

  lemma {:induction false} WrappedNeat(open: string, inner: seq<Token>, close: string)
    requires Neat(inner) && '"' !in open && '"' !in close
    ensures NoRawQuotes([Raw(open)] + (inner + [Raw(close)]))
    ensures Render([Raw(open)] + (inner + [Raw(close)])) == open + Render(inner) + close
  {
    NeatNoQuotes(inner);
    RenderRaw(close);
    RenderConcat(inner, [Raw(close)]);
    RawInFront(open, inner + [Raw(close)], "", "");
    Assoc(open, Render(inner), close);
  }

  lemma {:induction false} WrappedLevel(open: string, inner: seq<Token>, close: string)
    requires Level(inner, '[', ']') && NoBrackets(open) && '"' !in open && NoBrackets(close) && '"' !in close
    ensures Level([Raw(open)] + (inner + [Raw(close)]), '[', ']')
  {
    FlatLevel([Raw(close)], '[', ']');
    LevelConcat(inner, [Raw(close)], '[', ']');
    FlatLevel([Raw(open)], '[', ']');
    LevelConcat([Raw(open)], inner + [Raw(close)], '[', ']');
  }

  /** A named list behind a run of other fields of the same object. */
  lemma {:induction false} FindSection(open: string, items: seq<Token>, name: string, first: string, list: seq<Token>,
                                       last: string, after: seq<Token>)
    requires '"' !in open && Neat(items) && !Mentions(items, name) && Ident(name)
    requires Neat(list) && Level(list, '[', ']') && Neat(after)
    requires NoBrackets(first) && '"' !in first && NoBrackets(last) && '"' !in last
    ensures FindContainer(
              Render([Raw(open)] + (items + (Bare(name, "[" + first) + (list + ([Raw(last + "]")] + after))))), name, '[', ']')
            == Some(first + Render(list) + last)
  {
    assert ([Raw(open)] + items)[1..] == items;
    FindList([Raw(open)] + items, name, first, list, last, after);
    Assoc([Raw(open)], items, Bare(name, "[" + first) + (list + ([Raw(last + "]")] + after)));
  }

  lemma {:induction false} BareText(key: string, v: string)
    ensures Render(Bare(key, v)) == Quoted(key) + (": " + v)
  {
    RenderTwo(Str(key), Raw(": " + v));
  }

  lemma {:induction false} PairRender(key: string, s: string, sep: string)
    ensures Render(Pair(key, s, sep)) == Quoted(key) + (": " + (Quoted(s) + sep))
  {
    RenderTwo(Str(key), Raw(": "));
    RenderTwo(Str(s), Raw(sep));
    RenderConcat([Str(key), Raw(": ")], [Str(s), Raw(sep)]);
    assert [Str(key), Raw(": ")] + [Str(s), Raw(sep)] == Pair(key, s, sep);
    assert (Quoted(key) + ": ") + (Quoted(s) + sep) == Quoted(key) + (": " + (Quoted(s) + sep));
  }

  lemma {:induction false} RenderTwo(a: Token, b: Token)
    ensures Render([a, b]) == RenderToken(a) + RenderToken(b)
  {
    var one := [b];
    assert [a, b] == [a] + one && ([a] + one)[1..] == one;
    assert one[1..] == [] && Render(one) == RenderToken(b) + Render([]);
    assert RenderToken(b) + "" == RenderToken(b);
  }

  /** Braces around tokens without brackets are matched. */
  lemma {:induction false} MatchFlat(tokens: seq<Token>, body: string, after: string)
    requires Render(tokens) == body && NoRawBrackets(tokens)
    ensures MatchContainer("{" + body + "}" + after, '{', '}') == Some(|body| + 2)
  {
    FlatDepth(tokens, '{', '}', 1);
    MatchTokens(tokens, after, '{', '}');
  }

  /** All objects of a list body, as `json_next_object` yields them one by one. */
  function Objects(body: string): seq<string>
    decreases |body|
  {
    match NextObject(body)
    case None => []
    case Some(r) => [r.0] + Objects(r.1)
  }

  function Texts(blocks: seq<seq<Token>>): seq<string> {
    if blocks == [] then [] else [Render(blocks[0])] + Texts(blocks[1..])
  }

  /** Text that stands around blocks: nothing in it looks like one. */
  predicate Filler(text: string) {
    '{' !in text && '"' !in text
  }

  lemma {:induction false} ObjectsStep(body: string, obj: string, rest: string)
    requires NextObject(body) == Some((obj, rest))
    ensures Objects(body) == [obj] + Objects(rest)
  {
  }

  lemma {:induction false} ObjectsNone(body: string)
    requires '{' !in body
    ensures Objects(body) == []
  {
    NoMoreEntries(body);
  }

  /** The objects of a printed list are its blocks. */
  lemma {:induction false} ObjectsOfBlocks(blocks: seq<seq<Token>>, pre: string, first: string, between: string,
                                           end: string)
    requires forall i :: 0 <= i < |blocks| ==> Braced(blocks[i])
    requires Filler(pre) && Filler(first) && Filler(between) && Filler(end)
    ensures Objects(pre + (Render(Blocks(blocks, first, between)) + end)) == Texts(blocks)
    decreases |blocks|
  {
    if blocks == [] {
      assert Render([]) + end == end;
      ObjectsNone(pre + end);
    } else {
      var rest := Render(Blocks(blocks[1..], between, between)) + end;
      NextBlock(blocks, pre, first, between, end);
      ObjectsStep(pre + (Render(Blocks(blocks, first, between)) + end), Render(blocks[0]), rest);
      ObjectsOfBlocks(blocks[1..], "", between, between, end);
      assert "" + rest == rest;
    }
  }
}
