/** The splitting of command lines beside the shell language's own rules. */
module PosixWords {
  // Sections 2.2 and 2.3 of the POSIX shell language: which characters are special outside quotes, that
  // a backslash quotes like single quotes do, and that a tab separates words like a space.

  import opened Common
  import Decimal
  import opened ShellWords

  /** Every character behind a backslash. */
  function Slashed(s: string): string {
    if s == "" then "" else ['\\', s[0]] + Slashed(s[1..])
  }

  /** Text written with backslashes is read as the same text in single quotes. */
  lemma {:induction false} SlashedIsQuoted(s: string, rest: string, sofar: seq<Mark>)
    requires '\n' !in s
    ensures Split(Slashed(s) + rest, Some(sofar), false) == Split(Quote(s) + rest, Some(sofar), false)
    ensures s != "" ==> Split(Slashed(s) + rest, None, false) == Split(Quote(s) + rest, None, false)
  {
    SplitSlashed(s, rest, sofar);
    SplitQuote(s, rest, Some(sofar));
    if s != "" {
      SplitSlashed(s, rest, []);
      SplitQuote(s, rest, None);
      SlashStarts(s[0], Slashed(s[1..]) + rest);
      assert Slashed(s) + rest == ['\\', s[0]] + (Slashed(s[1..]) + rest);
    }
  }

  lemma {:induction false} SlashStarts(c: char, tail: string)
    ensures Split(['\\', c] + tail, None, false) == Split(['\\', c] + tail, Some([]), false)
  {
    assert (['\\', c] + tail)[0] == '\\';
  }

  lemma {:induction false} SplitSlashed(s: string, rest: string, sofar: seq<Mark>)
    requires '\n' !in s
    ensures Split(Slashed(s) + rest, Some(sofar), false) == Split(rest, Some(sofar + Marked(s, true)), false)
    decreases |s|
  {
    if s == "" {
      assert Slashed(s) + rest == rest && sofar + Marked(s, true) == sofar;
    } else {
      var tail := Slashed(s[1..]) + rest;
      assert Slashed(s) + rest == ['\\', s[0]] + tail;
      SplitSlash(s[0], tail, sofar);
      SplitSlashed(s[1..], rest, sofar + [Mark(s[0], true)]);
      assert sofar + [Mark(s[0], true)] + Marked(s[1..], true) == sofar + Marked(s, true);
    }
  }

  lemma {:induction false} SplitSlash(c: char, tail: string, sofar: seq<Mark>)
    requires c != '\n'
    ensures Split(['\\', c] + tail, Some(sofar), false) == Split(tail, Some(sofar + [Mark(c, true)]), false)
  {
    assert (['\\', c] + tail)[2..] == tail;
  }

  /** A tab between two words does what a space does. */
  lemma {:induction false} TabSeparates(v: Word, w: Word)
    requires GoodWord(v) && GoodWord(w)
    ensures Parse(WordText(v) + "\t" + WordText(w)) == Parse(WordText(v) + " " + WordText(w)) ==
            Parse(CommandText([v, w]))
  {
    SplitWord(v, "\t" + WordText(w));
    SplitWord(v, " " + WordText(w));
    assert WordText(v) + "\t" + WordText(w) == WordText(v) + ("\t" + WordText(w));
    assert WordText(v) + " " + WordText(w) == WordText(v) + (" " + WordText(w));
    assert ("\t" + WordText(w))[1..] == WordText(w) == (" " + WordText(w))[1..];
    assert [v, w][1..] == [w];
    assert CommandText([v, w]) == WordText(v) + " " + CommandText([w]);
  }

  /** A text without quotes and blanks is one word when none of these characters is in it, and no command otherwise. */
  lemma {:induction false} OneBareWord(s: string)
    requires s != "" && forall c :: c in s ==> c !in "'\\ \t"
    ensures Split(s, None, false) ==
            if forall c :: c in s ==> c !in "|&;<>()$`\"*?[#~%\n!{}" then Some([Marked(s, false)]) else None
  {
    if c :| c in s && c in "|&;<>()$`\"*?[#~%\n!{}" {
      SpecialAre(c);
      SpecialRefused(s, None, c);
    } else {
      forall i | 0 <= i < |s|
        ensures SafeChar(s[i])
      {
        assert s[i] in s;
        SpecialAre(s[i]);
      }
      SplitStart(s, "");
      SplitSafe(s, "", []);
      assert s + "" == s && [] + Marked(s, false) == Marked(s, false);
    }
  }

  lemma {:induction false} SpecialRefused(s: string, word: Option<seq<Mark>>, c: char)
    requires c in s && c in SPECIAL && forall d :: d in s ==> d !in "'\\ \t"
    ensures Split(s, word, false).None?
    decreases |s|
  {
    var sofar := if word.Some? then word.value else [];
    assert s[0] in s && s == [s[0]] + s[1..];
    if s[0] !in SPECIAL {
      SpecialRefused(s[1..], Some(sofar + [Mark(s[0], false)]), c);
    }
  }

  lemma {:induction false} SpecialAre(c: char)
    ensures c in SPECIAL <==> c in "|&;<>()$`\"*?[#~%\n!{}"
  {
  }

  /** Names of variables: letters, digits and underscores, no digit first. */
  lemma {:induction false} NameIs(s: string)
    ensures IsName(s) <==>
            && |s| > 0 && !(0x30 <= s[0] as int <= 0x39)
            && forall c :: c in s ==>
                 || 0x61 <= c as int <= 0x7a || 0x41 <= c as int <= 0x5a || c as int == 0x5f
                 || 0x30 <= c as int <= 0x39
  {
    forall c: char
      ensures NameChar(c) <==> 0x61 <= c as int <= 0x7a || 0x41 <= c as int <= 0x5a || c as int == 0x5f
                               || 0x30 <= c as int <= 0x39
    {
      assert Decimal.Digit(c) <==> 0x30 <= c as int <= 0x39;
    }
    if IsName(s) {
      forall c | c in s
        ensures NameChar(c)
      {
        var i :| 0 <= i < |s| && s[i] == c;
        assert NameChar(s[i]);
      }
    }
    forall i | 0 <= i < |s|
      ensures s[i] in s
    {
    }
  }
}
