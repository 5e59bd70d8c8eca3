/** How one-line files are read. */
module Lines {
  // Python's `str.strip` and the shell's command substitution.

  /** What `str.strip` removes at both ends. */
  predicate Stripped(c: char) {
    var n := c as int;
    9 <= n <= 13 || 0x1C <= n <= 0x20 || 0x2000 <= n <= 0x200A
    || n in {0x85, 0xA0, 0x1680, 0x2028, 0x2029, 0x202F, 0x205F, 0x3000}
  }

  function StripLeft(s: string): string
    decreases |s|
  {
    if s != "" && Stripped(s[0]) then StripLeft(s[1..]) else s
  }

  function StripRight(s: string): string
    decreases |s|
  {
    if s != "" && Stripped(s[|s| - 1]) then StripRight(s[..|s| - 1]) else s
  }

  /** `text.strip()` */
  function Strip(s: string): string {
    StripRight(StripLeft(s))
  }

  /** The text of a substituted command, which loses the newlines at its end and nothing else. */
  function Substituted(s: string): string
    decreases |s|
  {
    if s != "" && s[|s| - 1] == '\n' then Substituted(s[..|s| - 1]) else s
  }

  // ----- what they mean -----

  ghost predicate Blank(s: string) {
    forall c :: c in s ==> Stripped(c)
  }

  /** `line` is the text between the blanks at both ends. */
  ghost predicate IsLine(text: string, line: string) {
    && (exists before, after :: Blank(before) && Blank(after) && text == before + line + after)
    && (line != "" ==> !Stripped(line[0]) && !Stripped(line[|line| - 1]))
  }

  /** White space as the Unicode Character Database lists it, and the four separators of ASCII. */
  lemma {:induction false} BlankCharacters(c: char)
    ensures Stripped(c) <==>
            c in {' ', '\t', '\n', '\r', '\U{B}', '\U{C}', '\U{1C}', '\U{1D}', '\U{1E}', '\U{1F}', '\U{85}', '\U{A0}',
                  '\U{1680}', '\U{2000}', '\U{2001}', '\U{2002}', '\U{2003}', '\U{2004}', '\U{2005}', '\U{2006}',
                  '\U{2007}', '\U{2008}', '\U{2009}', '\U{200A}', '\U{2028}', '\U{2029}', '\U{202F}', '\U{205F}',
                  '\U{3000}'}
  {
  }

  lemma {:induction false} StripLeftParts(s: string) returns (before: string)
    ensures Blank(before) && s == before + StripLeft(s)
    ensures StripLeft(s) != "" ==> !Stripped(StripLeft(s)[0])
    decreases |s|
  {
    before := "";
    if s != "" && Stripped(s[0]) {
      var rest := StripLeftParts(s[1..]);
      before := [s[0]] + rest;
    }
  }

  lemma {:induction false} StripRightParts(s: string) returns (after: string)
    ensures Blank(after) && s == StripRight(s) + after
    ensures StripRight(s) != "" ==> !Stripped(StripRight(s)[|StripRight(s)| - 1])
    decreases |s|
  {
    after := "";
    if s != "" && Stripped(s[|s| - 1]) {
      var rest := StripRightParts(s[..|s| - 1]);
      after := rest + [s[|s| - 1]];
    }
  }

  lemma {:induction false} StripLeftBlank(before: string, s: string)
    requires Blank(before) && (s != "" ==> !Stripped(s[0]))
    ensures StripLeft(before + s) == s
    decreases |before|
  {
    if before == "" {
      assert before + s == s;
    } else {
      assert before[0] in before && (before + s)[1..] == before[1..] + s;
      StripLeftBlank(before[1..], s);
    }
  }

  lemma {:induction false} StripRightBlank(s: string, after: string)
    requires Blank(after) && (s != "" ==> !Stripped(s[|s| - 1]))
    ensures StripRight(s + after) == s
    decreases |after|
  {
    var n := |after| - 1;
    if after == "" {
      assert s + after == s;
    } else {
      assert after[n] in after && (s + after)[..|s| + n] == s + after[..n];
      StripRightBlank(s, after[..n]);
    }
  }

  lemma {:induction false} AllBlank(s: string)
    requires Blank(s)
    ensures Strip(s) == ""
  {
    StripLeftBlank(s, "");
    assert s + "" == s;
  }

  /** Stripping gives exactly the line of a text. */
  lemma {:induction false} StripIs(text: string, line: string)
    ensures Strip(text) == line <==> IsLine(text, line)
  {
    if Strip(text) == line {
      var before := StripLeftParts(text);
      var after := StripRightParts(StripLeft(text));
      assert text == before + line + after;
      if line != "" {
        assert StripLeft(text)[0] == line[0];
      }
    }
    if IsLine(text, line) {
      var before, after :| Blank(before) && Blank(after) && text == before + line + after;
      if line == "" {
        assert before + line + after == before + after;
        AllBlank(before + after);
      } else {
        assert text == before + (line + after);
        StripLeftBlank(before, line + after);
        StripRightBlank(line, after);
      }
    }
  }

  /** A file that holds a line and a newline is read as the line. */
  lemma {:induction false} OneLine(line: string)
    requires line != "" ==> !Stripped(line[0]) && !Stripped(line[|line| - 1])
    ensures Strip(line + "\n") == line
  {
    assert "" + line + "\n" == line + "\n";
    assert Blank("") && Blank("\n");
    StripIs(line + "\n", line);
  }

  ghost predicate Newlines(s: string) {
    forall c :: c in s ==> c == '\n'
  }

  /** A substituted text is what stands before the newlines at its end. */
  lemma {:induction false} SubstitutedIs(text: string, line: string)
    requires line == "" || line[|line| - 1] != '\n'
    ensures Substituted(text) == line <==> exists after :: Newlines(after) && text == line + after
    decreases |text|
  {
    var n := |text| - 1;
    if text != "" && text[n] == '\n' {
      SubstitutedIs(text[..n], line);
      if Substituted(text) == line {
        var after :| Newlines(after) && text[..n] == line + after;
        assert Newlines(after + "\n") && text == line + (after + "\n");
      }
      if after :| Newlines(after) && text == line + after {
        assert after != "";
        var fewer := after[..|after| - 1];
        assert forall c :: c in fewer ==> c in after;
        assert Newlines(fewer) && text[..n] == line + fewer;
      }
    } else {
      if Substituted(text) == line {
        assert Newlines("") && text == line + "";
      }
      forall after | Newlines(after) && after != ""
        ensures text != line + after
      {
        assert after[|after| - 1] in after && (line + after)[|line + after| - 1] == '\n';
      }
    }
  }
}
