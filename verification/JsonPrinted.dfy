/** What the printing functions write, as JSON texts. */
module JsonPrinted {
  // Every document that the program prints is a JSON text by RFC 8259, of the value built here from the
  // saved data with the names of its members.

  import opened Common
  import opened Decimal
  import opened JsonText
  import opened JsonObjects
  import opened SavedLists
  import G = JsonGrammar

  // ----- strings and numbers -----

  lemma {:induction false} CharDenotes(c: char)
    ensures G.CharText(EscapeChar(c), c)
  {
    if (c as int) < 0x20 {
      assert HEX == "0123456789abcdef";
      assert c as int == 0x10 * (c as int / 16) + c as int % 16;
      HexDenotes(c as int / 16);
      HexDenotes(c as int % 16);
      EscapesListed(c);
    } else {
      EscapesListed(c);
    }
  }

  lemma {:induction false} HexDenotes(d: nat)
    requires d < 16
    ensures G.HexValue(HEX[d]) == d
  {
  }

  lemma {:induction false} EscapesListed(c: char)
    ensures c == '"' || c == '\\' || c as int in {8, 9, 10, 12, 13} ==> UnitOf(c).Short? && (UnitOf(c).x, c as int) in G.ESCAPES
  {
    var e := G.ESCAPES;
    assert e[0] in e && e[1] in e && e[3] in e && e[4] in e && e[5] in e && e[6] in e && e[7] in e;
  }

  lemma {:induction false} EscapeDenotes(s: string)
    ensures G.CharsText(Escape(s), s)
  {
    if s != "" {
      var first := EscapeChar(s[0]);
      CharDenotes(s[0]);
      EscapeDenotes(s[1..]);
      assert Escape(s)[..|first|] == first && Escape(s)[|first|..] == Escape(s[1..]);
    }
  }

  /** A printed literal denotes its text, control characters included. */
  lemma {:induction false} QuotedDenotes(s: string)
    ensures G.StringText(Quoted(s), s)
  {
    EscapeDenotes(s);
    assert Quoted(s)[1..|Quoted(s)| - 1] == Escape(s);
  }

  lemma {:induction false} DigitsDenote(n: nat)
    ensures G.NaturalText(Digits(n), n) && Digits(n)[0] != '-' && (n > 0 ==> Digits(n)[0] != '0')
    decreases n
  {
    DigitValues();
    if n >= 10 {
      DigitsDenote(n / 10);
      var text := Digits(n);
      assert text[..|text| - 1] == Digits(n / 10);
    } else {
      assert Digits(n)[..0] == "";
    }
  }

  lemma {:induction false} NumberDenotes(n: int)
    ensures G.NumberText(if n < 0 then "-" + Digits(0 - n) else Digits(n), n)
  {
    if n < 0 {
      DigitsDenote(0 - n);
      assert ("-" + Digits(0 - n))[1..] == Digits(0 - n);
    } else {
      DigitsDenote(n);
    }
  }

  // ----- fields -----

  ghost predicate Stands(f: Field, p: G.Pair) {
    f.key == p.key && match f.value
                      case Text(s) => p.value == G.JString(s)
                      case Literal(text) => G.Denotes(text, p.value)
  }

  ghost predicate AllStand(fields: seq<Field>, ps: seq<G.Pair>) {
    |fields| == |ps| && forall i :: 0 <= i < |fields| ==> Stands(fields[i], ps[i])
  }

  function FieldText(f: Field): string {
    Quoted(f.key) + ": " + ValueText(f.value)
  }

  lemma {:induction false} FieldMember(f: Field, p: G.Pair)
    requires Stands(f, p)
    ensures G.Member(FieldText(f), p)
  {
    QuotedDenotes(f.key);
    if f.value.Text? {
      QuotedDenotes(f.value.s);
    }
    assert G.Denotes(ValueText(f.value), p.value);
    G.DenotedIsPadded(ValueText(f.value), p.value);
    G.MemberText(Quoted(f.key), ValueText(f.value), p);
  }

  /** The fields with `sep` between them. */
  function FieldsText(fields: seq<Field>, sep: string): string {
    if fields == [] then ""
    else if |fields| == 1 then FieldText(fields[0])
    else FieldText(fields[0]) + (sep + FieldsText(fields[1..], sep))
  }

  lemma {:induction false} FieldsRender(fields: seq<Field>, sep: string, close: string)
    requires fields != []
    ensures Render(FieldTokens(fields, sep, close)) == FieldsText(fields, sep) + close
  {
    var f := fields[0];
    var one := [Str(f.key), Raw(": "), ValueToken(f.value)];
    OneField(f);
    if |fields| == 1 {
      RenderConcat(one, [Raw(close)]);
      RenderRaw(close);
    } else {
      var more := FieldTokens(fields[1..], sep, close);
      FieldsRender(fields[1..], sep, close);
      RenderConcat(one, [Raw(sep)] + more);
      RenderConcat([Raw(sep)], more);
      RenderRaw(sep);
      TextRegrouped(FieldText(f), sep, FieldsText(fields[1..], sep), close);
    }
  }

  lemma {:induction false} OneField(f: Field)
    ensures Render([Str(f.key), Raw(": "), ValueToken(f.value)]) == FieldText(f)
  {
    var v := ValueToken(f.value);
    assert [Str(f.key), Raw(": "), v][1..] == [Raw(": "), v] && [Raw(": "), v][1..] == [v] && [v][1..] == [];
    assert Render([v]) == ValueText(f.value) + "" == ValueText(f.value);
    assert Render([Raw(": "), v]) == ": " + ValueText(f.value);
    TextRegrouped(Quoted(f.key), ": ", ValueText(f.value), "");
    assert ValueText(f.value) + "" == ValueText(f.value);
  }

  lemma {:induction false} TextRegrouped(a: string, b: string, c: string, d: string)
    ensures a + (b + (c + d)) == a + (b + c) + d
    ensures a + (b + c) == a + b + c
  {
  }

  lemma {:induction false} FieldsMembers(fields: seq<Field>, ps: seq<G.Pair>, w: string)
    requires fields != [] && AllStand(fields, ps) && G.White(w)
    ensures G.Members(FieldsText(fields, "," + w), ps)
    decreases |fields|
  {
    hide G.Member, G.White;
    FieldMember(fields[0], ps[0]);
    if |fields| > 1 {
      var rest := FieldsText(fields[1..], "," + w);
      FieldsMembers(fields[1..], ps[1..], w);
      G.NoWhite();
      G.MembersBetween(w, rest, "", ps[1..]);
      G.MembersCons(FieldText(fields[0]), w + rest + "", ps[0], ps[1..]);
      assert [ps[0]] + ps[1..] == ps;
      CommaFirst(FieldText(fields[0]), w, rest);
    }
  }

  lemma {:induction false} CommaFirst(a: string, w: string, rest: string)
    ensures a + ("," + w + rest) == a + "," + (w + rest + "")
  {
  }

  /** An object of fields: `open` and `close` are its braces with white space inside. */
  lemma {:induction false} ObjectDenotes(fields: seq<Field>, ps: seq<G.Pair>, open: string, w: string, close: string)
    requires fields != [] && AllStand(fields, ps) && G.White(open) && G.White(w) && G.White(close)
    ensures G.Denotes("{" + (open + FieldsText(fields, "," + w) + close) + "}", G.JObject(ps))
  {
    hide G.Members, G.White;
    FieldsMembers(fields, ps, w);
    G.MembersBetween(open, FieldsText(fields, "," + w), close, ps);
    G.ObjectText(open + FieldsText(fields, "," + w) + close, ps);
  }

  /** An entry of a saved list. */
  lemma {:induction false} EntryDenotes(fields: seq<Field>, ps: seq<G.Pair>)
    requires fields != [] && AllStand(fields, ps)
    ensures G.Denotes(EntryText(fields), G.JObject(ps))
  {
    hide G.Denotes;
    var text := FieldsText(fields, "," + " ");
    assert "," + " " == ", ";
    assert G.White(" ");
    ObjectDenotes(fields, ps, " ", " ", " ");
    RenderConcat([Raw("{ ")], FieldTokens(fields, ", ", " }"));
    RenderRaw("{ ");
    FieldsRender(fields, ", ", " }");
    EntryBraces(text);
  }

  lemma {:induction false} EntryBraces(text: string)
    ensures "{ " + (text + " }") == "{" + (" " + text + " ") + "}"
  {
  }

  /** A file that is one object, a field on each line. */
  lemma {:induction false} FileObject(fields: seq<Field>, ps: seq<G.Pair>)
    requires fields != [] && AllStand(fields, ps)
    ensures G.Padded(ObjectText(fields, "{\n  ", ",\n  ", "\n}\n"), G.JObject(ps))
  {
    hide G.Denotes, G.White, AllStand, FieldsText, FieldTokens;
    Blanks();
    ObjectDenotes(fields, ps, "\n  ", "\n  ", "\n");
    var text := FieldsText(fields, "," + "\n  ");
    assert "," + "\n  " == ",\n  ";
    RenderConcat([Raw("{\n  ")], FieldTokens(fields, ",\n  ", "\n}\n"));
    RenderRaw("{\n  ");
    FieldsRender(fields, ",\n  ", "\n}\n");
    ObjectLines(text);
    G.DenotedIsPadded("{" + ("\n  " + text + "\n") + "}", G.JObject(ps));
    G.PaddedBetween("", "{" + ("\n  " + text + "\n") + "}", "\n", G.JObject(ps));
  }

  lemma {:induction false} ObjectLines(text: string)
    ensures "{\n  " + (text + "\n}\n") == "" + ("{" + ("\n  " + text + "\n") + "}") + "\n"
  {
  }

  // ----- lists and files -----

  lemma {:induction false} LineRender(fields: seq<Field>, end: string)
    ensures Render(LineTokens(fields, end)) == "    " + (EntryText(fields) + end)
  {
    RenderConcat([Raw("    ")], EntryTokens(fields) + [Raw(end)]);
    RenderConcat(EntryTokens(fields), [Raw(end)]);
    RenderRaw("    ");
    RenderRaw(end);
  }

  lemma {:induction false} Blanks()
    ensures G.White("") && G.White(" ") && G.White("  ") && G.White("    ") && G.White("\n") && G.White("\n  ")
  {
  }

  /** The lines of a saved list. */
  lemma {:induction false} ListElements(lists: seq<seq<Field>>, vs: seq<G.Json>)
    requires |lists| == |vs| && forall i :: 0 <= i < |lists| ==> G.Denotes(EntryText(lists[i]), vs[i])
    ensures G.Elements(Render(ListTokens(lists)), vs)
    decreases |lists|
  {
    hide G.Denotes, G.Padded, G.White;
    Blanks();
    if lists == [] {
      RenderRaw("  ");
    } else {
      var end := if |lists| > 1 then ",\n" else "\n";
      var entry, rest := EntryText(lists[0]), Render(ListTokens(lists[1..]));
      RenderConcat(LineTokens(lists[0], end), ListTokens(lists[1..]));
      LineRender(lists[0], end);
      G.DenotedIsPadded(entry, vs[0]);
      if |lists| == 1 {
        RenderRaw("  ");
        G.WhiteConcat("\n", "  ");
        G.PaddedBetween("    ", entry, "\n" + "  ", vs[0]);
        TextRegrouped("    ", entry, "\n", "  ");
        TextRegrouped("    ", entry, "\n" + "  ", "");
        assert "    " + (entry + "\n") + "  " == "    " + entry + ("\n" + "  ");
      } else {
        ListElements(lists[1..], vs[1..]);
        G.PaddedBetween("    ", entry, "", vs[0]);
        G.ElementsBetween("\n", rest, "", vs[1..]);
        G.ElementsCons("    " + entry + "", "\n" + rest + "", vs[0], vs[1..]);
        assert [vs[0]] + vs[1..] == vs;
        LineParts(entry, rest);
      }
    }
  }

  lemma {:induction false} LineParts(entry: string, rest: string)
    ensures "    " + (entry + ",\n") + rest == ("    " + entry + "") + "," + ("\n" + rest + "")
  {
  }

  /** A list under its name. */
  lemma {:induction false} SectionMember(name: string, lists: seq<seq<Field>>, vs: seq<G.Json>)
    requires |lists| == |vs| && forall i :: 0 <= i < |lists| ==> G.Denotes(EntryText(lists[i]), vs[i])
    ensures G.Member(Render(SectionTokens(name, lists)), G.Pair(name, G.JArray(vs)))
  {
    hide G.Denotes, G.White, G.Elements, G.Member;
    var list := Render(ListTokens(lists));
    Blanks();
    ListElements(lists, vs);
    G.ElementsBetween("\n", list, "", vs);
    assert "\n" + list + "" == BodyText(lists);
    G.ArrayText(BodyText(lists), vs);
    G.DenotedIsPadded("[" + BodyText(lists) + "]", G.JArray(vs));
    QuotedDenotes(name);
    G.MemberText(Quoted(name), "[" + BodyText(lists) + "]", G.Pair(name, G.JArray(vs)));
    SectionRender(name, lists);
    TextRegrouped(Quoted(name), ": ", "[" + BodyText(lists) + "]", "");
  }

  const VERSION_1: G.Pair := G.Pair("version", G.JNumber(1))

  lemma {:induction false} VersionMember()
    ensures G.Member(Quoted("version") + ": " + "1", VERSION_1)
  {
    hide Quoted;
    QuotedDenotes("version");
    OneDenotes();
    G.DenotedIsPadded("1", G.JNumber(1));
    G.MemberText(Quoted("version"), "1", VERSION_1);
  }

  lemma {:induction false} OneDenotes()
    ensures G.Denotes("1", G.JNumber(1))
  {
    assert "1"[..0] == "" && G.DecimalValue("1") == 1;
  }

  lemma {:induction false} HeadRender()
    ensures Render(FILE_HEAD) == "{\n  " + (Quoted("version") + ": 1,\n  ")
  {
    hide Quoted;
    var tail: seq<Token> := [Raw(": 1,\n  ")];
    assert FILE_HEAD[1..] == [Str("version")] + tail && ([Str("version")] + tail)[1..] == tail;
    RenderRaw(": 1,\n  ");
  }

  /** The version, then what follows it. */
  lemma {:induction false} FileDenotes(sections: string, ps: seq<G.Pair>)
    requires ps != [] && G.Members(sections, ps)
    ensures G.Padded(Render(FILE_HEAD) + (sections + FILE_END), G.JObject([VERSION_1] + ps))
  {
    hide G.Denotes, G.White, G.Members, G.Member, Quoted;
    Blanks();
    VersionMember();
    HeadRender();
    var version := Quoted("version") + ": " + "1";
    G.MemberBetween("\n  ", version, "", VERSION_1);
    G.MembersBetween("\n  ", sections, "\n", ps);
    var head, tail := "\n  " + version + "", "\n  " + sections + "\n";
    G.MembersCons(head, tail, VERSION_1, ps);
    G.ObjectText(head + "," + tail, [VERSION_1] + ps);
    G.DenotedIsPadded("{" + (head + "," + tail) + "}", G.JObject([VERSION_1] + ps));
    G.PaddedBetween("", "{" + (head + "," + tail) + "}", "\n", G.JObject([VERSION_1] + ps));
    FileParts(Quoted("version"), sections);
  }

  lemma {:induction false} FileParts(name: string, sections: string)
    ensures "{\n  " + (name + ": 1,\n  ") + (sections + FILE_END) ==
            "" + ("{" + (("\n  " + (name + ": " + "1") + "") + "," + ("\n  " + sections + "\n")) + "}") + "\n"
  {
  }

  /** A file with one list. */
  lemma {:induction false} ListFileDenotes(name: string, lists: seq<seq<Field>>, vs: seq<G.Json>)
    requires |lists| == |vs| && forall i :: 0 <= i < |lists| ==> G.Denotes(EntryText(lists[i]), vs[i])
    ensures G.Padded(ListFile(name, lists), G.JObject([G.Pair("version", G.JNumber(1)), G.Pair(name, G.JArray(vs))]))
  {
    hide G.Denotes, G.Member;
    SectionMember(name, lists, vs);
    var section := G.Pair(name, G.JArray(vs));
    assert G.Members(Render(SectionTokens(name, lists)), [section]);
    FileDenotes(Render(SectionTokens(name, lists)), [section]);
    assert [VERSION_1] + [section] == [VERSION_1, section];
  }

  /** A file with two lists. */
  lemma {:induction false} TwoListFileDenotes(name1: string, lists1: seq<seq<Field>>, vs1: seq<G.Json>,
                                              name2: string, lists2: seq<seq<Field>>, vs2: seq<G.Json>)
    requires |lists1| == |vs1| && forall i :: 0 <= i < |lists1| ==> G.Denotes(EntryText(lists1[i]), vs1[i])
    requires |lists2| == |vs2| && forall i :: 0 <= i < |lists2| ==> G.Denotes(EntryText(lists2[i]), vs2[i])
    ensures G.Padded(TwoListFile(name1, lists1, name2, lists2),
                     G.JObject([G.Pair("version", G.JNumber(1)), G.Pair(name1, G.JArray(vs1)),
                                G.Pair(name2, G.JArray(vs2))]))
  {
    hide G.Denotes, G.Member, G.White;
    Blanks();
    SectionMember(name1, lists1, vs1);
    SectionMember(name2, lists2, vs2);
    var a, b := Render(SectionTokens(name1, lists1)), Render(SectionTokens(name2, lists2));
    var first, second := G.Pair(name1, G.JArray(vs1)), G.Pair(name2, G.JArray(vs2));
    G.MemberBetween("\n  ", b, "", second);
    assert G.Members("\n  " + b + "", [second]);
    G.MembersCons(a, "\n  " + b + "", first, [second]);
    FileDenotes(a + "," + ("\n  " + b + ""), [first] + [second]);
    assert [VERSION_1] + ([first] + [second]) == [VERSION_1, first, second];
    TwoParts(a, b);
  }

  lemma {:induction false} TwoParts(a: string, b: string)
    ensures a + (",\n  " + (b + FILE_END)) == (a + "," + ("\n  " + b + "")) + FILE_END
  {
  }
}
