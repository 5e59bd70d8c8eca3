/** Launch commands and the shell's splitting of them. */
module ShellWords {
  // The splitting follows sections 2.2 (quoting) and 2.3 (token recognition) of the POSIX shell
  // language; quoting is what the program does before it.

  import opened Common
  import opened Decimal

  // ----- quoting -----

  function QuoteChar(c: char): string {
    if c == '\'' then "'\\''" else [c]
  }

  function QuoteBody(s: string): string {
    if s == "" then "" else QuoteChar(s[0]) + QuoteBody(s[1..])
  }

  function Quote(s: string): string {
    "'" + QuoteBody(s) + "'"
  }

  /** A command word as the program means it. */
  datatype Word =
    | Bare(text: string)                     // written as it is
    | Quoted(text: string)
    | Assign(name: string, value: string)    // name=value in front of the command

  function WordText(w: Word): string {
    match w
    case Bare(text) => text
    case Quoted(text) => Quote(text)
    case Assign(name, value) => name + "=" + Quote(value)
  }

  function CommandText(words: seq<Word>): string {
    if words == [] then ""
    else if |words| == 1 then WordText(words[0])
    else WordText(words[0]) + " " + CommandText(words[1..])
  }

  // ----- the shell's view -----

  /** A character of a word, and whether it was quoted. */
  datatype Mark = Mark(c: char, quoted: bool)

  /** Characters that are not taken literally outside quotes. */
  const SPECIAL: set<char> :=
    {'|', '&', ';', '<', '>', '(', ')', '$', '`', '"', '*', '?', '[', '#', '~', '%', '\n', '!', '{', '}'}

  predicate Blank(c: char) {
    c == ' ' || c == '\t'
  }

  /**
   Splits a line into words. `word` is the word being read, if any. None when a quotation does
   not end, or when an unquoted character would make the line more than a simple command.
   */
  function Split(t: string, word: Option<seq<Mark>>, inQuotes: bool): Option<seq<seq<Mark>>> {
    var sofar := if word.Some? then word.value else [];
    if t == "" then
      if inQuotes then None else Some(if word.Some? then [sofar] else [])
    else if inQuotes then
      if t[0] == '\'' then Split(t[1..], Some(sofar), false)
      else Split(t[1..], Some(sofar + [Mark(t[0], true)]), true)
    else if t[0] == '\'' then Split(t[1..], Some(sofar), true)
    else if t[0] == '\\' then
      if |t| > 1 && t[1] != '\n' then Split(t[2..], Some(sofar + [Mark(t[1], true)]), false) else None
    else if Blank(t[0]) then
      match Split(t[1..], None, false)
      case None => None
      case Some(rest) => Some((if word.Some? then [sofar] else []) + rest)
    else if t[0] in SPECIAL then None
    else Split(t[1..], Some(sofar + [Mark(t[0], false)]), false)
  }

  /** Quote removal. */
  function Plain(marks: seq<Mark>): string {
    seq(|marks|, i requires 0 <= i < |marks| => marks[i].c)
  }

  predicate NameStart(c: char) {
    'a' <= c <= 'z' || 'A' <= c <= 'Z' || c == '_'
  }

  predicate NameChar(c: char) {
    NameStart(c) || Digit(c)
  }

  predicate IsName(s: string) {
    s != "" && NameStart(s[0]) && forall i :: 0 <= i < |s| ==> NameChar(s[i])
  }

  /** The length of the unquoted name before an unquoted '=', or None. */
  function NameLength(marks: seq<Mark>): Option<nat> {
    if marks == [] || marks[0].quoted then None
    else if marks[0].c == '=' then Some(0)
    else
      match NameLength(marks[1..])
      case Some(n) => Some(n + 1)
      case None => None
  }

  predicate IsAssignment(marks: seq<Mark>) {
    NameLength(marks).Some? && NameLength(marks).value < |marks| && IsName(Plain(marks[..NameLength(marks).value]))
  }

  datatype Command = Command(assignments: seq<(string, string)>, arguments: seq<string>)

  /** Leading assignments, then the command name and its arguments. */
  function Interpret(words: seq<seq<Mark>>): Command {
    if words != [] && IsAssignment(words[0]) then
      var n := NameLength(words[0]).value;
      var rest := Interpret(words[1..]);
      rest.(assignments := [(Plain(words[0][..n]), Plain(words[0][n + 1..]))] + rest.assignments)
    else
      Command([], seq(|words|, i requires 0 <= i < |words| => Plain(words[i])))
  }

  /** What a shell makes of a command line. */
  function Parse(line: string): Option<Command> {
    match Split(line, None, false)
    case None => None
    case Some(words) => Some(Interpret(words))
  }

  // ----- what the program intends -----

  predicate SafeChar(c: char) {
    !Blank(c) && c !in SPECIAL && c != '\'' && c != '\\'
  }

  /** Literal words need no quoting and cannot be taken for assignments; names are shell names. */
  predicate GoodWord(w: Word) {
    match w
    case Bare(text) => text != "" && forall i :: 0 <= i < |text| ==> SafeChar(text[i]) && text[i] != '='
    case Quoted(_) => true
    case Assign(name, _) => IsName(name)
  }

  predicate GoodCommand(words: seq<Word>) {
    forall i :: 0 <= i < |words| ==> GoodWord(words[i])
  }

  function Intended(words: seq<Word>): Command {
    if words != [] && words[0].Assign? then
      var rest := Intended(words[1..]);
      rest.(assignments := [(words[0].name, words[0].value)] + rest.assignments)
    else
      Command([], Meanings(words))
  }

  function Meanings(words: seq<Word>): seq<string> {
    if words == [] then [] else [WordMeaning(words[0])] + Meanings(words[1..])
  }

  /** An argument's value; assignment words behind the command name would be plain text. */
  function WordMeaning(w: Word): string {
    match w
    case Assign(name, value) => name + "=" + value
    case _ => w.text
  }

  function Marked(s: string, quoted: bool): seq<Mark> {
    seq(|s|, i requires 0 <= i < |s| => Mark(s[i], quoted))
  }

  function Marks(w: Word): seq<Mark> {
    match w
    case Bare(text) => Marked(text, false)
    case Quoted(text) => Marked(text, true)
    case Assign(name, value) => Marked(name + "=", false) + Marked(value, true)
  }

  lemma {:induction false} SplitQuoteBody(s: string, rest: string, sofar: seq<Mark>)
    ensures Split(QuoteBody(s) + "'" + rest, Some(sofar), true) == Split(rest, Some(sofar + Marked(s, true)), false)
    decreases |s|
  {
    if s == "" {
      assert QuoteBody(s) + "'" + rest == "'" + rest;
      assert ("'" + rest)[1..] == rest;
      assert sofar + Marked(s, true) == sofar;
    } else {
      var tail := QuoteBody(s[1..]) + "'" + rest;
      var more := sofar + [Mark(s[0], true)];
      SplitQuoteBody(s[1..], rest, more);
      assert more + Marked(s[1..], true) == sofar + Marked(s, true);
      assert QuoteBody(s) + "'" + rest == QuoteChar(s[0]) + tail;
      SplitQuoteChar(s[0], tail, sofar);
    }
  }

  /** Inside quotes, a written character adds itself; the quote goes out, is escaped, and back in. */
  lemma {:induction false} SplitQuoteChar(c: char, tail: string, sofar: seq<Mark>)
    ensures Split(QuoteChar(c) + tail, Some(sofar), true) == Split(tail, Some(sofar + [Mark(c, true)]), true)
  {
    if c == '\'' {
      var t3 := "'" + tail;
      var t2 := "\\'" + t3;
      assert QuoteChar(c) + tail == "'" + t2;
      assert ("'" + t2)[1..] == t2;
      assert t2[0] == '\\' && t2[1] == '\'' && t2[2..] == t3;
      assert t3[0] == '\'' && t3[1..] == tail;
      assert Split("'" + t2, Some(sofar), true) == Split(t2, Some(sofar), false);
      assert Split(t2, Some(sofar), false) == Split(t3, Some(sofar + [Mark('\'', true)]), false);
    } else {
      assert (QuoteChar(c) + tail)[1..] == tail;
    }
  }

  lemma {:induction false} SplitQuote(s: string, rest: string, word: Option<seq<Mark>>)
    ensures Split(Quote(s) + rest, word, false) ==
            Split(rest, Some((if word.Some? then word.value else []) + Marked(s, true)), false)
  {
    var sofar := if word.Some? then word.value else [];
    assert (Quote(s) + rest)[1..] == QuoteBody(s) + "'" + rest;
    SplitQuoteBody(s, rest, sofar);
  }

  lemma {:induction false} SplitSafe(s: string, rest: string, sofar: seq<Mark>)
    requires forall i :: 0 <= i < |s| ==> SafeChar(s[i])
    ensures Split(s + rest, Some(sofar), false) == Split(rest, Some(sofar + Marked(s, false)), false)
    decreases |s|
  {
    if s == "" {
      assert s + rest == rest && sofar + Marked(s, false) == sofar;
    } else {
      var more := sofar + [Mark(s[0], false)];
      assert SafeChar(s[0]);
      assert (s + rest)[1..] == s[1..] + rest;
      SplitSafe(s[1..], rest, more);
      assert more + Marked(s[1..], false) == sofar + Marked(s, false);
    }
  }

  /** A word starts the same whether or not an empty word is counted as begun. */
  lemma {:induction false} SplitStart(s: string, rest: string)
    requires s != "" && SafeChar(s[0])
    ensures Split(s + rest, None, false) == Split(s + rest, Some([]), false)
  {
    assert (s + rest)[0] == s[0];
  }

  lemma {:induction false} NameSafe(name: string)
    requires IsName(name)
    ensures forall i :: 0 <= i < |name + "="| ==> SafeChar((name + "=")[i])
  {
    forall i | 0 <= i < |name|
      ensures SafeChar(name[i])
    {
      assert NameChar(name[i]);
    }
  }

  /** One written word is read as exactly its own characters. */
  lemma {:induction false} SplitWord(w: Word, rest: string)
    requires GoodWord(w)
    ensures Split(WordText(w) + rest, None, false) == Split(rest, Some(Marks(w)), false)
  {
    match w {
      case Bare(text) =>
        assert SafeChar(text[0]);
        SplitStart(text, rest);
        SplitSafe(text, rest, []);
        assert [] + Marked(text, false) == Marks(w);
      case Quoted(text) =>
        SplitQuote(text, rest, None);
        assert [] + Marked(text, true) == Marks(w);
      case Assign(name, value) =>
        var start := name + "=";
        NameSafe(name);
        assert WordText(w) + rest == start + (Quote(value) + rest);
        assert SafeChar(start[0]);
        SplitStart(start, Quote(value) + rest);
        SplitSafe(start, Quote(value) + rest, []);
        assert [] + Marked(start, false) == Marked(start, false);
        SplitQuote(value, rest, Some(Marked(start, false)));
    }
  }

  function AllMarks(words: seq<Word>): seq<seq<Mark>> {
    seq(|words|, i requires 0 <= i < |words| => Marks(words[i]))
  }

  /** Splitting the command line gives back its words one for one. */
  lemma {:induction false} SplitCommand(words: seq<Word>)
    requires GoodCommand(words)
    ensures Split(CommandText(words), None, false) == Some(AllMarks(words))
    decreases |words|
  {
    if words != [] {
      var w := words[0];
      if |words| == 1 {
        SplitWord(w, "");
        assert WordText(w) + "" == WordText(w);
        assert AllMarks(words) == [Marks(w)];
      } else {
        var rest := CommandText(words[1..]);
        SplitWord(w, " " + rest);
        Assoc(WordText(w), " ", rest);
        assert (" " + rest)[1..] == rest;
        SplitCommand(words[1..]);
        assert AllMarks(words) == [Marks(w)] + AllMarks(words[1..]);
      }
    }
  }

  lemma {:induction false} NamePrefix(name: string, value: seq<Mark>)
    requires '=' !in name
    ensures NameLength(Marked(name + "=", false) + value) == Some(|name|)
    decreases |name|
  {
    var marks := Marked(name + "=", false) + value;
    if name != "" {
      NamePrefix(name[1..], value);
      assert marks[1..] == Marked(name[1..] + "=", false) + value;
      assert marks[0] == Mark(name[0], false);
    }
  }

  lemma {:induction false} NoEquals(marks: seq<Mark>)
    requires forall i :: 0 <= i < |marks| ==> marks[i].c != '='
    ensures NameLength(marks) == None
    decreases |marks|
  {
    if marks != [] {
      NoEquals(marks[1..]);
    }
  }

  /** Only assignment words are taken for assignments; a quoted word never is. */
  lemma {:induction false} WordKind(w: Word)
    requires GoodWord(w)
    ensures Plain(Marks(w)) == WordMeaning(w)
    ensures IsAssignment(Marks(w)) <==> w.Assign?
    ensures w.Assign? ==>
              var n := NameLength(Marks(w)).value;
              Plain(Marks(w)[..n]) == w.name && Plain(Marks(w)[n + 1..]) == w.value
  {
    match w {
      case Bare(text) => NoEquals(Marks(w));
      case Quoted(text) =>
      case Assign(name, value) =>
        assert !NameChar('=');
        NamePrefix(name, Marked(value, true));
        assert Plain(Marks(w)[..|name|]) == name;
        assert Plain(Marks(w)[|name| + 1..]) == value;
    }
  }

  lemma {:induction false} PlainWords(words: seq<Word>)
    requires GoodCommand(words)
    ensures var marks := AllMarks(words);
            seq(|marks|, i requires 0 <= i < |marks| => Plain(marks[i])) == Meanings(words)
    decreases |words|
  {
    if words != [] {
      WordKind(words[0]);
      PlainWords(words[1..]);
      var marks, rest := AllMarks(words), AllMarks(words[1..]);
      assert marks == [Marks(words[0])] + rest;
      assert seq(|marks|, i requires 0 <= i < |marks| => Plain(marks[i])) ==
             [Plain(marks[0])] + seq(|rest|, i requires 0 <= i < |rest| => Plain(rest[i]));
    }
  }

  lemma {:induction false} InterpretWords(words: seq<Word>)
    requires GoodCommand(words)
    ensures Interpret(AllMarks(words)) == Intended(words)
    decreases |words|
  {
    if words != [] {
      WordKind(words[0]);
      if words[0].Assign? {
        InterpretWords(words[1..]);
        assert AllMarks(words)[1..] == AllMarks(words[1..]);
      } else {
        PlainWords(words);
      }
    }
  }

  /** The shell makes of a written command exactly what the program meant. */
  lemma {:induction false} CommandReadsBack(words: seq<Word>)
    requires GoodCommand(words)
    ensures Parse(CommandText(words)) == Some(Intended(words))
  {
    SplitCommand(words);
    InterpretWords(words);
  }

  // ----- the command buffer and the commands built in it -----

  const TEXT_COMMAND_MAX := 8192

  class CommandBuffer {
    var text: string

    constructor ()
      ensures text == ""
    {
      text := "";
    }

    /** `append_string`: appends only what fits with the terminator. */
    method Append(s: string) returns (ok: bool)
      modifies this
      ensures ok <==> |old(text)| + |s| + 1 <= 8192
      ensures text == if ok then old(text) + s else old(text)
    {
      ok := |text| + |s| + 1 <= TEXT_COMMAND_MAX;
      if ok {
        text := text + s;
      }
    }

    /** `append_shell_quoted` */
    method AppendQuoted(s: string) returns (ok: bool)
      modifies this
      ensures ok <==> |old(text)| + |Quote(s)| + 1 <= 8192
      ensures ok ==> text == old(text) + Quote(s)
    {
      ok := Append("'");
      if !ok {
        return;
      }
      ghost var goal := old(text) + "'" + QuoteBody(s);
      assert s[0..] == s;
      for i := 0 to |s|
        invariant text + QuoteBody(s[i..]) == goal
        invariant |text| + 1 <= TEXT_COMMAND_MAX
      {
        assert s[i..][0] == s[i] && s[i..][1..] == s[i + 1..];
        Assoc(text, QuoteChar(s[i]), QuoteBody(s[i + 1..]));
        ok := Append(QuoteChar(s[i]));
        if !ok {
          return;
        }
      }
      assert text == goal by {
        assert s[|s|..] == "";
      }
      Assoc(old(text), "'", QuoteBody(s));
      Assoc(old(text), "'" + QuoteBody(s), "'");
      ok := Append("'");
    }

    method AppendWordText(w: Word) returns (ok: bool)
      modifies this
      ensures ok <==> |old(text)| + |WordText(w)| + 1 <= 8192
      ensures ok ==> text == old(text) + WordText(w)
    {
      match w {
        case Bare(s) =>
          ok := Append(s);
        case Quoted(s) =>
          ok := AppendQuoted(s);
        case Assign(name, value) =>
          Assoc(text, name + "=", Quote(value));
          ok := Append(name + "=");
          if ok {
            ok := AppendQuoted(value);
          }
      }
    }

    /** A whole command; it fails exactly when it does not fit the buffer. */
    method Build(words: seq<Word>) returns (ok: bool)
      requires text == "" && words != []
      modifies this
      ensures ok <==> |CommandText(words)| + 1 <= 8192
      ensures ok ==> text == CommandText(words)
    {
      assert words[0..] == words;
      ok := AppendWordText(words[0]);
      ghost var goal := CommandText(words);
      CommandStep(words, 0);
      var i := 1;
      while ok && i < |words|
        invariant 1 <= i <= |words|
        invariant ok ==> text + Remaining(words, i) == goal && |text| + 1 <= TEXT_COMMAND_MAX
        invariant !ok ==> |goal| + 1 > TEXT_COMMAND_MAX
      {
        CommandStep(words, i);
        Assoc(text, " ", WordText(words[i]) + Remaining(words, i + 1));
        Assoc(text + " ", WordText(words[i]), Remaining(words, i + 1));
        ok := Append(" ");
        if ok {
          ok := AppendWordText(words[i]);
        }
        i := i + 1;
      }
    }
  }

  /** What is still to be written when `i` words have been. */
  function Remaining(words: seq<Word>, i: nat): string
    requires i <= |words|
  {
    if i == |words| then "" else " " + CommandText(words[i..])
  }

  lemma {:induction false} CommandStep(words: seq<Word>, i: nat)
    requires i < |words|
    ensures CommandText(words[i..]) == WordText(words[i]) + Remaining(words, i + 1)
  {
    assert words[i..][0] == words[i] && words[i..][1..] == words[i + 1..];
    Assoc(WordText(words[i]), " ", CommandText(words[i + 1..]));
  }

  /** The parts of a launch plan that end up in its command. */
  datatype Plan = Plan(
    launcher: string,
    systemId: string,
    core: string,           // core path, core id, emulator id or pyxel action
    content: string,        // the ROM path, or the emulator's content path
    cpuPolicy: string,
    audioDriver: string,
    audioLatencyMs: int,
    force60fps: string,
    cycles: string)

  function OptionWords(name: string, value: string): seq<Word> {
    if value == "" then [] else [Bare(name), Quoted(value)]
  }

  function RetroarchWords(p: Plan): seq<Word> {
    RetroarchStart(p) + RetroarchOptions(p)
  }

  function PolicyWord(name: string, p: Plan): seq<Word> {
    if p.cpuPolicy == "" then [] else [Assign(name, p.cpuPolicy)]
  }

  function PicoarchWords(p: Plan): seq<Word> {
    PolicyWord("PLUMOS_PICOARCH_CPU_POLICY", p)
    + [Assign("PLUMOS_PICOARCH_SYSTEM", p.systemId), Quoted(p.launcher), Quoted(p.core), Quoted(p.content)]
  }

  function StandaloneWords(p: Plan): seq<Word> {
    PolicyWord("PLUMOS_STANDALONE_CPU_POLICY", p) + [Quoted(p.launcher), Quoted(p.core), Quoted(p.content)]
  }

  /** The pyxel action is one of the two words the program chooses. */
  function PyxelWords(p: Plan): seq<Word> {
    PolicyWord("PLUMOS_PYXEL_CPU_POLICY", p)
    + [Quoted(p.launcher), Bare("-m"), Bare("pyxel"), Bare(p.core), Quoted(p.content)]
  }

  function PolicySetting(name: string, p: Plan): seq<(string, string)> {
    if p.cpuPolicy == "" then [] else [(name, p.cpuPolicy)]
  }

  function OptionArguments(name: string, value: string): seq<string> {
    if value == "" then [] else [name, value]
  }

  predicate LiteralChar(c: char) {
    NameChar(c) || c == '-'
  }

  lemma {:induction false} LiteralIsGood(text: string)
    requires text != "" && forall i :: 0 <= i < |text| ==> LiteralChar(text[i])
    ensures GoodWord(Bare(text))
  {
    forall c | LiteralChar(c)
      ensures SafeChar(c) && c != '='
    {
    }
  }

  lemma {:induction false} RetroarchLiterals()
    ensures GoodWord(Bare("--system")) && GoodWord(Bare("--core")) && GoodWord(Bare("--rom"))
    ensures GoodWord(Bare("--cpu")) && GoodWord(Bare("--safe-exit")) && GoodWord(Bare("false"))
  {
    LiteralIsGood("--system");
    LiteralIsGood("--core");
    LiteralIsGood("--rom");
    LiteralIsGood("--cpu");
    LiteralIsGood("--safe-exit");
    LiteralIsGood("false");
  }

  lemma {:induction false} OptionLiterals()
    ensures GoodWord(Bare("--audio")) && GoodWord(Bare("--audio-latency"))
    ensures GoodWord(Bare("--dosbox-pure-force60fps")) && GoodWord(Bare("--dosbox-pure-cycles"))
  {
    LiteralIsGood("--audio");
    LiteralIsGood("--audio-latency");
    LiteralIsGood("--dosbox-pure-force60fps");
    LiteralIsGood("--dosbox-pure-cycles");
  }

  lemma {:induction false} PyxelLiterals()
    ensures GoodWord(Bare("-m")) && GoodWord(Bare("pyxel")) && GoodWord(Bare("play")) && GoodWord(Bare("run"))
  {
    LiteralIsGood("-m");
    LiteralIsGood("pyxel");
    LiteralIsGood("play");
    LiteralIsGood("run");
  }

  lemma {:induction false} NamesAreGood()
    ensures IsName("PLUMOS_PICOARCH_CPU_POLICY") && IsName("PLUMOS_PICOARCH_SYSTEM")
    ensures IsName("PLUMOS_STANDALONE_CPU_POLICY") && IsName("PLUMOS_PYXEL_CPU_POLICY")
  {
  }

  lemma {:induction false} MeaningsConcat(a: seq<Word>, b: seq<Word>)
    ensures Meanings(a + b) == Meanings(a) + Meanings(b)
    decreases |a|
  {
    if a == [] {
      assert a + b == b;
    } else {
      assert (a + b)[0] == a[0] && (a + b)[1..] == a[1..] + b;
      MeaningsConcat(a[1..], b);
    }
  }

  lemma {:induction false} OneMeaning(w: Word)
    ensures Meanings([w]) == [WordMeaning(w)]
  {
    assert [w][1..] == [];
  }

  lemma {:induction false} TwoMeanings(v: Word, w: Word)
    ensures Meanings([v, w]) == [WordMeaning(v), WordMeaning(w)]
  {
    OneMeaning(v);
    OneMeaning(w);
    MeaningsConcat([v], [w]);
    assert [v] + [w] == [v, w];
  }

  lemma {:induction false} ThreeMeanings(u: Word, v: Word, w: Word)
    ensures Meanings([u, v, w]) == [WordMeaning(u), WordMeaning(v), WordMeaning(w)]
  {
    OneMeaning(u);
    TwoMeanings(v, w);
    MeaningsConcat([u], [v, w]);
    assert [u] + [v, w] == [u, v, w];
  }

  lemma {:induction false} OptionMeanings(name: string, value: string)
    ensures Meanings(OptionWords(name, value)) == OptionArguments(name, value)
  {
    TwoMeanings(Bare(name), Quoted(value));
  }

  function RetroarchStart(p: Plan): seq<Word> {
    [Quoted(p.launcher), Bare("--system"), Quoted(p.systemId), Bare("--core"), Quoted(p.core),
     Bare("--rom"), Quoted(p.content)]
  }

  lemma {:induction false} RetroarchStartMeanings(p: Plan)
    ensures Meanings(RetroarchStart(p)) == [p.launcher, "--system", p.systemId, "--core", p.core, "--rom", p.content]
  {
    ThreeMeanings(Quoted(p.launcher), Bare("--system"), Quoted(p.systemId));
    TwoMeanings(Bare("--core"), Quoted(p.core));
    TwoMeanings(Bare("--rom"), Quoted(p.content));
    var a := [Quoted(p.launcher), Bare("--system"), Quoted(p.systemId)];
    var b := [Bare("--core"), Quoted(p.core)];
    var c := [Bare("--rom"), Quoted(p.content)];
    MeaningsConcat(b, c);
    MeaningsConcat(a, b + c);
    assert RetroarchStart(p) == a + (b + c);
  }

  function RetroarchOptions(p: Plan): seq<Word> {
    OptionWords("--cpu", p.cpuPolicy)
    + (OptionWords("--audio", p.audioDriver)
       + (LatencyWords(p)
          + (OptionWords("--dosbox-pure-force60fps", p.force60fps)
             + (OptionWords("--dosbox-pure-cycles", p.cycles) + [Bare("--safe-exit"), Bare("false")]))))
  }

  function LatencyWords(p: Plan): seq<Word> {
    if p.audioLatencyMs > 0 then [Bare("--audio-latency"), Quoted(Digits(p.audioLatencyMs))] else []
  }

  function RetroarchOptionArguments(p: Plan): seq<string> {
    OptionArguments("--cpu", p.cpuPolicy)
    + (OptionArguments("--audio", p.audioDriver)
       + ((if p.audioLatencyMs > 0 then ["--audio-latency", Digits(p.audioLatencyMs)] else [])
          + (OptionArguments("--dosbox-pure-force60fps", p.force60fps)
             + (OptionArguments("--dosbox-pure-cycles", p.cycles) + ["--safe-exit", "false"]))))
  }

  lemma {:induction false} RetroarchOptionMeanings(p: Plan)
    ensures Meanings(RetroarchOptions(p)) == RetroarchOptionArguments(p)
  {
    var w6: seq<Word> := [Bare("--safe-exit"), Bare("false")];
    var w5 := OptionWords("--dosbox-pure-cycles", p.cycles) + w6;
    var w4 := OptionWords("--dosbox-pure-force60fps", p.force60fps) + w5;
    var w3 := LatencyWords(p) + w4;
    var w2 := OptionWords("--audio", p.audioDriver) + w3;
    TwoMeanings(Bare("--safe-exit"), Bare("false"));
    TwoMeanings(Bare("--audio-latency"), Quoted(if p.audioLatencyMs > 0 then Digits(p.audioLatencyMs) else ""));
    OptionMeanings("--dosbox-pure-cycles", p.cycles);
    OptionMeanings("--dosbox-pure-force60fps", p.force60fps);
    OptionMeanings("--audio", p.audioDriver);
    OptionMeanings("--cpu", p.cpuPolicy);
    MeaningsConcat(OptionWords("--dosbox-pure-cycles", p.cycles), w6);
    MeaningsConcat(OptionWords("--dosbox-pure-force60fps", p.force60fps), w5);
    MeaningsConcat(LatencyWords(p), w4);
    MeaningsConcat(OptionWords("--audio", p.audioDriver), w3);
    MeaningsConcat(OptionWords("--cpu", p.cpuPolicy), w2);
  }

  lemma {:induction false} RetroarchOptionsGood(p: Plan)
    ensures GoodCommand(RetroarchOptions(p))
  {
    RetroarchLiterals();
    OptionLiterals();
  }

  /** The retroarch command: whatever the ROM path contains, it is one argument, unchanged. */
  lemma {:induction false} RetroarchCommand(p: Plan)
    ensures Parse(CommandText(RetroarchWords(p))) == Some(Command([],
      [p.launcher, "--system", p.systemId, "--core", p.core, "--rom", p.content] + RetroarchOptionArguments(p)))
  {
    RetroarchLiterals();
    RetroarchOptionsGood(p);
    RetroarchStartMeanings(p);
    RetroarchOptionMeanings(p);
    MeaningsConcat(RetroarchStart(p), RetroarchOptions(p));
    CommandReadsBack(RetroarchWords(p));
  }

  function Settings(words: seq<Word>): seq<(string, string)>
    requires forall i :: 0 <= i < |words| ==> words[i].Assign?
  {
    if words == [] then [] else [(words[0].name, words[0].value)] + Settings(words[1..])
  }

  lemma {:induction false} SettingsFirst(settings: seq<Word>, args: seq<Word>)
    requires forall i :: 0 <= i < |settings| ==> settings[i].Assign?
    requires args != [] && args[0].Quoted?
    ensures Intended(settings + args) == Command(Settings(settings), Meanings(args))
    decreases |settings|
  {
    if settings == [] {
      assert settings + args == args;
    } else {
      assert (settings + args)[1..] == settings[1..] + args;
      SettingsFirst(settings[1..], args);
    }
  }

  /** Assignments, if any, and then a launcher with its arguments. */
  lemma {:induction false} LauncherCommand(settings: seq<Word>, args: seq<Word>)
    requires GoodCommand(settings) && GoodCommand(args)
    requires forall i :: 0 <= i < |settings| ==> settings[i].Assign?
    requires args != [] && args[0].Quoted?
    ensures Parse(CommandText(settings + args)) == Some(Command(Settings(settings), Meanings(args)))
  {
    CommandReadsBack(settings + args);
    SettingsFirst(settings, args);
  }

  lemma {:induction false} PolicySettings(name: string, p: Plan)
    ensures Settings(PolicyWord(name, p)) == PolicySetting(name, p)
  {
    if p.cpuPolicy != "" {
      assert PolicyWord(name, p)[1..] == [];
    }
  }

  lemma {:induction false} PicoarchCommand(p: Plan)
    ensures Parse(CommandText(PicoarchWords(p))) == Some(Command(
      PolicySetting("PLUMOS_PICOARCH_CPU_POLICY", p) + [("PLUMOS_PICOARCH_SYSTEM", p.systemId)],
      [p.launcher, p.core, p.content]))
  {
    NamesAreGood();
    var policy := PolicyWord("PLUMOS_PICOARCH_CPU_POLICY", p);
    var system := [Assign("PLUMOS_PICOARCH_SYSTEM", p.systemId)];
    var args := [Quoted(p.launcher), Quoted(p.core), Quoted(p.content)];
    assert PicoarchWords(p) == (policy + system) + args;
    LauncherCommand(policy + system, args);
    ThreeMeanings(args[0], args[1], args[2]);
    PolicySettings("PLUMOS_PICOARCH_CPU_POLICY", p);
    assert system[1..] == [];
    assert Settings(system) == [("PLUMOS_PICOARCH_SYSTEM", p.systemId)];
    if policy != [] {
      assert (policy + system)[0] == policy[0] && (policy + system)[1..] == system;
      assert Settings(policy + system) == [(policy[0].name, policy[0].value)] + Settings(system);
    } else {
      assert policy + system == system;
      assert PolicySetting("PLUMOS_PICOARCH_CPU_POLICY", p) == [];
      assert [] + Settings(system) == Settings(system);
    }
  }

  lemma {:induction false} StandaloneCommand(p: Plan)
    ensures Parse(CommandText(StandaloneWords(p))) == Some(Command(
      PolicySetting("PLUMOS_STANDALONE_CPU_POLICY", p), [p.launcher, p.core, p.content]))
  {
    NamesAreGood();
    var args := [Quoted(p.launcher), Quoted(p.core), Quoted(p.content)];
    LauncherCommand(PolicyWord("PLUMOS_STANDALONE_CPU_POLICY", p), args);
    ThreeMeanings(args[0], args[1], args[2]);
    PolicySettings("PLUMOS_STANDALONE_CPU_POLICY", p);
  }

  lemma {:induction false} PyxelCommand(p: Plan)
    requires p.core == "play" || p.core == "run"
    ensures Parse(CommandText(PyxelWords(p))) == Some(Command(
      PolicySetting("PLUMOS_PYXEL_CPU_POLICY", p), [p.launcher, "-m", "pyxel", p.core, p.content]))
  {
    NamesAreGood();
    PyxelLiterals();
    var first := [Quoted(p.launcher), Bare("-m"), Bare("pyxel")];
    var last := [Bare(p.core), Quoted(p.content)];
    assert PyxelWords(p) == PolicyWord("PLUMOS_PYXEL_CPU_POLICY", p) + (first + last);
    LauncherCommand(PolicyWord("PLUMOS_PYXEL_CPU_POLICY", p), first + last);
    ThreeMeanings(first[0], first[1], first[2]);
    TwoMeanings(last[0], last[1]);
    MeaningsConcat(first, last);
    assert Meanings(first + last) == [p.launcher, "-m", "pyxel", p.core, p.content];
    PolicySettings("PLUMOS_PYXEL_CPU_POLICY", p);
  }
}
