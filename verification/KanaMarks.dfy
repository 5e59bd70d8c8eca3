/** Composition of kana with their voicing marks. */
module KanaMarks {
  // The output goes into a buffer of limited size: well-formed, cut only between characters, free
  // of composable pairs, and stable when done again.

  import opened Common
  import opened Utf8

  const VOICED := 0x3099
  const SEMI_VOICED := 0x309A

  /** Kana whose voiced form is the next code point: the ka, sa and ta rows. */
  predicate Voiceable(base: nat) {
    || (0x304B <= base <= 0x3061 && base % 2 == 1) || base == 0x3064 || base == 0x3066 || base == 0x3068
    || (0x30AB <= base <= 0x30C1 && base % 2 == 1) || base == 0x30C4 || base == 0x30C6 || base == 0x30C8
  }

  /** Kana with a voiced and a semi-voiced form, the next two code points: the ha row. */
  predicate HaRow(base: nat) {
    || base == 0x306F || base == 0x3072 || base == 0x3075 || base == 0x3078 || base == 0x307B
    || base == 0x30CF || base == 0x30D2 || base == 0x30D5 || base == 0x30D8 || base == 0x30DB
  }

  /** `compose_kana_mark`: the composed character, or 0. */
  function Compose(base: nat, mark: nat): nat {
    if mark == VOICED then
      if base == 0x3046 then 0x3094
      else if base == 0x30A6 then 0x30F4
      else if base == 0x30EF then 0x30F7
      else if base == 0x30F0 then 0x30F8
      else if base == 0x30F1 then 0x30F9
      else if base == 0x30F2 then 0x30FA
      else if Voiceable(base) || HaRow(base) then base + 1
      else 0
    else if mark == SEMI_VOICED && HaRow(base) then base + 2
    else 0
  }

  /** A composed character is a kana that takes no mark, and is no mark itself. */
  lemma {:induction false} Composed(base: nat, mark: nat, other: nat)
    requires Compose(base, mark) != 0
    ensures mark == VOICED || mark == SEMI_VOICED
    ensures 0x3046 <= base <= 0x30F2 && 0x3046 < Compose(base, mark) <= 0x30FA
    ensures Compose(Compose(base, mark), other) == 0
    ensures Compose(other, Compose(base, mark)) == 0
  {
  }

  /** Composition over a whole text, left to right. */
  function ComposeAll(cps: seq<nat>): seq<nat> {
    if cps == [] then []
    else if |cps| > 1 && Compose(cps[0], cps[1]) != 0 then [Compose(cps[0], cps[1])] + ComposeAll(cps[2..])
    else [cps[0]] + ComposeAll(cps[1..])
  }

  lemma {:induction false} ComposedScalars(cps: seq<nat>)
    requires Scalars(cps)
    ensures Scalars(ComposeAll(cps))
    decreases |cps|
  {
    if cps != [] {
      if |cps| > 1 && Compose(cps[0], cps[1]) != 0 {
        Composed(cps[0], cps[1], 0);
        ComposedScalars(cps[2..]);
      } else {
        ComposedScalars(cps[1..]);
      }
    }
  }

  ghost predicate NoPairs(cps: seq<nat>) {
    forall i :: 0 <= i < |cps| - 1 ==> Compose(cps[i], cps[i + 1]) == 0
  }

  /** The first character of the composed text is the first of the text, or its composition. */
  lemma {:induction false} ComposedFirst(cps: seq<nat>)
    requires cps != []
    ensures ComposeAll(cps) != []
    ensures ComposeAll(cps)[0] ==
            if |cps| > 1 && Compose(cps[0], cps[1]) != 0 then Compose(cps[0], cps[1]) else cps[0]
  {
  }

  /** Composing leaves no adjacent composable pair. */
  lemma {:induction false} ComposedHasNoPairs(cps: seq<nat>)
    ensures NoPairs(ComposeAll(cps))
    decreases |cps|
  {
    if cps != [] {
      var r := ComposeAll(cps);
      var composed := |cps| > 1 && Compose(cps[0], cps[1]) != 0;
      var rest := if composed then cps[2..] else cps[1..];
      ComposedHasNoPairs(rest);
      assert r[1..] == ComposeAll(rest);
      if rest != [] {
        ComposedFirst(rest);
        if composed {
          Composed(cps[0], cps[1], r[1]);
        } else if |rest| > 1 && Compose(rest[0], rest[1]) != 0 {
          Composed(rest[0], rest[1], cps[0]);
        }
        assert Compose(r[0], r[1]) == 0;
      }
      forall i | 0 <= i < |r| - 1
        ensures Compose(r[i], r[i + 1]) == 0
      {
        if i > 0 {
          assert r[1..][i - 1] == r[i] && r[1..][i] == r[i + 1];
        }
      }
    }
  }

  /** A text without composable pairs is left as it is. */
  lemma {:induction false} NoPairsStays(cps: seq<nat>)
    requires NoPairs(cps)
    ensures ComposeAll(cps) == cps
    decreases |cps|
  {
    if cps != [] {
      forall i | 0 <= i < |cps[1..]| - 1
        ensures Compose(cps[1..][i], cps[1..][i + 1]) == 0
      {
        assert Compose(cps[i + 1], cps[i + 2]) == 0;
      }
      NoPairsStays(cps[1..]);
      if |cps| > 1 {
        assert Compose(cps[0], cps[0 + 1]) == 0;
      }
    }
  }

  /** The characters that fit in `room` bytes, stopping at the first that does not. */
  function Fitting(cps: seq<nat>, room: int): (prefix: seq<nat>)
    requires Scalars(cps)
    ensures prefix <= cps && Scalars(prefix)
  {
    if cps == [] || |Encode(cps[0])| > room then []
    else [cps[0]] + Fitting(cps[1..], room - |Encode(cps[0])|)
  }

  /** What fits is within the room, and cannot be extended by the next character. */
  lemma {:induction false} FittingIsMaximal(cps: seq<nat>, room: int)
    requires Scalars(cps) && room >= 0
    ensures var n := |Fitting(cps, room)|;
            && |EncodeAll(Fitting(cps, room))| <= room
            && (n < |cps| ==> |EncodeAll(Fitting(cps, room))| + |Encode(cps[n])| > room)
    decreases |cps|
  {
    if cps != [] && |Encode(cps[0])| <= room {
      FittingIsMaximal(cps[1..], room - |Encode(cps[0])|);
      assert Fitting(cps, room)[1..] == Fitting(cps[1..], room - |Encode(cps[0])|);
    }
  }

  lemma {:induction false} FittingAll(cps: seq<nat>, room: int)
    requires Scalars(cps) && |EncodeAll(cps)| <= room
    ensures Fitting(cps, room) == cps
    decreases |cps|
  {
    if cps != [] {
      FittingAll(cps[1..], room - |Encode(cps[0])|);
    }
  }

  /** `normalize_kana_marks` into a buffer of `size` bytes. */
  function Normalize(input: seq<Byte>, size: nat): seq<Byte>
    requires NoNul(input) && size > 0
  {
    DecodedScalars(input);
    ComposedScalars(DecodeAll(input));
    EncodeAll(Fitting(ComposeAll(DecodeAll(input)), size - 1))
  }

  /** Decoding and composing never lengthens a text. */
  lemma {:induction false} DecodedNotLonger(s: seq<Byte>)
    requires NoNul(s)
    ensures Scalars(DecodeAll(s)) && |EncodeAll(DecodeAll(s))| <= |s|
    decreases |s|
  {
    DecodedScalars(s);
    if s != [] {
      var n := Next(s).length;
      DecodedNotLonger(s[n..]);
      assert DecodeAll(s)[1..] == DecodeAll(s[n..]);
      DecoderFollowsGrammar(s);
      if s[0] < 0x80 || SequenceLength(s) > 0 {
        EncodeDecoded(s);
      }
    }
  }

  lemma {:induction false} ComposedNotLonger(cps: seq<nat>)
    requires Scalars(cps)
    ensures Scalars(ComposeAll(cps)) && |EncodeAll(ComposeAll(cps))| <= |EncodeAll(cps)|
    decreases |cps|
  {
    ComposedScalars(cps);
    if cps != [] {
      if |cps| > 1 && Compose(cps[0], cps[1]) != 0 {
        ComposedNotLonger(cps[2..]);
        Composed(cps[0], cps[1], 0);
        assert ComposeAll(cps)[1..] == ComposeAll(cps[2..]);
        assert cps[1..][1..] == cps[2..];
      } else {
        ComposedNotLonger(cps[1..]);
        assert ComposeAll(cps)[1..] == ComposeAll(cps[1..]);
      }
    }
  }

  lemma {:induction false} PrefixShorter(prefix: seq<nat>, cps: seq<nat>)
    requires Scalars(cps) && prefix <= cps
    ensures Scalars(prefix) && |EncodeAll(prefix)| <= |EncodeAll(cps)|
    decreases |prefix|
  {
    if prefix != [] {
      PrefixShorter(prefix[1..], cps[1..]);
    }
  }

  /** The composed text, of which the output is a part. */
  function FullText(input: seq<Byte>): (full: seq<nat>)
    requires NoNul(input)
    ensures Scalars(full)
  {
    DecodedScalars(input);
    ComposedScalars(DecodeAll(input));
    ComposeAll(DecodeAll(input))
  }

  function Kept(input: seq<Byte>, size: nat): seq<nat>
    requires NoNul(input) && size > 0
  {
    Fitting(FullText(input), size - 1)
  }

  /** The output is well-formed UTF-8, no longer than the input, and within the buffer. */
  lemma {:induction false} NormalizedBytes(input: seq<Byte>, size: nat)
    requires NoNul(input) && size > 0
    ensures var out := Normalize(input, size);
            && WellFormed(out) && NoNul(out)
            && |out| <= |input| && |out| < size
            && DecodeAll(out) == Kept(input, size)
  {
    EncodedText(Kept(input, size));
    KeptIsShort(input, size);
  }

  lemma {:induction false} KeptIsShort(input: seq<Byte>, size: nat)
    requires NoNul(input) && size > 0
    ensures |EncodeAll(Kept(input, size))| <= |input| && |EncodeAll(Kept(input, size))| < size
  {
    DecodedNotLonger(input);
    ComposedNotLonger(DecodeAll(input));
    FittingIsMaximal(FullText(input), size - 1);
    PrefixShorter(Kept(input, size), FullText(input));
  }

  /** No pair that could still be composed is left. */
  lemma {:induction false} NormalizedPairs(input: seq<Byte>, size: nat)
    requires NoNul(input) && size > 0
    ensures NoPairs(Kept(input, size))
  {
    var full, kept := FullText(input), Kept(input, size);
    ComposedHasNoPairs(DecodeAll(input));
    forall i | 0 <= i < |kept| - 1
      ensures Compose(kept[i], kept[i + 1]) == 0
    {
      assert kept[i] == full[i] && kept[i + 1] == full[i + 1];
    }
  }

  /**
   For every input and buffer size: the output is well-formed UTF-8, no longer than the input and
   within the buffer, is the composed text cut between characters as late as the buffer allows,
   and contains no pair that could still be composed.
   */
  lemma {:induction false} NormalizedText(input: seq<Byte>, size: nat)
    requires NoNul(input) && size > 0
    ensures var out := Normalize(input, size);
            var full, kept := FullText(input), DecodeAll(out);
            && WellFormed(out)
            && |out| <= |input| && |out| < size
            && kept <= full && Scalars(kept) && out == EncodeAll(kept)
            && (kept != full ==> |out| + |Encode(full[|kept|])| >= size)
            && NoPairs(kept)
  {
    NormalizedBytes(input, size);
    NormalizedPairs(input, size);
    KeptIsMaximal(input, size);
  }

  lemma {:induction false} KeptIsMaximal(input: seq<Byte>, size: nat)
    requires NoNul(input) && size > 0
    ensures var full, kept := FullText(input), Kept(input, size);
            && kept <= full && Scalars(kept) && Normalize(input, size) == EncodeAll(kept)
            && (kept != full ==> |EncodeAll(kept)| + |Encode(full[|kept|])| >= size)
  {
    FittingIsMaximal(FullText(input), size - 1);
  }

  /** Normalising again changes nothing. */
  lemma {:induction false} NormalizedTwice(input: seq<Byte>, size: nat)
    requires NoNul(input) && size > 0
    ensures NoNul(Normalize(input, size))
    ensures Normalize(Normalize(input, size), size) == Normalize(input, size)
  {
    NormalizedBytes(input, size);
    NormalizedPairs(input, size);
    NoPairsStays(Kept(input, size));
    FittingAll(Kept(input, size), size - 1);
  }

  // ----- the loop -----

  /** `utf8_append_codepoint`: appends the character if it fits with the terminator. */
  method AppendCodepoint(out: seq<Byte>, size: nat, cp: nat) returns (ok: bool, out': seq<Byte>)
    requires |out| < size && cp <= 0x10FFFF
    ensures ok <==> |out| + |Encode(cp)| < size
    ensures out' == if ok then out + Encode(cp) else out
  {
    ok, out' := false, out;
    if cp <= 0x7F {
      if |out| + 1 >= size {
        return;
      }
      out' := out + [cp];
    } else if cp <= 0x7FF {
      if |out| + 2 >= size {
        return;
      }
      out' := out + [0xC0 + cp / 0x40] + [0x80 + cp % 0x40];
    } else if cp <= 0xFFFF {
      if |out| + 3 >= size {
        return;
      }
      out' := out + [0xE0 + cp / 0x1000] + [0x80 + cp / 0x40 % 0x40] + [0x80 + cp % 0x40];
    } else {
      if |out| + 4 >= size {
        return;
      }
      out' := out + [0xF0 + cp / 0x40000] + [0x80 + cp / 0x1000 % 0x40] + [0x80 + cp / 0x40 % 0x40]
              + [0x80 + cp % 0x40];
    }
    ok := true;
  }

  /** `normalize_kana_marks` */
  method NormalizeKanaMarks(input: seq<Byte>, size: nat) returns (out: seq<Byte>)
    requires NoNul(input)
    ensures if size == 0 then out == [] else out == Normalize(input, size)
  {
    out := [];
    if size == 0 {
      return;
    }
    var text := input;
    ghost var goal := Normalize(input, size);
    LoopStart(input, size);
    while text != []
      invariant NoNul(text) && |out| < size
      invariant goal == out + Rest(text, size - 1 - |out|)
      decreases |text|
    {
      LoopStep(goal, size - 1 - |out|, out, text);
      var cp, step := NextComposed(text);
      var ok, out' := AppendCodepoint(out, size, cp);
      if !ok {
        return;
      }
      text := text[step..];
      out := out';
    }
    NothingLeft(size - 1 - |out|);
  }

  lemma {:induction false} LoopStart(input: seq<Byte>, size: nat)
    requires NoNul(input) && size > 0
    ensures Normalize(input, size) == [] + Rest(input, size - 1)
  {
  }

  lemma {:induction false} StepParts(goal: seq<Byte>, out: seq<Byte>, rest: seq<Byte>)
    requires goal == out + rest
    ensures rest == [] ==> goal == out
    ensures forall bytes, more :: rest == bytes + more ==> goal == (out + bytes) + more
  {
    forall bytes, more | rest == bytes + more
      ensures goal == (out + bytes) + more
    {
      Assoc(out, bytes, more);
    }
  }

  /** What one turn of the loop leaves to do. */
  lemma {:induction false} LoopStep(goal: seq<Byte>, room: nat, out: seq<Byte>, text: seq<Byte>)
    requires NoNul(text) && text != [] && goal == out + Rest(text, room)
    ensures Scalar(Turn(text).codepoint) && NoNul(text[Turn(text).length..])
    ensures var bytes := Encode(Turn(text).codepoint);
            if |bytes| <= room then
              goal == (out + bytes) + Rest(text[Turn(text).length..], room - |bytes|)
            else goal == out
  {
    RestStep(text, room);
    StepParts(goal, out, Rest(text, room));
  }

  lemma {:induction false} NothingLeft(room: nat)
    ensures Rest([], room) == []
  {
  }

  /** One turn's character and how many bytes it takes from the input. */
  method NextComposed(text: seq<Byte>) returns (cp: nat, step: nat)
    requires text != []
    ensures 1 <= step <= |text|
    ensures cp == Turn(text).codepoint && step == Turn(text).length
  {
    var first := Next(text);
    cp, step := first.codepoint, first.length;
    if step < |text| {
      var second := Next(text[step..]);
      var composed := Compose(cp, second.codepoint);
      if composed != 0 {
        cp, step := composed, step + second.length;
      }
    }
  }

  function Turn(text: seq<Byte>): (r: Step)
    requires text != []
    ensures 1 <= r.length <= |text|
  {
    var first := Next(text);
    var after := text[first.length..];
    if after != [] && Compose(first.codepoint, Next(after).codepoint) != 0
    then Step(Compose(first.codepoint, Next(after).codepoint), first.length + Next(after).length)
    else first
  }

  /** What the loop still adds when `room` bytes are left. */
  ghost function Rest(text: seq<Byte>, room: nat): seq<Byte>
    requires NoNul(text)
  {
    Normalize(text, room + 1)
  }

  /** One turn takes the first composed character. */
  lemma {:induction false} TurnIsFirst(text: seq<Byte>)
    requires NoNul(text) && text != []
    ensures var turn := Turn(text);
            && FullText(text) != [] && FullText(text)[0] == turn.codepoint
            && NoNul(text[turn.length..])
            && FullText(text)[1..] == FullText(text[turn.length..])
  {
    var first := Next(text);
    var after := text[first.length..];
    DecodedScalars(text);
    var cps := DecodeAll(text);
    assert cps[1..] == DecodeAll(after);
    if after != [] {
      var tail := after[Next(after).length..];
      assert cps[1] == Next(after).codepoint && cps[2..] == DecodeAll(tail);
      assert tail == text[first.length + Next(after).length..];
    }
  }

  lemma {:induction false} RestStep(text: seq<Byte>, room: nat)
    requires NoNul(text) && text != []
    ensures var turn := Turn(text);
            var tail := text[turn.length..];
            && Scalar(turn.codepoint) && NoNul(tail)
            && Rest(text, room) ==
               if |Encode(turn.codepoint)| <= room then
                 Encode(turn.codepoint) + Rest(tail, room - |Encode(turn.codepoint)|)
               else []
  {
    TurnIsFirst(text);
    FittingFirst(FullText(text), room);
  }

  lemma {:induction false} FittingFirst(cps: seq<nat>, room: nat)
    requires Scalars(cps) && cps != []
    ensures EncodeAll(Fitting(cps, room)) ==
            if |Encode(cps[0])| <= room then
              Encode(cps[0]) + EncodeAll(Fitting(cps[1..], room - |Encode(cps[0])|))
            else []
  {
    if |Encode(cps[0])| <= room {
      assert Fitting(cps, room)[1..] == Fitting(cps[1..], room - |Encode(cps[0])|);
    }
  }
}
