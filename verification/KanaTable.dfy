/** Kana by the Unicode tables. */
module KanaTable {
  // The canonical decompositions of the Unicode Character Database, written the other way round from the
  // program: from the composed kana to the pair.

  import opened Common
  import opened Utf8
  import opened KanaMarks

  /** The decompositions of hiragana and katakana, in the order of the code charts. */
  function Decomposition(composed: nat): Option<(nat, nat)> {
    match composed
    case 0x304C => Some((0x304B, 0x3099))
    case 0x304E => Some((0x304D, 0x3099))
    case 0x3050 => Some((0x304F, 0x3099))
    case 0x3052 => Some((0x3051, 0x3099))
    case 0x3054 => Some((0x3053, 0x3099))
    case 0x3056 => Some((0x3055, 0x3099))
    case 0x3058 => Some((0x3057, 0x3099))
    case 0x305A => Some((0x3059, 0x3099))
    case 0x305C => Some((0x305B, 0x3099))
    case 0x305E => Some((0x305D, 0x3099))
    case 0x3060 => Some((0x305F, 0x3099))
    case 0x3062 => Some((0x3061, 0x3099))
    case 0x3065 => Some((0x3064, 0x3099))
    case 0x3067 => Some((0x3066, 0x3099))
    case 0x3069 => Some((0x3068, 0x3099))
    case 0x3070 => Some((0x306F, 0x3099))
    case 0x3071 => Some((0x306F, 0x309A))
    case 0x3073 => Some((0x3072, 0x3099))
    case 0x3074 => Some((0x3072, 0x309A))
    case 0x3076 => Some((0x3075, 0x3099))
    case 0x3077 => Some((0x3075, 0x309A))
    case 0x3079 => Some((0x3078, 0x3099))
    case 0x307A => Some((0x3078, 0x309A))
    case 0x307C => Some((0x307B, 0x3099))
    case 0x307D => Some((0x307B, 0x309A))
    case 0x3094 => Some((0x3046, 0x3099))
    case 0x309E => Some((0x309D, 0x3099))
    case 0x30AC => Some((0x30AB, 0x3099))
    case 0x30AE => Some((0x30AD, 0x3099))
    case 0x30B0 => Some((0x30AF, 0x3099))
    case 0x30B2 => Some((0x30B1, 0x3099))
    case 0x30B4 => Some((0x30B3, 0x3099))
    case 0x30B6 => Some((0x30B5, 0x3099))
    case 0x30B8 => Some((0x30B7, 0x3099))
    case 0x30BA => Some((0x30B9, 0x3099))
    case 0x30BC => Some((0x30BB, 0x3099))
    case 0x30BE => Some((0x30BD, 0x3099))
    case 0x30C0 => Some((0x30BF, 0x3099))
    case 0x30C2 => Some((0x30C1, 0x3099))
    case 0x30C5 => Some((0x30C4, 0x3099))
    case 0x30C7 => Some((0x30C6, 0x3099))
    case 0x30C9 => Some((0x30C8, 0x3099))
    case 0x30D0 => Some((0x30CF, 0x3099))
    case 0x30D1 => Some((0x30CF, 0x309A))
    case 0x30D3 => Some((0x30D2, 0x3099))
    case 0x30D4 => Some((0x30D2, 0x309A))
    case 0x30D6 => Some((0x30D5, 0x3099))
    case 0x30D7 => Some((0x30D5, 0x309A))
    case 0x30D9 => Some((0x30D8, 0x3099))
    case 0x30DA => Some((0x30D8, 0x309A))
    case 0x30DC => Some((0x30DB, 0x3099))
    case 0x30DD => Some((0x30DB, 0x309A))
    case 0x30F4 => Some((0x30A6, 0x3099))
    case 0x30F7 => Some((0x30EF, 0x3099))
    case 0x30F8 => Some((0x30F0, 0x3099))
    case 0x30F9 => Some((0x30F1, 0x3099))
    case 0x30FA => Some((0x30F2, 0x3099))
    case 0x30FE => Some((0x30FD, 0x3099))
    case _ => None
  }

  /** The voiced iteration marks, which the program does not compose. */
  const ITERATION_MARKS: set<nat> := {0x309E, 0x30FE}

  lemma {:induction false} VoicedInTable(base: nat)
    requires Compose(base, VOICED) != 0
    ensures Decomposition(Compose(base, VOICED)) == Some((base, 0x3099)) && Compose(base, VOICED) !in ITERATION_MARKS
  {
  }

  lemma {:induction false} SemiVoicedInTable(base: nat)
    requires Compose(base, SEMI_VOICED) != 0
    ensures Decomposition(Compose(base, SEMI_VOICED)) == Some((base, 0x309A))
    ensures Compose(base, SEMI_VOICED) !in ITERATION_MARKS
  {
  }

  lemma {:induction false} TableIsComposed(composed: nat)
    requires Decomposition(composed).Some? && composed !in ITERATION_MARKS
    ensures var (base, mark) := Decomposition(composed).value; Compose(base, mark) == composed != 0
  {
  }

  /** A base and a mark are composed if and only if the result decomposes to them and is no iteration mark. */
  lemma {:induction false} ComposeExactly(base: nat, mark: nat, composed: nat)
    ensures composed != 0 && Compose(base, mark) == composed <==>
            Decomposition(composed) == Some((base, mark)) && composed !in ITERATION_MARKS
  {
    if composed != 0 && Compose(base, mark) == composed {
      Composed(base, mark, 0);
      if mark == VOICED {
        VoicedInTable(base);
      } else {
        SemiVoicedInTable(base);
      }
    }
    if Decomposition(composed).Some? && composed !in ITERATION_MARKS {
      TableIsComposed(composed);
    }
  }

  /** The text with its kana, or only its iteration marks, written as base and mark. */
  function Expand(cps: seq<nat>, all: bool): seq<nat> {
    if cps == [] then []
    else
      match Decomposition(cps[0])
      case Some((base, mark)) =>
        (if all || cps[0] in ITERATION_MARKS then [base, mark] else [cps[0]]) + Expand(cps[1..], all)
      case None => [cps[0]] + Expand(cps[1..], all)
  }

  lemma {:induction false} ExpandedScalars(cps: seq<nat>, all: bool)
    requires Scalars(cps)
    ensures Scalars(Expand(cps, all))
    decreases |cps|
  {
    if cps != [] {
      ExpandedScalars(cps[1..], all);
    }
  }

  /** What is composed first: the marks are no bases and the bases no marks. */
  lemma {:induction false} ExpandedFirst(c: nat, rest: seq<nat>)
    requires rest != [] ==> Compose(c, rest[0]) == 0
    requires Decomposition(c).None? || c == 0x3099
    ensures ComposeAll([c] + Expand(rest, true)) == [c] + ComposeAll(Expand(rest, true))
  {
    var more := Expand(rest, true);
    assert ([c] + more)[1..] == more;
    if rest != [] {
      assert more[0] == rest[0] || Decomposition(rest[0]) == Some((more[0], more[1]));
      assert Compose(c, more[0]) == 0;
    }
  }

  /** Composing a text that has been decomposed gives it back, but for the iteration marks. */
  lemma {:induction false} ComposeExpanded(cps: seq<nat>)
    requires NoPairs(cps)
    ensures ComposeAll(Expand(cps, true)) == Expand(cps, false)
    decreases |cps|
  {
    if cps != [] {
      var rest := cps[1..];
      forall i | 0 <= i < |rest| - 1
        ensures Compose(rest[i], rest[i + 1]) == 0
      {
        assert Compose(cps[i + 1], cps[i + 1 + 1]) == 0;
      }
      ComposeExpanded(rest);
      if rest != [] {
        assert Compose(cps[0], cps[0 + 1]) == 0;
      }
      match Decomposition(cps[0]) {
        case None => ExpandedFirst(cps[0], rest);
        case Some((base, mark)) => ComposePair(cps[0], base, mark, rest);
      }
    }
  }

  lemma {:induction false} ComposePair(c: nat, base: nat, mark: nat, rest: seq<nat>)
    requires Decomposition(c) == Some((base, mark))
    ensures ComposeAll([base, mark] + Expand(rest, true)) ==
            (if c in ITERATION_MARKS then [base, mark] else [c]) + ComposeAll(Expand(rest, true))
  {
    var all := [base, mark] + Expand(rest, true);
    ComposeExactly(base, mark, c);
    assert all[2..] == Expand(rest, true) && all[1..] == [mark] + Expand(rest, true);
    if c in ITERATION_MARKS {
      ExpandedFirst(mark, rest);
    }
  }

  /** A text in decomposed form, as some file systems store names, is normalised to its composed form. */
  lemma {:induction false} DecomposedName(cps: seq<nat>, size: nat)
    requires Scalars(cps) && NoPairs(cps)
    requires Scalars(Expand(cps, false)) && |EncodeAll(Expand(cps, false))| < size
    ensures Scalars(Expand(cps, true)) && NoNul(EncodeAll(Expand(cps, true)))
    ensures Normalize(EncodeAll(Expand(cps, true)), size) == EncodeAll(Expand(cps, false))
  {
    ExpandedScalars(cps, true);
    EncodedText(Expand(cps, true));
    ComposeExpanded(cps);
    FittingAll(Expand(cps, false), size - 1);
  }

  /** The voicing mark makes ba of ha, the semi-voicing mark pa. */
  lemma {:induction false} HaBecomesBaOrPa(size: nat)
    requires size > 3
    ensures Normalize([0xE3, 0x81, 0xAF, 0xE3, 0x82, 0x99], size) == [0xE3, 0x81, 0xB0]
    ensures Normalize([0xE3, 0x81, 0xAF, 0xE3, 0x82, 0x9A], size) == [0xE3, 0x81, 0xB1]
  {
    HaBytes();
    PairBytes(0x3070, 0x306F, 0x3099, size);
    PairBytes(0x3071, 0x306F, 0x309A, size);
    ThreeAndThree(0xE3, 0x81, 0xAF, 0xE3, 0x82, 0x99);
    ThreeAndThree(0xE3, 0x81, 0xAF, 0xE3, 0x82, 0x9A);
  }

  lemma {:induction false} HaBytes()
    ensures Encode(0x306F) == [0xE3, 0x81, 0xAF]
    ensures Encode(0x3099) == [0xE3, 0x82, 0x99] && Encode(0x309A) == [0xE3, 0x82, 0x9A]
    ensures Encode(0x3070) == [0xE3, 0x81, 0xB0] && Encode(0x3071) == [0xE3, 0x81, 0xB1]
  {
  }

  lemma {:induction false} ThreeAndThree(a: Byte, b: Byte, c: Byte, d: Byte, e: Byte, f: Byte)
    ensures [a, b, c] + [d, e, f] == [a, b, c, d, e, f]
  {
  }

  lemma {:induction false} InTable(composed: nat)
    requires Decomposition(composed).Some?
    ensures 0x3041 <= composed < 0x3100 && |Encode(composed)| == 3
    ensures 0x3041 <= Decomposition(composed).value.0 < 0x3100 && Decomposition(composed).value.1 in {0x3099, 0x309A}
  {
  }

  lemma {:induction false} ExpandOne(composed: nat, all: bool)
    requires Decomposition(composed).Some?
    ensures var (base, mark) := Decomposition(composed).value;
            Expand([composed], all) == if all || composed in ITERATION_MARKS then [base, mark] else [composed]
  {
    hide Decomposition;
    assert [composed][1..] == [] && Expand([], all) == [];
    var (base, mark) := Decomposition(composed).value;
    assert [base, mark] + [] == [base, mark] && [composed] + [] == [composed];
  }

  lemma {:induction false} PairBytes(composed: nat, base: nat, mark: nat, size: nat)
    requires Decomposition(composed) == Some((base, mark)) && composed !in ITERATION_MARKS && size > 3
    ensures NoNul(Encode(base) + Encode(mark))
    ensures Normalize(Encode(base) + Encode(mark), size) == Encode(composed)
  {
    hide Decomposition, Compose, Encode, Normalize, ComposeAll;
    ComposeExactly(base, mark, composed);
    InTable(composed);
    ExpandOne(composed, true);
    ExpandOne(composed, false);
    EncodeCons(mark, []);
    EncodeCons(base, [mark]);
    EncodeCons(composed, []);
    assert [base] + [mark] == [base, mark] && [mark] + [] == [mark] && [composed] + [] == [composed];
    assert Encode(mark) + [] == Encode(mark) && Encode(composed) + [] == Encode(composed);
    DecomposedName([composed], size);
  }
}
