/** The renderer's UTF-8 decoder and encoder, against the grammar of section 4 of RFC 3629. */
module Utf8 {

  type Byte = b: int | 0 <= b < 0x100

  /** The byte at `i` of NUL-terminated text. */
  function At(s: seq<Byte>, i: nat): Byte {
    if i < |s| then s[i] else 0
  }

  predicate Continuation(b: Byte) {
    0x80 <= b < 0xC0
  }

  datatype Step = Step(codepoint: nat, length: nat)

  const REPLACEMENT: Step := Step(0x3F, 1)

  function Two(a: Byte, b: Byte): int { (a - 0xC0) * 0x40 + (b - 0x80) }

  function Three(a: Byte, b: Byte, c: Byte): int { (a - 0xE0) * 0x1000 + (b - 0x80) * 0x40 + (c - 0x80) }

  function Four(a: Byte, b: Byte, c: Byte, d: Byte): int {
    (a - 0xF0) * 0x40000 + (b - 0x80) * 0x1000 + (c - 0x80) * 0x40 + (d - 0x80)
  }

  /** `utf8_next` on text that has not ended. */
  function Next(s: seq<Byte>): (r: Step)
    requires s != []
    ensures 1 <= r.length <= |s|
  {
    var a, b, c, d := s[0], At(s, 1), At(s, 2), At(s, 3);
    if a < 0x80 then Step(a, 1)
    else if 0xC0 <= a < 0xE0 && Continuation(b) then
      if Two(a, b) >= 0x80 then Step(Two(a, b), 2) else REPLACEMENT
    else if 0xE0 <= a < 0xF0 && Continuation(b) && Continuation(c) then
      if Three(a, b, c) >= 0x800 && !(0xD800 <= Three(a, b, c) <= 0xDFFF) then Step(Three(a, b, c), 3)
      else REPLACEMENT
    else if 0xF0 <= a < 0xF8 && Continuation(b) && Continuation(c) && Continuation(d) then
      if 0x10000 <= Four(a, b, c, d) <= 0x10FFFF then Step(Four(a, b, c, d), 4) else REPLACEMENT
    else REPLACEMENT
  }

  // ----- the grammar of RFC 3629 -----

  /** UTF8-2, UTF8-3 and UTF8-4: the length of the multi-byte sequence at the start, or 0. */
  function SequenceLength(s: seq<Byte>): nat {
    var a, b, c, d := At(s, 0), At(s, 1), At(s, 2), At(s, 3);
    if 0xC2 <= a <= 0xDF && Continuation(b) then 2
    else if a == 0xE0 && 0xA0 <= b <= 0xBF && Continuation(c) then 3
    else if 0xE1 <= a <= 0xEC && Continuation(b) && Continuation(c) then 3
    else if a == 0xED && 0x80 <= b <= 0x9F && Continuation(c) then 3
    else if 0xEE <= a <= 0xEF && Continuation(b) && Continuation(c) then 3
    else if a == 0xF0 && 0x90 <= b <= 0xBF && Continuation(c) && Continuation(d) then 4
    else if 0xF1 <= a <= 0xF3 && Continuation(b) && Continuation(c) && Continuation(d) then 4
    else if a == 0xF4 && 0x80 <= b <= 0x8F && Continuation(c) && Continuation(d) then 4
    else 0
  }

  /** The decoder consumes more than one byte exactly on the sequences of the grammar. */
  lemma {:induction false} DecoderFollowsGrammar(s: seq<Byte>)
    requires s != []
    ensures var n := SequenceLength(s);
            if n > 0 then Next(s).length == n else Next(s).length == 1
    ensures SequenceLength(s) == 0 ==> Next(s).codepoint == if s[0] < 0x80 then s[0] else 0x3F
  {
  }

  /** Characters other than NUL that UTF-8 encodes. */
  predicate Scalar(cp: int) {
    0 < cp <= 0x10FFFF && !(0xD800 <= cp <= 0xDFFF)
  }

  lemma {:induction false} NextIsScalar(s: seq<Byte>)
    requires s != [] && s[0] != 0
    ensures Scalar(Next(s).codepoint)
  {
  }

  // ----- encoding -----

  function Encode(cp: nat): (bytes: seq<Byte>)
    requires cp <= 0x10FFFF
    ensures 1 <= |bytes| <= 4
  {
    if cp <= 0x7F then [cp]
    else if cp <= 0x7FF then [0xC0 + cp / 0x40, 0x80 + cp % 0x40]
    else if cp <= 0xFFFF then [0xE0 + cp / 0x1000, 0x80 + cp / 0x40 % 0x40, 0x80 + cp % 0x40]
    else [0xF0 + cp / 0x40000, 0x80 + cp / 0x1000 % 0x40, 0x80 + cp / 0x40 % 0x40, 0x80 + cp % 0x40]
  }

  lemma {:induction false} SplitDigits(cp: nat)
    ensures cp == cp / 0x40 * 0x40 + cp % 0x40
    ensures cp / 0x40 == cp / 0x1000 * 0x40 + cp / 0x40 % 0x40
    ensures cp / 0x1000 == cp / 0x40000 * 0x40 + cp / 0x1000 % 0x40
  {
  }

  /** Decoding what was encoded gives the character back, whatever follows. */
  lemma {:induction false} DecodeEncoded(cp: nat, rest: seq<Byte>)
    requires Scalar(cp)
    ensures Next(Encode(cp) + rest) == Step(cp, |Encode(cp)|)
  {
    SplitDigits(cp);
    var s := Encode(cp) + rest;
    assert forall i :: 0 <= i < |Encode(cp)| ==> s[i] == Encode(cp)[i];
  }

  /** Encoding a decoded well-formed sequence gives its bytes back. */
  lemma {:induction false} EncodeDecoded(s: seq<Byte>)
    requires s != [] && (s[0] < 0x80 || SequenceLength(s) > 0)
    ensures Next(s).codepoint <= 0x10FFFF
    ensures Encode(Next(s).codepoint) == s[..Next(s).length]
  {
    DecoderFollowsGrammar(s);
    var n := Next(s).length;
    if n == 2 {
      EncodeTwo(s[0], s[1]);
    } else if n == 3 {
      EncodeThree(s[0], s[1], s[2]);
    } else if n == 4 {
      EncodeFour(s[0], s[1], s[2], s[3]);
    }
  }

  lemma {:induction false} EncodeTwo(a: Byte, b: Byte)
    requires 0xC2 <= a < 0xE0 && Continuation(b)
    ensures 0x80 <= Two(a, b) <= 0x7FF && Encode(Two(a, b)) == [a, b]
  {
    Remainders(a - 0xC0, b - 0x80);
  }

  lemma {:induction false} EncodeThree(a: Byte, b: Byte, c: Byte)
    requires 0xE0 <= a < 0xF0 && Continuation(b) && Continuation(c) && Three(a, b, c) >= 0x800
    ensures Three(a, b, c) <= 0xFFFF && Encode(Three(a, b, c)) == [a, b, c]
  {
    Remainders((a as int - 0xE0) * 0x40 + (b as int - 0x80), c - 0x80);
    Remainders(a - 0xE0, b - 0x80);
    SplitDigits(Three(a, b, c));
  }

  lemma {:induction false} EncodeFour(a: Byte, b: Byte, c: Byte, d: Byte)
    requires 0xF0 <= a < 0xF8 && Continuation(b) && Continuation(c) && Continuation(d)
    requires 0x10000 <= Four(a, b, c, d) <= 0x10FFFF
    ensures Encode(Four(a, b, c, d)) == [a, b, c, d]
  {
    var top: int := (a as int - 0xF0) * 0x40 + (b as int - 0x80);
    Remainders(top * 0x40 + (c as int - 0x80), d - 0x80);
    Remainders(top, c - 0x80);
    Remainders(a - 0xF0, b - 0x80);
    SplitDigits(Four(a, b, c, d));
  }

  lemma {:induction false} Remainders(high: nat, low: nat)
    requires low < 0x40
    ensures (high * 0x40 + low) / 0x40 == high && (high * 0x40 + low) % 0x40 == low
  {
  }

  // ----- whole texts -----

  predicate NoNul(s: seq<Byte>) {
    forall i :: 0 <= i < |s| ==> s[i] != 0
  }

  function DecodeAll(s: seq<Byte>): (cps: seq<nat>)
    decreases |s|
  {
    if s == [] then [] else [Next(s).codepoint] + DecodeAll(s[Next(s).length..])
  }

  predicate Scalars(cps: seq<nat>) {
    forall i :: 0 <= i < |cps| ==> Scalar(cps[i])
  }

  function EncodeAll(cps: seq<nat>): seq<Byte>
    requires Scalars(cps)
  {
    if cps == [] then [] else Encode(cps[0]) + EncodeAll(cps[1..])
  }

  /** Text made of NUL-free ASCII and the sequences of the grammar. */
  predicate WellFormed(s: seq<Byte>)
    decreases |s|
  {
    s == [] ||
    (s[0] != 0 && (s[0] < 0x80 || SequenceLength(s) > 0) && WellFormed(s[Next(s).length..]))
  }

  lemma {:induction false} DecodedScalars(s: seq<Byte>)
    requires NoNul(s)
    ensures Scalars(DecodeAll(s))
    decreases |s|
  {
    if s != [] {
      NextIsScalar(s);
      DecodedScalars(s[Next(s).length..]);
    }
  }

  lemma {:induction false} EncodedIsSequence(cp: nat, rest: seq<Byte>)
    requires Scalar(cp)
    ensures var s := Encode(cp) + rest;
            s[0] != 0 && (s[0] < 0x80 || SequenceLength(s) > 0)
  {
    DecodeEncoded(cp, rest);
    DecoderFollowsGrammar(Encode(cp) + rest);
  }

  /** Decoding inverts encoding on every sequence of characters, and what is encoded is well formed. */
  lemma {:induction false} EncodedText(cps: seq<nat>)
    requires Scalars(cps)
    ensures DecodeAll(EncodeAll(cps)) == cps && WellFormed(EncodeAll(cps)) && NoNul(EncodeAll(cps))
    decreases |cps|
  {
    if cps != [] {
      var rest := EncodeAll(cps[1..]);
      EncodedText(cps[1..]);
      DecodeEncoded(cps[0], rest);
      EncodedIsSequence(cps[0], rest);
      assert EncodeAll(cps)[|Encode(cps[0])|..] == rest;
      assert forall i :: 0 <= i < |Encode(cps[0])| ==> Encode(cps[0])[i] != 0;
    }
  }

  lemma {:induction false} FirstBytes(s: seq<Byte>)
    requires s != [] && (s[0] < 0x80 || SequenceLength(s) > 0)
    ensures Next(s).codepoint <= 0x10FFFF
    ensures Encode(Next(s).codepoint) + s[Next(s).length..] == s
  {
    EncodeDecoded(s);
  }

  /** Re-encoding a decoded well-formed text gives back its bytes. */
  lemma {:induction false} WellFormedText(s: seq<Byte>)
    requires WellFormed(s)
    ensures Scalars(DecodeAll(s)) && EncodeAll(DecodeAll(s)) == s
    decreases |s|
  {
    if s != [] {
      NextIsScalar(s);
      WellFormedText(s[Next(s).length..]);
      EncodeCons(Next(s).codepoint, DecodeAll(s[Next(s).length..]));
      FirstBytes(s);
    }
  }

  lemma {:induction false} EncodeCons(cp: nat, rest: seq<nat>)
    requires Scalar(cp) && Scalars(rest)
    ensures Scalars([cp] + rest) && EncodeAll([cp] + rest) == Encode(cp) + EncodeAll(rest)
  {
    assert ([cp] + rest)[1..] == rest;
  }
}
