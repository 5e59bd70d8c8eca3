/**
 Splitting and joining of slash-separated text, and the code-point order on strings. Paths are
 split at slashes in the updater's checks of relative paths and in the frontend's normalisation;
 joining the parts again gives the text back, and splitting joined parts gives the parts back when
 none of them contains the separator. The order is the one Python sorts strings by; the plan of an
 update is sorted by it.
 */
module Strings {

  function Split(s: string, c: char): (parts: seq<string>)
    ensures parts != []
    decreases |s|
  {
    if s == [] then [""]
    else if s[0] == c then [""] + Split(s[1..], c)
    else
      var rest := Split(s[1..], c);
      [[s[0]] + rest[0]] + rest[1..]
  }

  function Join(parts: seq<string>, c: char): string
    decreases |parts|
  {
    if parts == [] then ""
    else if |parts| == 1 then parts[0]
    else parts[0] + [c] + Join(parts[1..], c)
  }

  lemma {:induction false} JoinSplit(s: string, c: char)
    ensures Join(Split(s, c), c) == s
    ensures forall i :: 0 <= i < |Split(s, c)| ==> c !in Split(s, c)[i]
    decreases |s|
  {
    if s != [] {
      JoinSplit(s[1..], c);
      var rest := Split(s[1..], c);
      var parts := Split(s, c);
      if s[0] == c {
        assert parts[1..] == rest;
        assert Join(parts, c) == [] + [c] + Join(rest, c);
      } else {
        assert parts[1..] == rest[1..];
        if |rest| == 1 {
          assert rest[0] == s[1..];
        } else {
          assert Join(parts, c) == [s[0]] + (rest[0] + [c] + Join(rest[1..], c));
        }
      }
    }
  }

  lemma {:induction false} SplitPrefix(a: string, s: string, c: char)
    requires c !in a
    ensures Split(a + s, c) == [a + Split(s, c)[0]] + Split(s, c)[1..]
    decreases |a|
  {
    if a == [] {
      assert a + s == s;
      assert a + Split(s, c)[0] == Split(s, c)[0];
    } else {
      assert (a + s)[1..] == a[1..] + s;
      assert (a + s)[0] == a[0] != c;
      SplitPrefix(a[1..], s, c);
      assert [a[0]] + (a[1..] + Split(s, c)[0]) == a + Split(s, c)[0];
    }
  }

  lemma {:induction false} SplitJoin(parts: seq<string>, c: char)
    requires parts != []
    requires forall i :: 0 <= i < |parts| ==> c !in parts[i]
    ensures Split(Join(parts, c), c) == parts
    decreases |parts|
  {
    var p := parts[0];
    if |parts| == 1 {
      SplitPrefix(p, "", c);
      assert p + "" == p;
    } else {
      var tail := [c] + Join(parts[1..], c);
      assert Join(parts, c) == p + tail;
      SplitPrefix(p, tail, c);
      SplitJoin(parts[1..], c);
      assert tail[1..] == Join(parts[1..], c);
      assert Split(tail, c) == [""] + parts[1..];
      assert p + "" == p;
    }
  }

  /** `part` stands in `s` from `i` on, with a separator or an end at both sides. */
  predicate PartAt(s: string, i: nat, part: string, c: char) {
    && i + |part| <= |s| && s[i..i + |part|] == part
    && (i == 0 || s[i - 1] == c) && (i + |part| == |s| || s[i + |part|] == c)
  }

  lemma {:induction false} SplitFirst(s: string, c: char, part: string)
    requires c !in part
    ensures PartAt(s, 0, part, c) <==> Split(s, c)[0] == part
    decreases |s|
  {
    if s != "" && s[0] != c && part != "" {
      SplitFirst(s[1..], c, part[1..]);
      assert part == [part[0]] + part[1..];
      if s[0] == part[0] && |part| <= |s| {
        assert s[..|part|] == [s[0]] + s[1..][..|part| - 1];
      }
      if PartAt(s, 0, part, c) {
        assert s[0] == s[0..|part|][0] == part[0];
        assert s[1..][0..|part| - 1] == s[0..|part|][1..] == part[1..];
      }
      if Split(s, c)[0] == part {
        assert part[0] == s[0] && part[1..] == Split(s[1..], c)[0];
        assert s[0..|part|] == [s[0]] + s[1..][0..|part| - 1];
      }
    }
  }

  lemma {:induction false} PartLater(s: string, i: nat, part: string, c: char)
    requires s != "" && i > 0
    ensures PartAt(s, i, part, c) <==> PartAt(s[1..], i - 1, part, c) && (i == 1 ==> s[0] == c)
  {
    if i + |part| <= |s| {
      assert s[i..i + |part|] == s[1..][i - 1..i - 1 + |part|];
    }
  }

  /** The parts of a text but the first are what stands behind a separator. */
  lemma {:induction false} SplitLater(s: string, c: char, part: string)
    requires c !in part
    ensures part in Split(s, c)[1..] <==> exists i: nat :: i > 0 && PartAt(s, i, part, c)
    decreases |s|
  {
    if s != "" {
      var rest := Split(s[1..], c);
      SplitLater(s[1..], c, part);
      SplitFirst(s[1..], c, part);
      assert rest == [rest[0]] + rest[1..];
      if part in Split(s, c)[1..] {
        if s[0] == c && part == rest[0] {
          PartLater(s, 1, part, c);
        } else {
          assert part in rest[1..];
          var i: nat :| i > 0 && PartAt(s[1..], i, part, c);
          PartLater(s, i + 1, part, c);
        }
      }
      if i: nat :| i > 0 && PartAt(s, i, part, c) {
        PartLater(s, i, part, c);
      }
    }
  }

  lemma {:induction false} SplitHolds(s: string, c: char, part: string)
    requires c !in part
    ensures part in Split(s, c) <==> exists i: nat :: PartAt(s, i, part, c)
  {
    var parts := Split(s, c);
    assert parts == [parts[0]] + parts[1..];
    SplitFirst(s, c, part);
    SplitLater(s, c, part);
  }

  /** Lexicographic order by code point, as Python compares strings. */
  predicate StringLeq(a: string, b: string)
    decreases |a|
  {
    a == [] || (b != [] && (a[0] < b[0] || (a[0] == b[0] && StringLeq(a[1..], b[1..]))))
  }

  lemma {:induction false} StringLeqTotal(a: string, b: string)
    ensures StringLeq(a, b) || StringLeq(b, a)
    decreases |a|
  {
    if a != [] && b != [] {
      StringLeqTotal(a[1..], b[1..]);
    }
  }

  lemma {:induction false} StringLeqTransitive(a: string, b: string, c: string)
    requires StringLeq(a, b) && StringLeq(b, c)
    ensures StringLeq(a, c)
    decreases |a|
  {
    if a != [] && a[0] == b[0] == c[0] {
      StringLeqTransitive(a[1..], b[1..], c[1..]);
    }
  }

  /** A prefix comes first, and otherwise the first difference decides. */
  lemma {:induction false} StringLeqMeans(a: string, b: string)
    ensures StringLeq(a, b) <==>
            a <= b || exists k: nat :: k < |a| && k < |b| && a[..k] == b[..k] && a[k] < b[k]
    decreases |a|
  {
    if a != [] && b != [] {
      StringLeqMeans(a[1..], b[1..]);
      if a[0] == b[0] {
        if a[1..] <= b[1..] {
          assert a == [a[0]] + a[1..] && b == [b[0]] + b[1..];
        }
        if k: nat :| k < |a[1..]| && k < |b[1..]| && a[1..][..k] == b[1..][..k] && a[1..][k] < b[1..][k] {
          assert a[..k + 1] == [a[0]] + a[1..][..k] && b[..k + 1] == [b[0]] + b[1..][..k];
          assert a[k + 1] < b[k + 1];
        }
        if k: nat :| k < |a| && k < |b| && a[..k] == b[..k] && a[k] < b[k] {
          assert k > 0 && a[1..][..k - 1] == a[..k][1..] && b[1..][..k - 1] == b[..k][1..];
          assert a[1..][k - 1] < b[1..][k - 1];
        }
      } else if a[0] < b[0] {
        assert a[..0] == b[..0];
      } else {
        forall k: nat | 0 < k < |a| && k < |b|
          ensures a[..k] != b[..k]
        {
          assert a[..k][0] != b[..k][0];
        }
      }
    }
  }
}
