/** Lexical normalisation of paths in the frontend. */
module PathNormal {
  import opened Common
  import opened Strings

  const SEGMENTS: nat := 256
  const PATH_MAX: nat := 4096

  /** One segment against the segments kept so far. */
  function Push(stack: seq<string>, absolute: bool, part: string): (r: seq<string>)
    ensures |r| <= |stack| + 1
  {
    if part == "" || part == "." then stack
    else if part == ".." then
      if stack != [] && stack[|stack| - 1] != ".." then stack[..|stack| - 1]
      else if !absolute && |stack| < SEGMENTS then stack + [".."]
      else stack
    else if |stack| < SEGMENTS then stack + [part]
    else stack
  }

  function Fold(stack: seq<string>, absolute: bool, parts: seq<string>): seq<string>
    decreases |parts|
  {
    if parts == [] then stack else Fold(Push(stack, absolute, parts[0]), absolute, parts[1..])
  }

  predicate Absolute(path: string) {
    path != "" && path[0] == '/'
  }

  function Segments(path: string): seq<string> {
    Fold([], Absolute(path), Split(path, '/'))
  }

  function Text(absolute: bool, segments: seq<string>): string {
    if segments == [] && !absolute then "." else (if absolute then "/" else "") + Join(segments, '/')
  }

  /** `normalize_path`: the normalised text, or nothing for the empty path and for text that does not fit. */
  function Normalized(path: string, size: nat): Option<string> {
    if path == "" || |path| + 1 > PATH_MAX || |Text(Absolute(path), Segments(path))| + 1 > size then None
    else Some(Text(Absolute(path), Segments(path)))
  }

  /** Segments of a normalised path: no empty one, no ".", and ".." only in front of a relative path. */
  predicate Normal(absolute: bool, segments: seq<string>) {
    |segments| <= SEGMENTS && Clean(absolute, segments)
  }

  predicate Clean(absolute: bool, segments: seq<string>) {
    && (forall i :: 0 <= i < |segments| ==> segments[i] != "" && segments[i] != "." && '/' !in segments[i])
    && (absolute ==> forall i :: 0 <= i < |segments| ==> segments[i] != "..")
    && (forall i :: 0 < i < |segments| && segments[i] == ".." ==> segments[i - 1] == "..")
  }

  lemma {:induction false} PushIsNormal(stack: seq<string>, absolute: bool, part: string)
    requires Normal(absolute, stack) && '/' !in part
    ensures Normal(absolute, Push(stack, absolute, part))
  {
  }

  lemma {:induction false} FoldIsNormal(stack: seq<string>, absolute: bool, parts: seq<string>)
    requires Normal(absolute, stack) && forall i :: 0 <= i < |parts| ==> '/' !in parts[i]
    ensures Normal(absolute, Fold(stack, absolute, parts))
    decreases |parts|
  {
    if parts != [] {
      FoldIsNormal(Push(stack, absolute, parts[0]), absolute, parts[1..]);
    }
  }

  /** The result has no empty or "." segment, and ".." only as a leading run of a relative path. */
  lemma {:induction false} SegmentsAreNormal(path: string)
    ensures Normal(Absolute(path), Segments(path))
  {
    JoinSplit(path, '/');
    FoldIsNormal([], Absolute(path), Split(path, '/'));
  }

  /** Normal segments are kept as they are. */
  lemma {:induction false} FoldKeepsNormal(stack: seq<string>, absolute: bool, parts: seq<string>)
    requires Normal(absolute, stack + parts)
    ensures Fold(stack, absolute, parts) == stack + parts
    decreases |parts|
  {
    if parts == [] {
      assert stack + [] == stack;
    } else {
      var all := stack + parts;
      assert all[|stack|] == parts[0];
      if parts[0] == ".." && stack != [] {
        assert all[|stack| - 1] == stack[|stack| - 1];
      }
      assert stack + [parts[0]] + parts[1..] == all;
      FoldKeepsNormal(stack + [parts[0]], absolute, parts[1..]);
    }
  }

  lemma {:induction false} SegmentsOfText(absolute: bool, segments: seq<string>)
    requires Normal(absolute, segments)
    ensures Absolute(Text(absolute, segments)) == absolute
    ensures Segments(Text(absolute, segments)) == segments
  {
    var text := Text(absolute, segments);
    if segments == [] {
      assert Split("", '/') == [""];
      if absolute {
        assert "/" + "" == text;
        assert text[1..] == "";
        assert Split(text, '/') == ["", ""];
      } else {
        SplitJoin(["."], '/');
        assert Split(".", '/') == ["."];
      }
      assert Segments(text) == [] by { EmptyParts(absolute, Split(text, '/')); }
    } else {
      SplitJoin(segments, '/');
      FoldKeepsNormal([], absolute, segments);
      assert [] + segments == segments;
      JoinStarts(segments);
      if absolute {
        assert text[1..] == Join(segments, '/');
        assert Split(text, '/') == [""] + segments;
        assert Split(text, '/')[1..] == segments;
      } else {
        assert "" + Join(segments, '/') == Join(segments, '/');
      }
    }
  }

  lemma {:induction false} EmptyParts(absolute: bool, parts: seq<string>)
    requires parts == ["."] || parts == ["", ""]
    ensures Fold([], absolute, parts) == []
  {
    assert Fold([], absolute, parts) == Fold([], absolute, parts[1..]);
    if |parts| == 2 {
      assert Fold([], absolute, parts[1..]) == Fold([], absolute, parts[1..][1..]);
    }
  }

  /** Joined segments start with the first one's character, which is no slash. */
  lemma {:induction false} JoinStarts(segments: seq<string>)
    requires segments != [] && segments[0] != "" && '/' !in segments[0]
    ensures Join(segments, '/') != "" && Join(segments, '/')[0] != '/'
  {
  }

  /** Normalising again changes nothing. */
  lemma {:induction false} NormalizedTwice(path: string, size: nat)
    requires Normalized(path, size).Some? && size <= 4096
    ensures Normalized(Normalized(path, size).value, size) == Normalized(path, size)
  {
    SegmentsAreNormal(path);
    SegmentsOfText(Absolute(path), Segments(path));
    if Segments(path) != [] {
      JoinStarts(Segments(path));
    }
  }

  /** Room for segments, each with one slash. */
  function Weight(parts: seq<string>): nat
    decreases |parts|
  {
    if parts == [] then 0 else |parts[0]| + 1 + Weight(parts[1..])
  }

  lemma {:induction false} WeightOfJoin(parts: seq<string>, c: char)
    requires parts != []
    ensures |Join(parts, c)| + 1 == Weight(parts)
    decreases |parts|
  {
    if |parts| > 1 {
      WeightOfJoin(parts[1..], c);
    }
  }

  lemma {:induction false} WeightOfConcat(a: seq<string>, b: seq<string>)
    ensures Weight(a + b) == Weight(a) + Weight(b)
    decreases |a|
  {
    if a == [] {
      assert a + b == b;
    } else {
      assert (a + b)[1..] == a[1..] + b;
      WeightOfConcat(a[1..], b);
    }
  }

  lemma {:induction false} FoldWeight(stack: seq<string>, absolute: bool, parts: seq<string>)
    ensures Weight(Fold(stack, absolute, parts)) <= Weight(stack) + Weight(parts)
    decreases |parts|
  {
    if parts != [] {
      var next := Push(stack, absolute, parts[0]);
      WeightOfConcat(stack, [parts[0]]);
      if stack != [] && next == stack[..|stack| - 1] {
        WeightOfConcat(stack[..|stack| - 1], [stack[|stack| - 1]]);
        assert stack[..|stack| - 1] + [stack[|stack| - 1]] == stack;
      }
      FoldWeight(next, absolute, parts[1..]);
    }
  }

  /** A normalised path is never longer than the path, so with room for 4096 every shorter path is normalised. */
  lemma {:induction false} NormalizedNoLonger(path: string, size: nat)
    ensures Normalized(path, size).Some? ==> |Normalized(path, size).value| <= |path| && |path| < 4096
    ensures size >= 4096 ==> (Normalized(path, size).Some? <==> 0 < |path| < 4096)
  {
    var parts, segments := Split(path, '/'), Segments(path);
    JoinSplit(path, '/');
    WeightOfJoin(parts, '/');
    if segments != [] {
      WeightOfJoin(segments, '/');
    }
    FoldWeight([], Absolute(path), parts);
    if Absolute(path) {
      assert parts[0] == "";
      FoldWeight([], true, parts[1..]);
    }
  }

  /** The slash-free run at the front of `rest`. */
  method SegmentEnd(rest: string) returns (n: nat)
    ensures n <= |rest| && '/' !in rest[..n] && (n < |rest| ==> rest[n] == '/')
  {
    n := 0;
    while n < |rest| && rest[n] != '/'
      invariant n <= |rest| && '/' !in rest[..n]
    {
      n := n + 1;
    }
  }

  /** Splitting off the front segment. */
  lemma {:induction false} SplitOff(rest: string, n: nat)
    requires n <= |rest| && '/' !in rest[..n] && (n < |rest| ==> rest[n] == '/')
    ensures Split(rest, '/') == [rest[..n]] + (if n < |rest| then Split(rest[n + 1..], '/') else [])
  {
    assert rest == rest[..n] + rest[n..];
    SplitPrefix(rest[..n], rest[n..], '/');
    if n < |rest| {
      assert rest[n..][1..] == rest[n + 1..];
      assert rest[..n] + "" == rest[..n];
    } else {
      assert rest[..n] + "" == rest[..n];
    }
  }

  lemma {:induction false} FoldFirst(stack: seq<string>, absolute: bool, part: string, parts: seq<string>)
    ensures Fold(stack, absolute, [part] + parts) == Fold(Push(stack, absolute, part), absolute, parts)
  {
    assert ([part] + parts)[1..] == parts;
  }

  /** The segment loop of `normalize_path`; `rest` is the text behind its pointer. */
  method CollectSegments(path: string) returns (segments: seq<string>)
    requires path != ""
    ensures segments == Segments(path)
  {
    var absolute := path[0] == '/';
    var rest := path;
    segments := [];
    ghost var parts := Split(path, '/');
    while rest != ""
      invariant Segments(path) == Fold(segments, absolute, parts)
      invariant if rest == "" then Fold(segments, absolute, parts) == segments else parts == Split(rest, '/')
      decreases |rest|
    {
      if rest[0] == '/' {
        SplitOff(rest, 0);
        FoldFirst(segments, absolute, "", Split(rest[1..], '/'));
        parts := Split(rest[1..], '/');
        rest := rest[1..];
        continue;
      }
      var n := SegmentEnd(rest);
      SplitOff(rest, n);
      var part := rest[..n];
      FoldFirst(segments, absolute, part, parts[1..]);
      if n < |rest| {
        parts := Split(rest[n + 1..], '/');
        rest := rest[n + 1..];
      } else {
        parts := [];
        rest := "";
      }
      segments := PushSegment(segments, absolute, part);
    }
  }

  /** What the loop does with one nonempty segment. */
  method PushSegment(segments: seq<string>, absolute: bool, part: string) returns (r: seq<string>)
    requires part != ""
    ensures r == Push(segments, absolute, part)
  {
    r := segments;
    if part == "." {
      return;
    }
    if part == ".." {
      if |r| > 0 && r[|r| - 1] != ".." {
        r := r[..|r| - 1];
      } else if !absolute && |r| < SEGMENTS {
        r := r + [part];
      }
      return;
    }
    if |r| < SEGMENTS {
      r := r + [part];
    }
  }

  /** `append_string`: appends when the text and its terminator fit. */
  method AppendText(out: string, size: nat, text: string) returns (r: string, ok: bool)
    ensures ok <==> |out + text| + 1 <= size
    ensures r == if ok then out + text else out
  {
    if |out| + |text| + 1 > size {
      return out, false;
    }
    return out + text, true;
  }

  lemma {:induction false} JoinPrefixFits(parts: seq<string>, k: nat)
    requires k <= |parts|
    ensures |Join(parts[..k], '/')| <= |Join(parts, '/')|
  {
    if k == 0 {
    } else {
      WeightOfJoin(parts, '/');
      WeightOfJoin(parts[..k], '/');
      WeightOfConcat(parts[..k], parts[k..]);
      assert parts[..k] + parts[k..] == parts;
    }
  }

  lemma {:induction false} JoinSnoc(parts: seq<string>, part: string)
    ensures Join(parts + [part], '/') == if parts == [] then part else Join(parts, '/') + "/" + part
    decreases |parts|
  {
    if parts != [] {
      assert (parts + [part])[1..] == parts[1..] + [part];
      JoinSnoc(parts[1..], part);
    }
  }

  /** `normalize_path` */
  method NormalizePath(path: string, size: nat) returns (out: Option<string>)
    ensures out == Normalized(path, size)
  {
    if path == "" || |path| + 1 > PATH_MAX {
      return None;
    }
    var absolute := path[0] == '/';
    var segments := CollectSegments(path);
    var text, ok := WriteSegments(absolute, segments, size);
    if !ok {
      return None;
    }
    return Some(text);
  }

  method WriteSegments(absolute: bool, segments: seq<string>, size: nat) returns (text: string, ok: bool)
    ensures ok <==> |Text(absolute, segments)| + 1 <= size
    ensures ok ==> text == Text(absolute, segments)
  {
    text, ok := "", size > 0;
    if !ok {
      return;
    }
    if absolute {
      text, ok := AppendText(text, size, "/");
      if !ok {
        return;
      }
    }
    ghost var root := text;
    for i := 0 to |segments|
      invariant ok && text == root + Join(segments[..i], '/') && |text| + 1 <= size
      invariant root == if absolute then "/" else ""
    {
      text, ok := WriteSegment(root, segments, i, text, size);
      if !ok {
        JoinPrefixFits(segments, i + 1);
        return;
      }
    }
    assert segments[..|segments|] == segments;
    if |segments| == 0 && !absolute {
      text, ok := AppendText("", size, ".");
    }
  }

  method WriteSegment(ghost root: string, segments: seq<string>, i: nat, out: string, size: nat)
    returns (text: string, ok: bool)
    requires i < |segments| && out == root + Join(segments[..i], '/')
    ensures ok <==> |root + Join(segments[..i + 1], '/')| + 1 <= size
    ensures ok ==> text == root + Join(segments[..i + 1], '/')
  {
    text, ok := out, true;
    JoinSnoc(segments[..i], segments[i]);
    assert segments[..i] + [segments[i]] == segments[..i + 1];
    if i > 0 {
      text, ok := AppendText(text, size, "/");
      if !ok {
        return;
      }
    }
    text, ok := AppendText(text, size, segments[i]);
  }

  /** `resolve_path` below a base directory, with both buffers of the same limit. */
  method ResolvePath(base: string, path: string, size: nat) returns (out: Option<string>)
    ensures out == if path == "" then None
                   else if Absolute(path) then Normalized(path, size)
                   else if |base + "/" + path| + 1 > PATH_MAX then None
                   else Normalized(base + "/" + path, size)
  {
    if path == "" {
      return None;
    }
    if path[0] == '/' {
      out := NormalizePath(path, size);
      return;
    }
    if |base| + 1 + |path| + 1 > PATH_MAX {
      return None;
    }
    out := NormalizePath(base + "/" + path, size);
  }
}
