/** Where a path leads before and after normalisation. */
module PathLeads {
  // The fold without a limit leads where the path leads in every tree, so normalisation is right
  // exactly when both folds end with the same segments.

  import opened Common
  import opened Strings
  import opened PathNormal
  import opened PathLimit

  /** A directory is named by the path to it from the root; `dirs` is a symlink-free tree of them. */
  type Place = seq<string>

  function Walk(dirs: set<Place>, at: Place, parts: seq<string>): Option<Place>
    decreases |parts|
  {
    if parts == [] then Some(at)
    else if parts[0] == "" || parts[0] == "." then Walk(dirs, at, parts[1..])
    else if parts[0] == ".." then Walk(dirs, if at == [] then [] else at[..|at| - 1], parts[1..])
    else if at + [parts[0]] in dirs then Walk(dirs, at + [parts[0]], parts[1..])
    else None
  }

  /** Where a path leads from the directory `start`. */
  function Lookup(dirs: set<Place>, start: Place, path: string): Option<Place> {
    Walk(dirs, if Absolute(path) then [] else start, Split(path, '/'))
  }

  lemma {:induction false} WalkConcat(dirs: set<Place>, at: Place, a: seq<string>, b: seq<string>)
    ensures Walk(dirs, at, a + b) ==
            match Walk(dirs, at, a)
            case None => None
            case Some(mid) => Walk(dirs, mid, b)
    decreases |a|
  {
    if a == [] {
      assert a + b == b;
    } else {
      assert (a + b)[1..] == a[1..] + b;
      var next := if a[0] == "" || a[0] == "." then at
                  else if a[0] == ".." then (if at == [] then [] else at[..|at| - 1])
                  else at + [a[0]];
      WalkConcat(dirs, next, a[1..], b);
    }
  }

  lemma {:induction false} WalkOne(dirs: set<Place>, at: Place, part: string)
    ensures Walk(dirs, at, [part]) ==
            if part == "" || part == "." then Some(at)
            else if part == ".." then Some(if at == [] then [] else at[..|at| - 1])
            else if at + [part] in dirs then Some(at + [part])
            else None
  {
  }

  /** Leaving the last kept directory leads to its parent. */
  lemma {:induction false} PopLeads(dirs: set<Place>, start: Place, absolute: bool, stack: seq<string>, at: Place)
    requires Clean(absolute, stack) && stack != [] && stack[|stack| - 1] != ".."
    requires Walk(dirs, start, stack) == Some(at)
    ensures at != [] && Walk(dirs, start, stack[..|stack| - 1]) == Some(at[..|at| - 1])
  {
    var last := stack[|stack| - 1];
    assert stack[..|stack| - 1] + [last] == stack;
    WalkConcat(dirs, start, stack[..|stack| - 1], [last]);
    var parent := Walk(dirs, start, stack[..|stack| - 1]).value;
    WalkOne(dirs, parent, last);
    assert (parent + [last])[..|parent|] == parent;
  }

  lemma {:induction false} PushLeads(dirs: set<Place>, start: Place, absolute: bool, stack: seq<string>, at: Place,
                                     part: string)
    requires Clean(absolute, stack) && (absolute ==> start == [])
    requires Walk(dirs, start, stack) == Some(at) && Walk(dirs, at, [part]).Some?
    ensures Walk(dirs, start, FullPush(stack, absolute, part)) == Walk(dirs, at, [part])
  {
    WalkOne(dirs, at, part);
    WalkConcat(dirs, start, stack, [part]);
    if part == ".." && stack != [] && stack[|stack| - 1] != ".." {
      PopLeads(dirs, start, absolute, stack, at);
    } else if part == ".." && absolute {
      assert stack == [];
    }
  }

  /** The fold without a limit leads where the parts lead, in every tree and from every start. */
  lemma {:induction false} FullFoldLeads(dirs: set<Place>, start: Place, absolute: bool, stack: seq<string>, at: Place,
                                         parts: seq<string>)
    requires Clean(absolute, stack) && (absolute ==> start == []) && SlashFree(parts)
    requires Walk(dirs, start, stack) == Some(at) && Walk(dirs, at, parts).Some?
    ensures Walk(dirs, start, FullFold(stack, absolute, parts)) == Walk(dirs, at, parts)
    decreases |parts|
  {
    if parts != [] {
      assert parts == [parts[0]] + parts[1..];
      WalkConcat(dirs, at, [parts[0]], parts[1..]);
      PushLeads(dirs, start, absolute, stack, at, parts[0]);
      var next := FullPush(stack, absolute, parts[0]);
      FullFoldLeads(dirs, start, absolute, next, Walk(dirs, at, [parts[0]]).value, parts[1..]);
    }
  }

  lemma {:induction false} TextLeads(dirs: set<Place>, from: Place, absolute: bool, segments: seq<string>)
    requires Normal(absolute, segments)
    ensures Walk(dirs, from, Split(Text(absolute, segments), '/')) == Walk(dirs, from, segments)
  {
    var text := Text(absolute, segments);
    if segments == [] {
      assert Split("", '/') == [""];
      if absolute {
        assert text == "/" && text[1..] == "";
        assert Split(text, '/') == [""] + [""];
        WalkConcat(dirs, from, [""], [""]);
      } else {
        SplitJoin(["."], '/');
        assert Split(text, '/') == ["."];
      }
    } else {
      SplitJoin(segments, '/');
      if absolute {
        assert text[1..] == Join(segments, '/');
        assert Split(text, '/') == [""] + segments;
        WalkConcat(dirs, from, [""], segments);
      } else {
        assert text == Join(segments, '/');
      }
    }
  }

  /** Normalisation with nothing lost leads to the same place. */
  lemma {:induction false} WholeLeads(dirs: set<Place>, start: Place, path: string, size: nat)
    requires Normalized(path, size).Some? && Segments(path) == FullSegments(path)
    requires Lookup(dirs, start, path).Some?
    ensures Lookup(dirs, start, Normalized(path, size).value) == Lookup(dirs, start, path)
  {
    var absolute := Absolute(path);
    var from := if absolute then [] else start;
    JoinSplit(path, '/');
    FullFoldLeads(dirs, from, absolute, [], from, Split(path, '/'));
    SegmentsAreNormal(path);
    SegmentsOfText(absolute, Segments(path));
    TextLeads(dirs, from, absolute, Segments(path));
  }

  /** A path that is in step and leads somewhere leads there after normalisation too. */
  lemma {:induction false} NormalizedLeads(dirs: set<Place>, start: Place, path: string, size: nat)
    requires Normalized(path, size).Some? && InStep(Absolute(path), Split(path, '/'))
    requires Lookup(dirs, start, path).Some?
    ensures Lookup(dirs, start, Normalized(path, size).value) == Lookup(dirs, start, path)
  {
    SegmentsWhole(path);
    WholeLeads(dirs, start, path, size);
  }

  // ----- a tree that tells two paths apart -----

  /** What a directory can be called. */
  predicate IsName(name: string) {
    name != "" && name != "." && name != ".." && '/' !in name
  }

  predicate IsPlace(at: Place) {
    forall i :: 0 <= i < |at| ==> IsName(at[i])
  }

  /** Every directory has a proper path, and its parent is there too. */
  ghost predicate IsTree(dirs: set<Place>) {
    && [] in dirs
    && (forall p <- dirs :: IsPlace(p))
    && (forall p <- dirs :: forall k :: 0 <= k <= |p| ==> p[..k] in dirs)
  }

  /** In every tree and from every directory of it, `out` leads where `path` leads. */
  ghost predicate LeadsSame(path: string, out: string) {
    forall dirs: set<Place>, start: Place | IsTree(dirs) && start in dirs && Lookup(dirs, start, path).Some? ::
      Lookup(dirs, start, out) == Lookup(dirs, start, path)
  }

  /** One part of a walk that finds every directory. */
  function Enter(at: Place, part: string): Place {
    if part == "" || part == "." then at
    else if part == ".." then (if at == [] then [] else at[..|at| - 1])
    else at + [part]
  }

  function Above(at: Place): set<Place> {
    set k | 0 <= k <= |at| :: at[..k]
  }

  /** The directories such a walk visits, and those above them. */
  function Visited(at: Place, parts: seq<string>): set<Place>
    decreases |parts|
  {
    Above(at) + if parts == [] then {} else Visited(Enter(at, parts[0]), parts[1..])
  }

  lemma {:induction false} AboveIsTree(at: Place)
    requires IsPlace(at)
    ensures IsTree(Above(at)) && at in Above(at)
  {
    assert at[..0] == [] && at[..|at|] == at;
    forall p, k | p in Above(at) && 0 <= k <= |p|
      ensures p[..k] in Above(at)
    {
      assert p[..k] == at[..k];
    }
  }

  lemma {:induction false} VisitedIsTree(at: Place, parts: seq<string>)
    requires IsPlace(at) && SlashFree(parts)
    ensures IsTree(Visited(at, parts)) && at in Visited(at, parts)
    decreases |parts|
  {
    AboveIsTree(at);
    if parts != [] {
      VisitedIsTree(Enter(at, parts[0]), parts[1..]);
    }
  }

  lemma {:induction false} VisitedWalks(dirs: set<Place>, at: Place, parts: seq<string>)
    requires Visited(at, parts) <= dirs && IsPlace(at) && SlashFree(parts)
    ensures Walk(dirs, at, parts).Some?
    decreases |parts|
  {
    if parts != [] {
      var next := Enter(at, parts[0]);
      VisitedIsTree(next, parts[1..]);
      assert Visited(next, parts[1..]) <= dirs;
      VisitedWalks(dirs, next, parts[1..]);
    }
  }

  /** Where names lead. */
  lemma {:induction false} NamesLead(dirs: set<Place>, at: Place, segments: seq<string>)
    requires Clean(false, segments) && Ups(segments) == 0 && Walk(dirs, at, segments).Some?
    ensures Walk(dirs, at, segments) == Some(at + segments)
    decreases |segments|
  {
    if segments == [] {
      assert at + [] == at;
    } else {
      UpsAt(false, segments);
      TailIsClean(segments);
      UpsAt(false, segments[1..]);
      assert segments[1..] != [] ==> segments[1..][0] == segments[1];
      NamesLead(dirs, at + [segments[0]], segments[1..]);
      assert at + [segments[0]] + segments[1..] == at + segments;
    }
  }

  lemma {:induction false} TailIsClean(segments: seq<string>)
    requires Clean(false, segments) && segments != []
    ensures Clean(false, segments[1..])
  {
    var tail := segments[1..];
    forall i | 0 < i < |tail| && tail[i] == ".."
      ensures tail[i - 1] == ".."
    {
      assert tail[i] == segments[i + 1];
    }
  }

  /** Where clean segments lead: up first, then down. */
  lemma {:induction false} CleanLead(dirs: set<Place>, at: Place, segments: seq<string>)
    requires Clean(false, segments) && Ups(segments) <= |at| && Walk(dirs, at, segments).Some?
    ensures Walk(dirs, at, segments) == Some(at[..|at| - Ups(segments)] + segments[Ups(segments)..])
    decreases |segments|
  {
    if Ups(segments) == 0 {
      NamesLead(dirs, at, segments);
      assert at[..|at|] == at && segments[0..] == segments;
    } else {
      TailIsClean(segments);
      CleanLead(dirs, at[..|at| - 1], segments[1..]);
      var n := Ups(segments);
      assert at[..|at| - 1][..|at| - n] == at[..|at| - n];
      assert segments[1..][n - 1..] == segments[n..];
    }
  }

  /** A name longer than any of these. */
  function Fresh(segments: seq<string>): string {
    seq(Weight(segments) + 3, _ => 'x')
  }

  lemma {:induction false} FreshIsNew(segments: seq<string>)
    ensures IsName(Fresh(segments)) && Fresh(segments) !in segments
  {
    assert |Fresh(segments)| >= 3;
    forall i | 0 <= i < |segments|
      ensures |segments[i]| < |Fresh(segments)|
    {
      assert segments == segments[..i] + ([segments[i]] + segments[i + 1..]);
      WeightOfConcat(segments[..i], [segments[i]] + segments[i + 1..]);
      assert Weight([segments[i]] + segments[i + 1..]) >= |segments[i]|;
    }
  }

  /** From deep below new names, different clean segments lead to different places. */
  lemma {:induction false} CleanDecides(unused: string, deep: nat, a: seq<string>, b: seq<string>)
    requires Clean(false, a) && Clean(false, b) && Ups(a) <= deep && Ups(b) <= deep
    requires unused !in a && unused !in b
    requires var at: Place := seq(deep, _ => unused);
             at[..deep - Ups(a)] + a[Ups(a)..] == at[..deep - Ups(b)] + b[Ups(b)..]
    ensures a == b
  {
    var at: Place := seq(deep, _ => unused);
    var x, y := at[..deep - Ups(a)] + a[Ups(a)..], at[..deep - Ups(b)] + b[Ups(b)..];
    if Ups(a) < Ups(b) {
      SideDiffers(unused, deep, a, b);
      assert false;
    } else if Ups(b) < Ups(a) {
      SideDiffers(unused, deep, b, a);
      assert false;
    }
    var n := Ups(a);
    UpsAt(false, a);
    UpsAt(false, b);
    assert x[deep - n..] == a[n..] && y[deep - n..] == b[n..];
    assert a[..n] == b[..n];
    assert a == a[..n] + a[n..] && b == b[..n] + b[n..];
  }

  lemma {:induction false} SideDiffers(unused: string, deep: nat, a: seq<string>, b: seq<string>)
    requires Ups(a) < Ups(b) <= deep && unused !in b
    ensures var at: Place := seq(deep, _ => unused);
            at[..deep - Ups(a)] + a[Ups(a)..] != at[..deep - Ups(b)] + b[Ups(b)..]
  {
    var at: Place := seq(deep, _ => unused);
    var x, y := at[..deep - Ups(a)] + a[Ups(a)..], at[..deep - Ups(b)] + b[Ups(b)..];
    var i := deep - Ups(b);
    assert x[i] == unused;
    if i < |y| {
      assert y[i] == b[Ups(b)];
    }
  }

  /** Where the start is deep enough to tell, or the root for an absolute path. */
  function Start(absolute: bool, a: seq<string>, b: seq<string>): Place {
    if absolute then [] else seq(Ups(a) + Ups(b), _ => Fresh(a + b))
  }

  lemma {:induction false} PlaceDecides(dirs: set<Place>, absolute: bool, a: seq<string>, b: seq<string>)
    requires Clean(absolute, a) && Clean(absolute, b)
    requires Walk(dirs, Start(absolute, a, b), a).Some?
    requires Walk(dirs, Start(absolute, a, b), a) == Walk(dirs, Start(absolute, a, b), b)
    ensures a == b
  {
    var at := Start(absolute, a, b);
    UpsAt(absolute, a);
    UpsAt(absolute, b);
    CleanLead(dirs, at, a);
    CleanLead(dirs, at, b);
    if absolute {
      assert a == [] + a[0..] && b == [] + b[0..];
    } else {
      var unused := Fresh(a + b);
      FreshIsNew(a + b);
      assert forall x <- a :: x in a + b;
      assert forall x <- b :: x in a + b;
      CleanDecides(unused, Ups(a) + Ups(b), a, b);
    }
  }

  lemma {:induction false} StartIsPlace(absolute: bool, a: seq<string>, b: seq<string>)
    ensures IsPlace(Start(absolute, a, b))
  {
    FreshIsNew(a + b);
  }

  /** When a kept segment is missing, some tree shows it. */
  lemma {:induction false} LossShows(path: string, size: nat) returns (dirs: set<Place>, start: Place)
    requires Normalized(path, size).Some? && Segments(path) != FullSegments(path)
    ensures IsTree(dirs) && start in dirs && Lookup(dirs, start, path).Some?
    ensures Lookup(dirs, start, Normalized(path, size).value) != Lookup(dirs, start, path)
  {
    var absolute, parts := Absolute(path), Split(path, '/');
    var kept, full := Segments(path), FullSegments(path);
    start := Start(absolute, full, kept);
    dirs := Visited(start, parts);
    JoinSplit(path, '/');
    StartIsPlace(absolute, full, kept);
    VisitedIsTree(start, parts);
    VisitedWalks(dirs, start, parts);
    FullFoldIsClean([], absolute, parts);
    FullFoldLeads(dirs, start, absolute, [], start, parts);
    SegmentsAreNormal(path);
    SegmentsOfText(absolute, kept);
    TextLeads(dirs, start, absolute, kept);
    if Walk(dirs, start, kept) == Walk(dirs, start, full) {
      PlaceDecides(dirs, absolute, full, kept);
      assert false;
    }
  }

  /**
   Normalisation is right exactly for a path in step: in every symlink-free tree and from every
   directory, a path that leads somewhere leads there after normalisation, if and only if no segment
   was dropped after the path was last at its start or at the lowest place.
   */
  lemma {:induction false} LeadsSameExactly(path: string, size: nat)
    requires Normalized(path, size).Some?
    ensures LeadsSame(path, Normalized(path, size).value) <==> InStep(Absolute(path), Split(path, '/'))
    ensures LeadsSame(path, Normalized(path, size).value) <==> Segments(path) == FullSegments(path)
  {
    var out := Normalized(path, size).value;
    SegmentsWhole(path);
    if Segments(path) == FullSegments(path) {
      forall dirs: set<Place>, start: Place | IsTree(dirs) && start in dirs && Lookup(dirs, start, path).Some?
        ensures Lookup(dirs, start, out) == Lookup(dirs, start, path)
      {
        WholeLeads(dirs, start, path, size);
      }
    } else {
      var dirs, start := LossShows(path, size);
    }
  }

  // ----- where the limit shows -----

  /** `n` directories, one in the other. */
  function Nested(name: string, n: nat): Place {
    seq(n, _ => name)
  }

  lemma {:induction false} NestedWeight(name: string, n: nat)
    ensures Weight(Nested(name, n)) == n * (|name| + 1)
    decreases n
  {
    if n > 0 {
      assert Nested(name, n)[1..] == Nested(name, n - 1);
      NestedWeight(name, n - 1);
    }
  }

  lemma {:induction false} NestedSegments(name: string, n: nat)
    requires IsName(name) && n > 0
    ensures var path := Join(Nested(name, n), '/');
            path != "" && !Absolute(path) && Split(path, '/') == Nested(name, n)
    ensures |Join(Nested(name, n), '/')| + 1 == n * (|name| + 1)
  {
    var parts := Nested(name, n);
    SplitJoin(parts, '/');
    JoinStarts(parts);
    WeightOfJoin(parts, '/');
    NestedWeight(name, n);
  }

  /** The 257th of nested directories is dropped. */
  lemma {:induction false} LastDropped(name: string)
    requires IsName(name)
    ensures Segments(Join(Nested(name, SEGMENTS + 1), '/')) == Nested(name, SEGMENTS)
  {
    var parts, kept := Nested(name, SEGMENTS + 1), Nested(name, SEGMENTS);
    NestedSegments(name, SEGMENTS + 1);
    assert parts == kept + [name];
    FoldConcat([], false, kept, [name]);
    FoldKeepsNormal([], false, kept);
    assert [] + kept == kept;
  }

  /** A path down 257 nested directories leads to the last one, and normalised to the one above it. */
  lemma {:induction false} LongPathEndsShort(name: string, size: nat)
    requires IsName(name) && 257 * (|name| + 1) <= 4096 <= size
    ensures var path, dirs := Join(Nested(name, 257), '/'), Above(Nested(name, 257));
            && IsTree(dirs) && [] in dirs && Normalized(path, size).Some?
            && Lookup(dirs, [], path) == Some(Nested(name, 257))
            && Lookup(dirs, [], Normalized(path, size).value) == Some(Nested(name, 256))
  {
    var path, dirs := Join(Nested(name, SEGMENTS + 1), '/'), Above(Nested(name, SEGMENTS + 1));
    NestedSegments(name, SEGMENTS + 1);
    NestedSegments(name, SEGMENTS);
    LastDropped(name);
    AboveIsTree(Nested(name, SEGMENTS + 1));
    NestedLead(name, SEGMENTS + 1, 0, SEGMENTS + 1);
    NestedLead(name, SEGMENTS + 1, 0, SEGMENTS);
    var kept := Join(Nested(name, SEGMENTS), '/');
    assert Text(false, Nested(name, SEGMENTS)) == "" + kept == kept;
    assert Normalized(path, size) == Some(kept);
  }

  lemma {:induction false} NestedLead(name: string, depth: nat, from: nat, n: nat)
    requires IsName(name) && from + n <= depth
    ensures Walk(Above(Nested(name, depth)), Nested(name, from), Nested(name, n)) == Some(Nested(name, from + n))
    decreases n
  {
    if n > 0 {
      var all := Nested(name, depth);
      assert Nested(name, from) + [name] == all[..from + 1] == Nested(name, from + 1);
      assert Nested(name, n)[1..] == Nested(name, n - 1);
      NestedLead(name, depth, from + 1, n - 1);
    }
  }

  /** A relative path resolved below a base leads where the path leads from the base's directory. */
  lemma {:induction false} ResolvedLeads(dirs: set<Place>, start: Place, base: string, path: string)
    requires base != "" && path != "" && !Absolute(path)
    requires Lookup(dirs, start, base).Some?
    ensures Lookup(dirs, start, base + "/" + path) == Lookup(dirs, Lookup(dirs, start, base).value, path)
  {
    var from := if Absolute(base) then [] else start;
    assert Absolute(base + "/" + path) == Absolute(base);
    SplitConcat(base, path);
    WalkConcat(dirs, from, Split(base, '/'), Split(path, '/'));
  }

  lemma {:induction false} SplitConcat(a: string, b: string)
    ensures Split(a + "/" + b, '/') == Split(a, '/') + Split(b, '/')
    decreases |a|
  {
    if a == [] {
      SplitCons('/', b);
      assert a + "/" + b == ['/'] + b;
    } else {
      SplitConcat(a[1..], b);
      assert a + "/" + b == [a[0]] + (a[1..] + "/" + b) && a == [a[0]] + a[1..];
      SplitCons(a[0], a[1..] + "/" + b);
      SplitCons(a[0], a[1..]);
      PrependToFirst(a[0], Split(a[1..], '/'), Split(b, '/'));
    }
  }

  function Prepended(x: char, parts: seq<string>): seq<string>
    requires parts != []
  {
    if x == '/' then [""] + parts else [[x] + parts[0]] + parts[1..]
  }

  lemma {:induction false} SplitCons(x: char, s: string)
    ensures Split([x] + s, '/') == Prepended(x, Split(s, '/'))
  {
    assert ([x] + s)[1..] == s;
  }

  lemma {:induction false} PrependToFirst(x: char, a: seq<string>, b: seq<string>)
    requires a != []
    ensures Prepended(x, a + b) == Prepended(x, a) + b
  {
    assert (a + b)[1..] == a[1..] + b;
  }
}
