/** Which segments normalisation keeps, and which it should. */
module PathLimit {
  // The array of `normalize_path` holds 256 segments; one that finds it full is dropped. The folds
  // with and without that limit end with the same segments exactly when nothing was dropped since
  // the path was last as low as the array lets it be.

  import opened Strings
  import opened PathNormal

  // ----- the fold without a limit -----

  /** The segment is kept, as long as there is room. */
  predicate Pushes(stack: seq<string>, absolute: bool, part: string) {
    && part != "" && part != "."
    && (part == ".." ==> !absolute && (stack == [] || stack[|stack| - 1] == ".."))
  }

  function FullPush(stack: seq<string>, absolute: bool, part: string): seq<string> {
    if Pushes(stack, absolute, part) then stack + [part]
    else if part == ".." && stack != [] && stack[|stack| - 1] != ".." then stack[..|stack| - 1]
    else stack
  }

  function FullFold(stack: seq<string>, absolute: bool, parts: seq<string>): seq<string>
    decreases |parts|
  {
    if parts == [] then stack else FullFold(FullPush(stack, absolute, parts[0]), absolute, parts[1..])
  }

  function FullSegments(path: string): seq<string> {
    FullFold([], Absolute(path), Split(path, '/'))
  }

  /** No segment that is to be kept finds 256 kept ones. */
  predicate Fits(stack: seq<string>, absolute: bool, parts: seq<string>)
    decreases |parts|
  {
    parts == []
    || ((Pushes(stack, absolute, parts[0]) ==> |stack| < SEGMENTS)
        && Fits(FullPush(stack, absolute, parts[0]), absolute, parts[1..]))
  }

  /** As low as the array lets a path be: at the root, or 256 levels above the start. */
  predicate Lowest(absolute: bool, stack: seq<string>) {
    if absolute then stack == [] else stack == seq(SEGMENTS, _ => "..")
  }

  /** The first `k` parts lead to the start or to the lowest place, and from there nothing is dropped. */
  predicate FitsFrom(absolute: bool, parts: seq<string>, k: nat)
    requires k <= |parts|
  {
    && (k == 0 || Lowest(absolute, FullFold([], absolute, parts[..k])))
    && Fits(FullFold([], absolute, parts[..k]), absolute, parts[k..])
  }

  /** Nothing is dropped after the path is last at its start or at the lowest place. */
  predicate InStep(absolute: bool, parts: seq<string>) {
    exists k :: 0 <= k <= |parts| && FitsFrom(absolute, parts, k)
  }

  /** Names in the parts of a split path. */
  predicate SlashFree(parts: seq<string>) {
    forall i :: 0 <= i < |parts| ==> '/' !in parts[i]
  }

  lemma {:induction false} FullFoldIsClean(stack: seq<string>, absolute: bool, parts: seq<string>)
    requires Clean(absolute, stack) && SlashFree(parts)
    ensures Clean(absolute, FullFold(stack, absolute, parts))
    decreases |parts|
  {
    if parts != [] {
      FullFoldIsClean(FullPush(stack, absolute, parts[0]), absolute, parts[1..]);
    }
  }

  /** While nothing is dropped, the two folds agree. */
  lemma {:induction false} FoldsAgree(stack: seq<string>, absolute: bool, parts: seq<string>)
    requires Normal(absolute, stack) && SlashFree(parts) && Fits(stack, absolute, parts)
    ensures Fold(stack, absolute, parts) == FullFold(stack, absolute, parts)
    decreases |parts|
  {
    if parts != [] {
      PushIsNormal(stack, absolute, parts[0]);
      assert Push(stack, absolute, parts[0]) == FullPush(stack, absolute, parts[0]);
      FoldsAgree(Push(stack, absolute, parts[0]), absolute, parts[1..]);
    }
  }

  lemma {:induction false} FoldConcat(stack: seq<string>, absolute: bool, a: seq<string>, b: seq<string>)
    ensures Fold(stack, absolute, a + b) == Fold(Fold(stack, absolute, a), absolute, b)
    decreases |a|
  {
    if a == [] {
      assert a + b == b;
    } else {
      assert (a + b)[1..] == a[1..] + b;
      FoldConcat(Push(stack, absolute, a[0]), absolute, a[1..], b);
    }
  }

  lemma {:induction false} FullFoldConcat(stack: seq<string>, absolute: bool, a: seq<string>, b: seq<string>)
    ensures FullFold(stack, absolute, a + b) == FullFold(FullFold(stack, absolute, a), absolute, b)
    decreases |a|
  {
    if a == [] {
      assert a + b == b;
    } else {
      assert (a + b)[1..] == a[1..] + b;
      FullFoldConcat(FullPush(stack, absolute, a[0]), absolute, a[1..], b);
    }
  }

  lemma {:induction false} FitsSnoc(stack: seq<string>, absolute: bool, parts: seq<string>, part: string)
    requires Fits(stack, absolute, parts)
    requires Pushes(FullFold(stack, absolute, parts), absolute, part) ==> |FullFold(stack, absolute, parts)| < SEGMENTS
    ensures Fits(stack, absolute, parts + [part])
    decreases |parts|
  {
    if parts == [] {
      assert (parts + [part])[1..] == [];
    } else {
      assert (parts + [part])[1..] == parts[1..] + [part];
      FitsSnoc(FullPush(stack, absolute, parts[0]), absolute, parts[1..], part);
    }
  }

  // ----- when the folds agree in the end -----

  /** Leading ".." segments. */
  function Ups(segments: seq<string>): nat
    ensures Ups(segments) <= |segments|
  {
    if segments == [] || segments[0] != ".." then 0 else 1 + Ups(segments[1..])
  }

  function Names(segments: seq<string>): nat {
    |segments| - Ups(segments)
  }

  /** In clean segments, ".." is exactly the leading run. */
  lemma {:induction false} UpsAt(absolute: bool, segments: seq<string>)
    requires Clean(absolute, segments)
    ensures forall i :: 0 <= i < |segments| ==> (segments[i] == ".." <==> i < Ups(segments))
    ensures absolute ==> Ups(segments) == 0
    decreases |segments|
  {
    if segments != [] {
      var tail := segments[1..];
      forall i | 0 < i < |tail| && tail[i] == ".."
        ensures tail[i - 1] == ".."
      {
        assert tail[i] == segments[i + 1];
      }
      UpsAt(absolute, tail);
      assert tail != [] ==> tail[0] == segments[1];
      forall i | 0 <= i < |segments|
        ensures segments[i] == ".." <==> i < Ups(segments)
      {
        if i > 0 {
          assert segments[i] == tail[i - 1];
        }
      }
    }
  }

  lemma {:induction false} UpsSnoc(segments: seq<string>, part: string)
    ensures Ups(segments + [part]) ==
            Ups(segments) + if part == ".." && Ups(segments) == |segments| then 1 else 0
    decreases |segments|
  {
    if segments == [] {
      assert ([] + [part])[1..] == [];
    } else {
      assert (segments + [part])[1..] == segments[1..] + [part];
      if segments[0] == ".." {
        UpsSnoc(segments[1..], part);
      }
    }
  }

  lemma {:induction false} UpsInit(segments: seq<string>)
    requires segments != []
    ensures Ups(segments) == Ups(segments[..|segments| - 1])
                             + if Ups(segments) == |segments| then 1 else 0
  {
    var n := |segments| - 1;
    assert segments[..n] + [segments[n]] == segments;
    UpsSnoc(segments[..n], segments[n]);
  }

  /** How many levels up and down a stack is after one part more. */
  lemma {:induction false} Counts(stack: seq<string>, absolute: bool, part: string)
    requires Clean(absolute, stack)
    ensures var full := FullPush(stack, absolute, part);
            if part == "" || part == "." then full == stack
            else if part != ".." then Ups(full) == Ups(stack) && Names(full) == Names(stack) + 1
            else if Names(stack) > 0 then Ups(full) == Ups(stack) && Names(full) == Names(stack) - 1
            else if absolute then full == stack
            else Ups(full) == Ups(stack) + 1 && Names(full) == 0
    ensures Pushes(stack, absolute, part) <==>
              part != "" && part != "." && (part == ".." ==> !absolute && Names(stack) == 0)
  {
    UpsAt(absolute, stack);
    UpsSnoc(stack, part);
    if stack != [] {
      UpsInit(stack);
      assert stack[|stack| - 1] == ".." <==> Ups(stack) == |stack|;
    }
  }

  lemma {:induction false} BoundedPush(stack: seq<string>, absolute: bool, part: string)
    requires |stack| <= SEGMENTS && Clean(absolute, stack)
    ensures Push(stack, absolute, part) ==
            if Pushes(stack, absolute, part) && |stack| == SEGMENTS then stack else FullPush(stack, absolute, part)
  {
  }

  /** What holds of the segments kept within the limit and without it, however many were dropped. */
  ghost predicate Near(kept: seq<string>, full: seq<string>) {
    && |kept| <= SEGMENTS
    && Names(kept) <= Names(full)
    && (Ups(kept) >= Ups(full) || Ups(kept) == SEGMENTS)
  }

  /** The two have come apart, and not found together again. */
  ghost predicate Apart(kept: seq<string>, full: seq<string>) {
    Names(kept) < Names(full) || Ups(kept) > Ups(full) || Ups(full) > SEGMENTS
  }

  lemma {:induction false} ApartDiffer(kept: seq<string>, full: seq<string>)
    requires Apart(kept, full) && |kept| <= SEGMENTS
    ensures kept != full
  {
  }

  /** One part more keeps `Near`. */
  lemma {:induction false} NearNext(kept: seq<string>, full: seq<string>, absolute: bool, part: string)
    requires Clean(absolute, kept) && Clean(absolute, full) && Near(kept, full)
    ensures Near(Push(kept, absolute, part), FullPush(full, absolute, part))
  {
    UpsAt(absolute, kept);
    UpsAt(absolute, full);
    Counts(kept, absolute, part);
    Counts(full, absolute, part);
    BoundedPush(kept, absolute, part);
  }

  /** Segments that have come apart stay so, or meet at the lowest place. */
  lemma {:induction false} ApartNext(kept: seq<string>, full: seq<string>, absolute: bool, part: string)
    requires Clean(absolute, kept) && Clean(absolute, full) && Near(kept, full) && Apart(kept, full)
    ensures var full' := FullPush(full, absolute, part);
            Apart(Push(kept, absolute, part), full')
            || (Names(full') == 0 && Ups(full') == if absolute then 0 else SEGMENTS)
  {
    UpsAt(absolute, kept);
    UpsAt(absolute, full);
    Counts(kept, absolute, part);
    Counts(full, absolute, part);
    BoundedPush(kept, absolute, part);
  }

  /** A segment that finds no room takes the two apart. */
  lemma {:induction false} DropParts(stack: seq<string>, absolute: bool, part: string)
    requires Normal(absolute, stack) && Pushes(stack, absolute, part) && |stack| == SEGMENTS
    ensures Apart(Push(stack, absolute, part), FullPush(stack, absolute, part))
  {
    Counts(stack, absolute, part);
    BoundedPush(stack, absolute, part);
  }

  /** Nothing but ".." segments. */
  lemma {:induction false} OnlyUps(absolute: bool, stack: seq<string>)
    requires Clean(absolute, stack) && Names(stack) == 0
    ensures stack == seq(|stack|, _ => "..")
    ensures Ups(stack) == (if absolute then 0 else SEGMENTS) ==> Lowest(absolute, stack)
  {
    UpsAt(absolute, stack);
  }

  /** At the lowest place the kept segments are the same. */
  lemma {:induction false} MeetLowest(absolute: bool, kept: seq<string>, full: seq<string>)
    requires Clean(absolute, kept) && Clean(absolute, full) && Near(kept, full) && Lowest(absolute, full)
    ensures kept == full
  {
    UpsAt(absolute, kept);
    UpsAt(absolute, full);
    if !absolute {
      assert full[SEGMENTS - 1] == "..";
      assert Ups(full) == SEGMENTS;
      OnlyUps(absolute, kept);
    }
  }

  /** The folds are in step or apart. */
  lemma {:induction false} InStepOrApart(absolute: bool, parts: seq<string>)
    requires SlashFree(parts)
    ensures Clean(absolute, Fold([], absolute, parts)) && Clean(absolute, FullFold([], absolute, parts))
    ensures InStep(absolute, parts) || Apart(Fold([], absolute, parts), FullFold([], absolute, parts))
    decreases |parts|
  {
    FoldIsNormal([], absolute, parts);
    FullFoldIsClean([], absolute, parts);
    if parts == [] {
      assert FitsFrom(absolute, parts, 0);
    } else {
      var n := |parts| - 1;
      var init, last := parts[..n], parts[n];
      InStepOrApart(absolute, init);
      NearAlways(absolute, init);
      assert parts == init + [last];
      FoldConcat([], absolute, init, [last]);
      FullFoldConcat([], absolute, init, [last]);
      NextPart(absolute, init, last);
    }
  }

  lemma {:induction false} NextPart(absolute: bool, init: seq<string>, last: string)
    requires SlashFree(init + [last]) && SlashFree(init)
    requires var kept, full := Fold([], absolute, init), FullFold([], absolute, init);
             && Clean(absolute, kept) && Clean(absolute, full) && Near(kept, full)
             && (InStep(absolute, init) || Apart(kept, full))
    ensures InStep(absolute, init + [last])
            || Apart(Push(Fold([], absolute, init), absolute, last),
                     FullPush(FullFold([], absolute, init), absolute, last))
  {
    var kept, full := Fold([], absolute, init), FullFold([], absolute, init);
    if Apart(kept, full) {
      ApartNext(kept, full, absolute, last);
      if !Apart(Push(kept, absolute, last), FullPush(full, absolute, last)) {
        BackInStep(absolute, init, last);
      }
    } else {
      var k :| 0 <= k <= |init| && FitsFrom(absolute, init, k);
      InStepAgrees(absolute, init, k);
      if Pushes(full, absolute, last) && |full| >= SEGMENTS {
        DropParts(full, absolute, last);
      } else {
        StaysInStep(absolute, init, last, k);
      }
    }
  }

  lemma {:induction false} BackInStep(absolute: bool, init: seq<string>, last: string)
    requires SlashFree(init + [last]) && SlashFree(init)
    requires var full := FullPush(FullFold([], absolute, init), absolute, last);
             Names(full) == 0 && Ups(full) == if absolute then 0 else SEGMENTS
    ensures InStep(absolute, init + [last])
  {
    var all := init + [last];
    FullFoldConcat([], absolute, init, [last]);
    FullFoldIsClean([], absolute, all);
    OnlyUps(absolute, FullFold([], absolute, all));
    assert all[..|all|] == all && all[|all|..] == [];
    assert FitsFrom(absolute, all, |all|);
  }

  lemma {:induction false} StaysInStep(absolute: bool, init: seq<string>, last: string, k: nat)
    requires k <= |init| && FitsFrom(absolute, init, k)
    requires var full := FullFold([], absolute, init); Pushes(full, absolute, last) ==> |full| < SEGMENTS
    ensures InStep(absolute, init + [last])
  {
    var all, from := init + [last], FullFold([], absolute, init[..k]);
    assert init == init[..k] + init[k..];
    FullFoldConcat([], absolute, init[..k], init[k..]);
    assert all[..k] == init[..k] && all[k..] == init[k..] + [last];
    FitsSnoc(from, absolute, init[k..], last);
    assert FitsFrom(absolute, all, k);
  }

  /** In step, the two folds agree. */
  lemma {:induction false} InStepAgrees(absolute: bool, parts: seq<string>, k: nat)
    requires SlashFree(parts) && k <= |parts| && FitsFrom(absolute, parts, k)
    ensures Fold([], absolute, parts) == FullFold([], absolute, parts)
    decreases |parts|, 0
  {
    var before, after := parts[..k], parts[k..];
    assert parts == before + after;
    FoldConcat([], absolute, before, after);
    FullFoldConcat([], absolute, before, after);
    FoldIsNormal([], absolute, before);
    if k > 0 {
      FullFoldIsClean([], absolute, before);
      NearAlways(absolute, before);
      MeetLowest(absolute, Fold([], absolute, before), FullFold([], absolute, before));
    }
    FoldsAgree(Fold([], absolute, before), absolute, after);
  }

  lemma {:induction false} NearAlways(absolute: bool, parts: seq<string>)
    requires SlashFree(parts)
    ensures Near(Fold([], absolute, parts), FullFold([], absolute, parts))
    decreases |parts|
  {
    if parts != [] {
      var n := |parts| - 1;
      assert parts == parts[..n] + [parts[n]];
      FoldConcat([], absolute, parts[..n], [parts[n]]);
      FullFoldConcat([], absolute, parts[..n], [parts[n]]);
      FoldIsNormal([], absolute, parts[..n]);
      FullFoldIsClean([], absolute, parts[..n]);
      NearAlways(absolute, parts[..n]);
      NearNext(Fold([], absolute, parts[..n]), FullFold([], absolute, parts[..n]), absolute, parts[n]);
    }
  }

  /** The kept segments are those of the fold without a limit exactly when the path is in step. */
  lemma {:induction false} SegmentsWhole(path: string)
    ensures Segments(path) == FullSegments(path) <==> InStep(Absolute(path), Split(path, '/'))
  {
    var absolute, parts := Absolute(path), Split(path, '/');
    JoinSplit(path, '/');
    InStepOrApart(absolute, parts);
    if InStep(absolute, parts) {
      var k :| 0 <= k <= |parts| && FitsFrom(absolute, parts, k);
      InStepAgrees(absolute, parts, k);
    } else {
      FoldIsNormal([], absolute, parts);
      ApartDiffer(Segments(path), FullSegments(path));
    }
  }

  /** Segments that count towards the limit. */
  function Counted(parts: seq<string>): nat
    decreases |parts|
  {
    if parts == [] then 0 else (if parts[0] == "" || parts[0] == "." then 0 else 1) + Counted(parts[1..])
  }

  /** At most 256 counted segments: nothing can be dropped. */
  lemma {:induction false} FewFit(stack: seq<string>, absolute: bool, parts: seq<string>)
    requires |stack| + Counted(parts) <= SEGMENTS
    ensures Fits(stack, absolute, parts)
    decreases |parts|
  {
    if parts != [] {
      FewFit(FullPush(stack, absolute, parts[0]), absolute, parts[1..]);
    }
  }

  /** The counted segments are those that are neither empty nor ".". */
  lemma {:induction false} CountedAre(parts: seq<string>)
    ensures multiset(parts)[""] + multiset(parts)["."] + Counted(parts) == |parts|
    decreases |parts|
  {
    if parts != [] {
      assert parts == [parts[0]] + parts[1..];
      CountedAre(parts[1..]);
    }
  }

  /** A path of at most 256 segments, empty ones and "." aside, is in step. */
  lemma {:induction false} ShortPathInStep(path: string)
    requires var parts := multiset(Split(path, '/')); |parts| <= 256 + parts[""] + parts["."]
    ensures InStep(Absolute(path), Split(path, '/'))
  {
    var parts := Split(path, '/');
    CountedAre(parts);
    assert parts[..0] == [] && parts[0..] == parts;
    FewFit([], Absolute(path), parts);
    assert FitsFrom(Absolute(path), parts, 0);
  }
}
