/** Runtime update packages and their order. */
module UpdatePackage {
  // What the builder puts in a manifest, and how the updater turns it into a sorted plan.

  import opened Common
  import opened Strings
  import opened ManagedPaths
  import opened RuntimeDisk
  import opened RuntimeApply
  import Utf8

  const FORMAT_VERSION := 1
  const DEVICE_ID := "powkiddy-v90s"
  const ARCHITECTURE := "aarch64"
  const VENDOR_RUNTIME := "v90s-stockos-r1"

  /** `len(text.encode())` */
  function EncodedLength(text: string): nat {
    if text == "" then 0 else |Utf8.Encode(text[0] as int)| + EncodedLength(text[1..])
  }

  datatype Entry = Entry(path: Path, content: Content)
  {
    function Size(): nat {
      match content
      case File(data, _) => |data|
      case Symlink(target) => EncodedLength(target)
    }
  }

  datatype Manifest = Manifest(
    format: int,
    packageType: string,
    deviceId: string,
    architecture: string,
    vendorRuntime: string,
    sourceVersion: string,
    version: string,
    payloadBytes: int,
    files: seq<Entry>,
    delete: seq<Path>)

  // ----- order of operations -----

  function Rank(p: Path): int {
    if p in METADATA_LAST then 1 else 0
  }

  /** The order of `runtime_sort_key`. */
  predicate KeyLeq(a: PlannedOp, b: PlannedOp) {
    Rank(a.path) < Rank(b.path) || (Rank(a.path) == Rank(b.path) && StringLeq(a.path, b.path))
  }

  ghost predicate SortedOps(ops: seq<PlannedOp>) {
    forall i, j :: 0 <= i < j < |ops| ==> KeyLeq(ops[i], ops[j])
  }

  function InsertOp(o: PlannedOp, ops: seq<PlannedOp>): seq<PlannedOp>
    decreases |ops|
  {
    if ops == [] || KeyLeq(o, ops[0]) then [o] + ops
    else [ops[0]] + InsertOp(o, ops[1..])
  }

  function SortOps(ops: seq<PlannedOp>): seq<PlannedOp>
    decreases |ops|
  {
    if ops == [] then [] else InsertOp(ops[0], SortOps(ops[1..]))
  }

  lemma {:induction false} KeyLeqProperties(a: PlannedOp, b: PlannedOp, c: PlannedOp)
    ensures KeyLeq(a, b) || KeyLeq(b, a)
    ensures KeyLeq(a, b) && KeyLeq(b, c) ==> KeyLeq(a, c)
  {
    StringLeqTotal(a.path, b.path);
    if StringLeq(a.path, b.path) && StringLeq(b.path, c.path) {
      StringLeqTransitive(a.path, b.path, c.path);
    }
  }

  lemma {:induction false} PrependSorted(o: PlannedOp, ops: seq<PlannedOp>)
    requires SortedOps(ops) && forall j :: 0 <= j < |ops| ==> KeyLeq(o, ops[j])
    ensures SortedOps([o] + ops)
  {
  }

  lemma {:induction false} InsertSorted(o: PlannedOp, ops: seq<PlannedOp>)
    requires SortedOps(ops)
    ensures SortedOps(InsertOp(o, ops))
    ensures multiset(InsertOp(o, ops)) == multiset{o} + multiset(ops)
    decreases |ops|
  {
    if ops != [] {
      assert ops == [ops[0]] + ops[1..];
      if KeyLeq(o, ops[0]) {
        forall j | 0 <= j < |ops|
          ensures KeyLeq(o, ops[j])
        {
          KeyLeqProperties(o, ops[0], ops[j]);
        }
        PrependSorted(o, ops);
      } else {
        KeyLeqProperties(o, ops[0], o);
        InsertSorted(o, ops[1..]);
        var tail := InsertOp(o, ops[1..]);
        forall j | 0 <= j < |tail|
          ensures KeyLeq(ops[0], tail[j])
        {
          SameMembers(tail, o, ops[1..], j);
        }
        PrependSorted(ops[0], tail);
      }
    }
  }

  lemma {:induction false} SameMembers(r: seq<PlannedOp>, o: PlannedOp, ops: seq<PlannedOp>, j: nat)
    requires multiset(r) == multiset{o} + multiset(ops) && j < |r|
    ensures r[j] == o || exists i :: 0 <= i < |ops| && ops[i] == r[j]
  {
    assert r[j] in multiset(r);
    assert r[j] == o || r[j] in ops;
  }

  lemma {:induction false} HeadAndTail(ops: seq<PlannedOp>)
    requires ops != []
    ensures multiset(ops) == multiset{ops[0]} + multiset(ops[1..])
  {
    assert ops == [ops[0]] + ops[1..];
  }

  /** Sorting yields the same operations in key order. */
  lemma {:induction false} SortOpsSorts(ops: seq<PlannedOp>)
    ensures SortedOps(SortOps(ops))
    ensures multiset(SortOps(ops)) == multiset(ops)
    decreases |ops|
  {
    if ops != [] {
      SortOpsSorts(ops[1..]);
      InsertSorted(ops[0], SortOps(ops[1..]));
      HeadAndTail(ops);
    }
  }

  /** The plan by names: sorted, but VERSION, manifest.json and checksums.sha256 behind all others. */
  lemma {:induction false} PlanByNames(ops: seq<PlannedOp>, i: nat, j: nat)
    requires i < j < |SortOps(ops)|
    ensures var (first, second) := (SortOps(ops)[i].path, SortOps(ops)[j].path);
            var last := {"VERSION", "manifest.json", "checksums.sha256"};
            && (first in last ==> second in last)
            && (first in last || second !in last ==> StringLeq(first, second))
  {
    SortOpsSorts(ops);
    assert KeyLeq(SortOps(ops)[i], SortOps(ops)[j]);
  }

  lemma {:induction false} DistinctPermutation(a: seq<PlannedOp>, b: seq<PlannedOp>)
    requires multiset(a) == multiset(b) && DistinctPlan(a)
    ensures DistinctPlan(b)
  {
    forall i, j | 0 <= i < j < |b|
      ensures b[i].path != b[j].path
    {
      assert b[i] in multiset(b) && b[j] in multiset(b);
      var x :| 0 <= x < |a| && a[x] == b[i];
      var y :| 0 <= y < |a| && a[y] == b[j];
      if b[i].path == b[j].path {
        assert x == y;
        TwiceIsTwo(b, i, j);
        OnceIsOne(a, x);
        assert false;
      }
    }
  }

  lemma {:induction false} TwiceIsTwo(b: seq<PlannedOp>, i: nat, j: nat)
    requires i < j < |b| && b[i] == b[j]
    ensures multiset(b)[b[i]] >= 2
  {
    assert b == b[..j] + [b[j]] + b[j + 1..];
    assert b[..j] == b[..i] + [b[i]] + b[..j][i + 1..];
  }

  lemma {:induction false} OnceIsOne(a: seq<PlannedOp>, x: nat)
    requires x < |a| && DistinctPlan(a)
    ensures multiset(a)[a[x]] == 1
  {
    assert a == a[..x] + [a[x]] + a[x + 1..];
    assert a[x] !in a[..x] && a[x] !in a[x + 1..];
  }

  function FileOps(files: seq<Entry>): seq<PlannedOp> {
    seq(|files|, i requires 0 <= i < |files| => PlannedOp(files[i].path, true))
  }

  function DeleteOps(delete: seq<Path>): seq<PlannedOp> {
    seq(|delete|, i requires 0 <= i < |delete| => PlannedOp(delete[i], false))
  }

  /** The operations list of `apply_runtime`. */
  function PlanOps(m: Manifest): seq<PlannedOp> {
    SortOps(FileOps(m.files) + DeleteOps(m.delete))
  }

  /** The staging area as `extract_payload` leaves it. */
  function Payload(files: seq<Entry>): Tree
    decreases |files|
  {
    if files == [] then map[]
    else Payload(files[..|files| - 1])[files[|files| - 1].path := files[|files| - 1].content]
  }

  ghost predicate DistinctEntries(files: seq<Entry>) {
    forall i, j :: 0 <= i < j < |files| ==> files[i].path != files[j].path
  }

  lemma {:induction false} PayloadAt(files: seq<Entry>, i: nat)
    requires DistinctEntries(files) && i < |files|
    ensures Get(Payload(files), files[i].path) == Some(files[i].content)
    decreases |files|
  {
    if i < |files| - 1 {
      PayloadAt(files[..|files| - 1], i);
    }
  }

  // ----- the order the contract promises -----

  /** No step of the loop touches a path that is not in the plan. */
  lemma {:induction false} LoopOutside(d: Disk, base: Tree, ops: seq<PlannedOp>, k: nat, p: Path)
    requires Ready(d, base, ops) && k <= |LoopSteps(d, ops)|
    requires forall i :: 0 <= i < |ops| ==> ops[i].path != p
    ensures Get(Run(d, LoopSteps(d, ops)[..k]).live, p) == Get(d.live, p)
    decreases |ops|
  {
    hide Do;
    var steps := LoopSteps(d, ops);
    if k == 0 {
      assert steps[..k] == [];
    } else {
      var first := OpSteps(d, ops[0]);
      ReadyFirst(d, base, ops);
      if k <= |first| {
        assert steps[..k] == first[..k];
        OpCut(d, base, ops[0], k);
      } else {
        assert first[..|first|] == first;
        OpCut(d, base, ops[0], |first|);
        var d1 := Run(d, first);
        ReadyNext(d, base, ops, d1);
        var rest := LoopSteps(d1, ops[1..]);
        assert steps[..k] == first + rest[..k - |first|];
        RunConcat(d, first, rest[..k - |first|]);
        LoopOutside(d1, base, ops[1..], k - |first|, p);
      }
    }
  }

  ghost predicate MetadataUntouched(before: Tree, after: Tree) {
    forall p :: p in METADATA_LAST ==> Get(after, p) == Get(before, p)
  }

  ghost predicate RestFinal(after: Tree, final: Tree) {
    forall p :: p !in METADATA_LAST ==> Get(after, p) == Get(final, p)
  }

  lemma {:induction false} SortedRanks(ops: seq<PlannedOp>, i: nat)
    requires SortedOps(ops) && i < |ops| && ops[0].path in METADATA_LAST
    ensures ops[i].path in METADATA_LAST
  {
    assert i > 0 ==> KeyLeq(ops[0], ops[i]);
  }

  lemma {:induction false} OtherUntouched(d: Disk, base: Tree, o: PlannedOp, k: nat)
    requires Ready(d, base, [o]) && o.path !in METADATA_LAST && 0 < k <= |OpSteps(d, o)|
    ensures MetadataUntouched(d.live, Run(d, OpSteps(d, o)[..k]).live)
  {
    hide Do, Run;
    OpCut(d, base, o, k);
  }

  /** The loop goes on behind its first path. */
  lemma {:induction false} NextReady(d: Disk, base: Tree, ops: seq<PlannedOp>)
    requires Ready(d, base, ops) && ops != []
    ensures |OpSteps(d, ops[0])| > 0 && Ready(d, base, [ops[0]])
    ensures Ready(Run(d, OpSteps(d, ops[0])), base, ops[1..])
  {
    hide Do, Run;
    var first := OpSteps(d, ops[0]);
    ReadyFirst(d, base, ops);
    assert first[..|first|] == first;
    OpCut(d, base, ops[0], |first|);
    ReadyNext(d, base, ops, Run(d, first));
  }

  /** At every step, the metadata files are untouched or everything else is final. */
  lemma {:induction false} LoopMetadataLast(d: Disk, base: Tree, ops: seq<PlannedOp>, k: nat)
    requires Ready(d, base, ops) && SortedOps(ops) && k <= |LoopSteps(d, ops)|
    ensures var cut := Run(d, LoopSteps(d, ops)[..k]).live;
            MetadataUntouched(d.live, cut) || RestFinal(cut, Run(d, LoopSteps(d, ops)).live)
    decreases |ops|
  {
    hide Do, OpSteps;
    var steps := LoopSteps(d, ops);
    if k == 0 {
      assert steps[..k] == [];
    } else if ops[0].path in METADATA_LAST {
      MetadataFirst(d, base, ops, k);
    } else {
      var first := OpSteps(d, ops[0]);
      NextReady(d, base, ops);
      if k <= |first| {
        assert steps[..k] == first[..k];
        OtherUntouched(d, base, ops[0], k);
      } else {
        assert first[..|first|] == first;
        OtherUntouched(d, base, ops[0], |first|);
        var d1 := Run(d, first);
        LoopMetadataLast(d1, base, ops[1..], k - |first|);
        LoopSplit(d, ops, k);
      }
    }
  }

  /** A cut behind the first operation's steps. */
  lemma {:induction false} LoopSplit(d: Disk, ops: seq<PlannedOp>, k: nat)
    requires ops != [] && |OpSteps(d, ops[0])| <= k <= |LoopSteps(d, ops)|
    ensures var d1 := Run(d, OpSteps(d, ops[0]));
            var rest := LoopSteps(d1, ops[1..]);
            && k - |OpSteps(d, ops[0])| <= |rest|
            && Run(d, LoopSteps(d, ops)[..k]) == Run(d1, rest[..k - |OpSteps(d, ops[0])|])
            && Run(d, LoopSteps(d, ops)) == Run(d1, rest)
  {
    var first := OpSteps(d, ops[0]);
    var rest := LoopSteps(Run(d, first), ops[1..]);
    assert LoopSteps(d, ops)[..k] == first + rest[..k - |first|];
    RunConcat(d, first, rest[..k - |first|]);
    RunConcat(d, first, rest);
  }

  /** When the first operation is on a metadata file, so are all, and nothing else changes. */
  lemma {:induction false} MetadataFirst(d: Disk, base: Tree, ops: seq<PlannedOp>, k: nat)
    requires Ready(d, base, ops) && SortedOps(ops) && k <= |LoopSteps(d, ops)|
    requires ops != [] && ops[0].path in METADATA_LAST
    ensures RestFinal(Run(d, LoopSteps(d, ops)[..k]).live, Run(d, LoopSteps(d, ops)).live)
  {
    var steps := LoopSteps(d, ops);
    assert steps[..|steps|] == steps;
    forall p | p !in METADATA_LAST
      ensures Get(Run(d, steps[..k]).live, p) == Get(Run(d, steps).live, p)
    {
      forall i | 0 <= i < |ops|
        ensures ops[i].path != p
      {
        SortedRanks(ops, i);
      }
      LoopOutside(d, base, ops, k, p);
      LoopOutside(d, base, ops, |steps|, p);
    }
  }

  /**
   At every step of an apply: once any of VERSION, manifest.json and checksums.sha256 differs
   from the old tree, every other path already has its final content.
   */
  lemma {:induction false} MetadataCommittedLast(d: Disk, payload: Tree, m: Manifest, k: nat)
    requires Settled(d) && Applicable(payload, PlanOps(m)) && k <= |ApplySteps(d, payload, PlanOps(m))|
    ensures var cut := Run(d, ApplySteps(d, payload, PlanOps(m))[..k]).live;
            || (forall p :: p in {"VERSION", "manifest.json", "checksums.sha256"} ==> Get(cut, p) == Get(d.live, p))
            || (forall p :: p !in {"VERSION", "manifest.json", "checksums.sha256"} ==>
                  Get(cut, p) == Get(Patch(d.live, payload, PlanOps(m)), p))
  {
    var ops := PlanOps(m);
    var all := ApplySteps(d, payload, ops);
    ApplyCut(d, payload, ops, k);
    if 3 <= k < |all| - 2 {
      ApplyLoopCut(d, payload, ops, k);
      SortOpsSorts(FileOps(m.files) + DeleteOps(m.delete));
      PreparedReady(d, payload, ops);
      PrepareRuns(d, payload);
      LoopMetadataLast(Prepared(d, payload), d.live, ops, k - 3);
      LoopPatches(Prepared(d, payload), d.live, ops);
    }
  }

  /** An apply cut inside its loop is the prepared disk with the loop cut. */
  lemma {:induction false} ApplyLoopCut(d: Disk, payload: Tree, ops: seq<PlannedOp>, k: nat)
    requires Settled(d) && Applicable(payload, ops) && 3 <= k < |ApplySteps(d, payload, ops)| - 2
    ensures var loop := LoopSteps(Prepared(d, payload), ops);
            k - 3 <= |loop| && Run(d, ApplySteps(d, payload, ops)[..k]) == Run(Prepared(d, payload), loop[..k - 3])
  {
    ApplyStepsShape(d, payload, ops);
    var prepare := PrepareSteps(d, payload);
    var loop := LoopSteps(Prepared(d, payload), ops);
    PrepareRuns(d, payload);
    assert ApplySteps(d, payload, ops)[..k] == prepare + loop[..k - 3];
    RunConcat(d, prepare, loop[..k - 3]);
  }
}
