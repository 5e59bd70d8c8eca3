/** Patching LCD timing cells inside a flattened devicetree. */
module DeviceTree {
  // The walk over the structure block, the cells it overwrites while walking, and what a second
  // walk then sees.

  import opened Common

  type Byte = b: int | 0 <= b < 256
  type Name = seq<Byte>

  const MAGIC: int := 0xD00DFEED
  const CELLS: int := 0x1_0000_0000

  /** One step of the walk over the structure block. */
  datatype Item =
    | Begin(at: nat, name: Name)
    | End(at: nat)
    | Prop(at: nat, path: seq<Name>, name: Name, length: nat, value: nat)
    | Nop(at: nat)
    | Finish(at: nat)

  datatype Header = Header(
    structStart: nat,
    structEnd: nat,
    stringsStart: nat,
    stringsEnd: nat)

  function Number(a: int, b: int, c: int, d: int): int {
    a * 0x1000000 + b * 0x10000 + c * 0x100 + d
  }

  /** The big-endian cell at `p`. */
  function Cell(b: seq<Byte>, p: nat): nat
    requires p + 4 <= |b|
  {
    Number(b[p], b[p + 1], b[p + 2], b[p + 3])
  }

  function Align4(n: nat): (r: nat)
    ensures n <= r < n + 4 && r % 4 == 0
  {
    (n + 3) / 4 * 4
  }

  /** The first zero byte in `[from, limit)`. */
  function FindZero(b: seq<Byte>, from: nat, limit: nat): (r: Option<nat>)
    ensures r.Some? ==> from <= r.value < limit && r.value < |b| && b[r.value] == 0
    ensures r.Some? ==> forall i :: from <= i < r.value ==> b[i] != 0
    decreases |b| - from
  {
    if from >= limit || from >= |b| then None
    else if b[from] == 0 then Some(from)
    else FindZero(b, from + 1, limit)
  }

  /** `c_string`: the ASCII name that starts at `from`. */
  function CString(b: seq<Byte>, from: nat, limit: nat): (r: Option<Name>)
    ensures r.Some? ==> from + |r.value| < limit && from + |r.value| < |b|
  {
    match FindZero(b, from, limit)
    case None => None
    case Some(end) =>
      if forall i :: from <= i < end ==> b[i] < 128 then Some(b[from..end]) else None
  }

  /** `parse_fdt_header` and the range checks that follow it. */
  function ParseHeader(b: seq<Byte>): (r: Option<Header>)
    ensures r.Some? ==> r.value.structStart <= r.value.structEnd <= |b|
    ensures r.Some? ==> r.value.stringsStart <= r.value.stringsEnd <= |b|
  {
    if |b| < 40 then None
    else HeaderOf(|b|, Cell(b, 0), Cell(b, 4), Cell(b, 8), Cell(b, 12), Cell(b, 32), Cell(b, 36))
  }

  function HeaderOf(size: nat, magic: nat, total: nat, structAt: nat, stringsAt: nat, stringsSize: nat,
                    structSize: nat): (r: Option<Header>)
    ensures r.Some? ==> r.value.structStart <= r.value.structEnd <= size
    ensures r.Some? ==> r.value.stringsStart <= r.value.stringsEnd <= size
  {
    if magic != MAGIC || total > size || structAt + structSize > total || stringsAt + stringsSize > total then None
    else Some(Header(structAt, structAt + structSize, stringsAt, stringsAt + stringsSize))
  }

  /** `fdt_path`: the nonempty names of the open nodes. */
  function Path(stack: seq<Name>): seq<Name> {
    if stack == [] then []
    else Path(stack[..|stack| - 1]) + (if stack[|stack| - 1] == [] then [] else [stack[|stack| - 1]])
  }

  function Then(items: seq<Item>, rest: Option<seq<Item>>): Option<seq<Item>> {
    if rest.Some? then Some(items + rest.value) else None
  }

  /** The token at `pos`, the place of the next one and the open nodes after it. */
  function Next(b: seq<Byte>, strings: seq<Byte>, end: nat, pos: nat, stack: seq<Name>): (r: Option<(Item, nat, seq<Name>)>)
    ensures r.Some? ==> r.value.1 >= pos + 4
    ensures r.Some? && r.value.0.Prop? ==>
      r.value.0.value == pos + 12 && r.value.1 == Align4(pos + 12 + r.value.0.length)
  {
    if pos + 4 > |b| then None
    else
      match Cell(b, pos)
      case 1 =>
        (match CString(b, pos + 4, end)
         case None => None
         case Some(name) => Some((Begin(pos, name), Align4(pos + 4 + |name| + 1), stack + [name])))
      case 2 =>
        Some((End(pos), pos + 4, if stack == [] then [] else stack[..|stack| - 1]))
      case 3 =>
        if pos + 12 > |b| || Cell(b, pos + 8) >= |strings| then None
        else
          (match CString(strings, Cell(b, pos + 8), |strings|)
           case None => None
           case Some(name) =>
             var length := Cell(b, pos + 4);
             Some((Prop(pos, Path(stack), name, length, pos + 12), Align4(pos + 12 + length), stack)))
      case 4 => Some((Nop(pos), pos + 4, stack))
      case 9 => Some((Finish(pos), pos + 4, stack))
      case _ => None
  }

  /** All tokens from `pos` on; nothing when the walk fails. */
  function Walk(b: seq<Byte>, strings: seq<Byte>, end: nat, pos: nat, stack: seq<Name>): Option<seq<Item>>
    decreases end - pos
  {
    if pos >= end then Some([])
    else
      match Next(b, strings, end, pos, stack)
      case None => None
      case Some(t) =>
        if t.0.Finish? then Some([t.0]) else Then([t.0], Walk(b, strings, end, t.1, t.2))
  }

  /** The walk over a whole blob. */
  function Items(b: seq<Byte>): Option<seq<Item>> {
    match ParseHeader(b)
    case None => None
    case Some(h) => Walk(b, b[h.stringsStart..h.stringsEnd], h.structEnd, h.structStart, [])
  }

  /** The cells to write. */
  predicate Touched(item: Item, requested: map<Name, int>) {
    item.Prop? && item.name in requested
  }

  predicate InCell(item: Item, requested: map<Name, int>, i: nat) {
    Touched(item, requested) && item.value <= i < item.value + 4
  }

  predicate InCells(items: seq<Item>, requested: map<Name, int>, i: nat) {
    exists k :: 0 <= k < |items| && InCell(items[k], requested, i)
  }

  /** The checks on one property before its cell is written. */
  predicate ItemOk(b: seq<Byte>, item: Item, requested: map<Name, int>, expected: map<Name, int>) {
    Touched(item, requested) ==>
      && item.length == 4
      && item.value + 4 <= |b|
      && (item.name in expected ==> Cell(b, item.value) == expected[item.name])
      && 0 <= requested[item.name] < CELLS
  }

  predicate ItemsOk(b: seq<Byte>, items: seq<Item>, requested: map<Name, int>, expected: map<Name, int>) {
    forall k :: 0 <= k < |items| ==> ItemOk(b, items[k], requested, expected)
  }

  predicate Seen(items: seq<Item>, name: Name) {
    exists k :: 0 <= k < |items| && items[k].Prop? && items[k].name == name
  }

  /** The patch goes through: the blob walks, every cell may be written and none is missing. */
  predicate Patchable(b: seq<Byte>, requested: map<Name, int>, expected: map<Name, int>) {
    && Items(b).Some?
    && ItemsOk(b, Items(b).value, requested, expected)
    && (forall name <- requested :: Seen(Items(b).value, name))
  }

  /** Every requested cell holds its value, and no other byte differs. */
  predicate PatchedBy(b: seq<Byte>, after: seq<Byte>, items: seq<Item>, requested: map<Name, int>) {
    && |after| == |b|
    && (forall k :: 0 <= k < |items| && Touched(items[k], requested) ==>
          items[k].value + 4 <= |b| && Cell(after, items[k].value) == requested[items[k].name])
    && (forall i :: 0 <= i < |b| && !InCells(items, requested, i) ==> after[i] == b[i])
  }

  datatype Patch = Patch(path: seq<Name>, name: Name, oldValue: nat, newValue: int)

  /** What the patch reports: the written properties in walk order. */
  ghost function Report(b: seq<Byte>, items: seq<Item>, requested: map<Name, int>): seq<Patch>
    requires ItemsOk(b, items, requested, map[])
  {
    if items == [] then []
    else
      var item := items[|items| - 1];
      var before := Report(b, items[..|items| - 1], requested);
      if Touched(item, requested)
      then before + [Patch(item.path, item.name, Cell(b, item.value), requested[item.name])]
      else before
  }

  ghost predicate Reported(b: seq<Byte>, report: seq<Patch>, requested: map<Name, int>) {
    && Items(b).Some? && ItemsOk(b, Items(b).value, requested, map[])
    && report == Report(b, Items(b).value, requested)
  }

  /** Writes one big-endian cell. */
  method WriteCell(dtb: array<Byte>, p: nat, value: nat)
    requires p + 4 <= dtb.Length && value < CELLS
    modifies dtb
    ensures Cell(dtb[..], p) == value
    ensures forall i :: 0 <= i < dtb.Length && !(p <= i < p + 4) ==> dtb[i] == old(dtb[i])
  {
    var high, low := value / 0x10000, value % 0x10000;
    BytesOfCell(value);
    dtb[p], dtb[p + 1] := high / 0x100, high % 0x100;
    dtb[p + 2], dtb[p + 3] := low / 0x100, low % 0x100;
  }

  lemma {:induction false} BytesOfCell(value: nat)
    requires value < CELLS
    ensures 0 <= value / 0x10000 < 0x10000 && 0 <= value % 0x10000 < 0x10000
    ensures Number(value / 0x10000 / 0x100, value / 0x10000 % 0x100, value % 0x10000 / 0x100, value % 0x10000 % 0x100) == value
  {
    TwoBytes(value / 0x10000);
    TwoBytes(value % 0x10000);
  }

  lemma {:induction false} TwoBytes(half: nat)
    ensures half / 0x100 * 0x100 + half % 0x100 == half
  {
  }

  /** All written cells lie before `pos`, where the walk has got to. */
  predicate Behind(items: seq<Item>, requested: map<Name, int>, pos: nat) {
    forall k :: 0 <= k < |items| && Touched(items[k], requested) ==> items[k].value + 4 <= pos
  }

  lemma {:induction false} WriteOne(b: seq<Byte>, before: seq<Byte>, after: seq<Byte>, items: seq<Item>, item: Item,
                                    requested: map<Name, int>, pos: nat)
    requires PatchedBy(b, before, items, requested) && Behind(items, requested, pos)
    requires Touched(item, requested) && pos <= item.value && item.value + 4 <= |b| == |after|
    requires Cell(after, item.value) == requested[item.name]
    requires forall i :: 0 <= i < |b| && !(item.value <= i < item.value + 4) ==> after[i] == before[i]
    ensures PatchedBy(b, after, items + [item], requested)
  {
    var all := items + [item];
    forall k | 0 <= k < |all| && Touched(all[k], requested)
      ensures all[k].value + 4 <= |b| && Cell(after, all[k].value) == requested[all[k].name]
    {
      if k < |items| {
        assert all[k] == items[k];
      }
    }
    forall i | 0 <= i < |b| && !InCells(all, requested, i)
      ensures after[i] == b[i]
    {
      NotInPart(items, item, requested, i);
    }
  }

  lemma {:induction false} NotInPart(items: seq<Item>, item: Item, requested: map<Name, int>, i: nat)
    requires !InCells(items + [item], requested, i)
    ensures !InCells(items, requested, i) && !InCell(item, requested, i)
  {
    var all := items + [item];
    assert all[|items|] == item;
    forall k | 0 <= k < |items|
      ensures !InCell(items[k], requested, i)
    {
      assert all[k] == items[k];
    }
  }

  lemma {:induction false} SkipOne(b: seq<Byte>, after: seq<Byte>, items: seq<Item>, item: Item,
                                   requested: map<Name, int>)
    requires PatchedBy(b, after, items, requested) && !Touched(item, requested)
    ensures PatchedBy(b, after, items + [item], requested)
  {
    var all := items + [item];
    forall i | 0 <= i < |b| && !InCells(all, requested, i)
      ensures after[i] == b[i]
    {
      NotInPart(items, item, requested, i);
    }
  }

  /** The next token is read from bytes at `pos` or later, so cells written before it do not matter. */
  lemma {:induction false} NextAhead(b: seq<Byte>, c: seq<Byte>, strings: seq<Byte>, end: nat, pos: nat,
                                     stack: seq<Name>)
    requires |b| == |c| && forall i :: pos <= i < |b| ==> b[i] == c[i]
    ensures Next(b, strings, end, pos, stack) == Next(c, strings, end, pos, stack)
  {
    if pos + 4 <= |b| {
      CellAhead(b, c, pos);
      NameAhead(b, c, pos + 4, end);
      if pos + 12 <= |b| {
        CellAhead(b, c, pos + 4);
        CellAhead(b, c, pos + 8);
      }
    }
  }

  lemma {:induction false} CellAhead(b: seq<Byte>, c: seq<Byte>, p: nat)
    requires p + 4 <= |b| == |c| && forall i :: p <= i < |b| ==> b[i] == c[i]
    ensures Cell(b, p) == Cell(c, p)
  {
  }

  lemma {:induction false} NameAhead(b: seq<Byte>, c: seq<Byte>, from: nat, limit: nat)
    requires |b| == |c| && forall i :: from <= i < |b| ==> b[i] == c[i]
    ensures CString(b, from, limit) == CString(c, from, limit)
  {
    FindZeroAhead(b, c, from, limit);
    var e := FindZero(b, from, limit);
    if e.Some? {
      assert b[from..e.value] == c[from..e.value];
    }
  }

  lemma {:induction false} FindZeroAhead(b: seq<Byte>, c: seq<Byte>, from: nat, limit: nat)
    requires |b| == |c| && forall i :: from <= i < |b| ==> b[i] == c[i]
    ensures FindZero(b, from, limit) == FindZero(c, from, limit)
    decreases |b| - from
  {
    if from < limit && from < |b| && b[from] != 0 {
      FindZeroAhead(b, c, from + 1, limit);
    }
  }

  lemma {:induction false} ThenThen(a: seq<Item>, item: Item, rest: Option<seq<Item>>)
    ensures Then(a, Then([item], rest)) == Then(a + [item], rest)
  {
    if rest.Some? {
      assert a + ([item] + rest.value) == a + [item] + rest.value;
    }
  }

  /** Whether the walk so far, with a rejected property as its next step, rules the patch out. */
  lemma {:induction false} Rejected(b: seq<Byte>, items: seq<Item>, item: Item, rest: Option<seq<Item>>,
                                    requested: map<Name, int>, expected: map<Name, int>)
    requires Items(b) == Then(items, Then([item], rest))
    requires !ItemOk(b, item, requested, expected)
    ensures !Patchable(b, requested, expected)
  {
    if rest.Some? {
      var all := Items(b).value;
      assert all == items + ([item] + rest.value);
      assert all[|items|] == item;
    }
  }

  /** One step of the loop's bookkeeping in `patch_dtb_cells`: the counts of seen properties. */
  predicate Counted(items: seq<Item>, requested: map<Name, int>, seen: map<Name, nat>) {
    && seen.Keys == requested.Keys
    && forall name <- requested :: seen[name] > 0 <==> Seen(items, name)
  }

  lemma {:induction false} CountOne(items: seq<Item>, item: Item, requested: map<Name, int>, seen: map<Name, nat>)
    requires Counted(items, requested, seen)
    ensures !Touched(item, requested) ==> Counted(items + [item], requested, seen)
    ensures Touched(item, requested) ==> Counted(items + [item], requested, seen[item.name := seen[item.name] + 1])
  {
    var all := items + [item];
    assert all[|items|] == item;
    forall name <- requested
      ensures Seen(all, name) <==> Seen(items, name) || (item.Prop? && item.name == name)
    {
      SeenMore(items, item, name);
    }
  }

  lemma {:induction false} SeenMore(items: seq<Item>, item: Item, name: Name)
    ensures Seen(items + [item], name) <==> Seen(items, name) || (item.Prop? && item.name == name)
  {
    var all := items + [item];
    assert all[|items|] == item;
    if Seen(items, name) {
      var k :| 0 <= k < |items| && items[k].Prop? && items[k].name == name;
      assert all[k] == items[k];
    }
  }

  lemma {:induction false} OkMore(b: seq<Byte>, items: seq<Item>, item: Item, requested: map<Name, int>,
                                  expected: map<Name, int>)
    requires ItemsOk(b, items, requested, expected) && ItemOk(b, item, requested, expected)
    ensures ItemsOk(b, items + [item], requested, expected)
  {
  }

  lemma {:induction false} ReportMore(b: seq<Byte>, items: seq<Item>, item: Item, requested: map<Name, int>)
    requires ItemsOk(b, items, requested, map[]) && ItemOk(b, item, requested, map[])
    ensures ItemsOk(b, items + [item], requested, map[])
    ensures Report(b, items + [item], requested) ==
            Report(b, items, requested)
            + (if Touched(item, requested)
               then [Patch(item.path, item.name, Cell(b, item.value), requested[item.name])] else [])
  {
    var all := items + [item];
    assert all[..|all| - 1] == items && all[|all| - 1] == item;
    OkMore(b, items, item, requested, map[]);
    assert Report(b, items, requested) + [] == Report(b, items, requested);
  }

  /** Where the loop of `patch_dtb_cells` stands: `now` is the blob being written, `b` the original. */
  ghost predicate Progress(b: seq<Byte>, now: seq<Byte>, h: Header, items: seq<Item>, pos: nat, stack: seq<Name>,
                           requested: map<Name, int>, expected: map<Name, int>,
                           seen: map<Name, nat>, patched: seq<Patch>)
  {
    && ParseHeader(b) == Some(h)
    && Items(b) == Then(items, Walk(b, b[h.stringsStart..h.stringsEnd], h.structEnd, pos, stack))
    && ItemsOk(b, items, requested, expected) && ItemsOk(b, items, requested, map[])
    && PatchedBy(b, now, items, requested)
    && Behind(items, requested, pos)
    && (forall i :: pos <= i < |b| ==> now[i] == b[i])
    && Counted(items, requested, seen)
    && patched == Report(b, items, requested)
  }

  /** The walk takes the next token into its items. */
  lemma {:induction false} WalkOn(b: seq<Byte>, h: Header, items: seq<Item>, pos: nat, stack: seq<Name>)
    requires ParseHeader(b) == Some(h) && pos < h.structEnd
    requires Items(b) == Then(items, Walk(b, b[h.stringsStart..h.stringsEnd], h.structEnd, pos, stack))
    ensures Next(b, b[h.stringsStart..h.stringsEnd], h.structEnd, pos, stack).Some? ==>
              var t := Next(b, b[h.stringsStart..h.stringsEnd], h.structEnd, pos, stack).value;
              if t.0.Finish? then Items(b) == Some(items + [t.0])
              else
                && Items(b) == Then(items, Then([t.0], Walk(b, b[h.stringsStart..h.stringsEnd], h.structEnd, t.1, t.2)))
                && Items(b) == Then(items + [t.0], Walk(b, b[h.stringsStart..h.stringsEnd], h.structEnd, t.1, t.2))
    ensures Next(b, b[h.stringsStart..h.stringsEnd], h.structEnd, pos, stack).None? ==> Items(b) == None
  {
    var t := Next(b, b[h.stringsStart..h.stringsEnd], h.structEnd, pos, stack);
    if t.Some? && !t.value.0.Finish? {
      ThenThen(items, t.value.0, Walk(b, b[h.stringsStart..h.stringsEnd], h.structEnd, t.value.1, t.value.2));
    }
  }

  /** A token that writes nothing. */
  lemma {:induction false} StepOver(b: seq<Byte>, now: seq<Byte>, h: Header, items: seq<Item>, pos: nat,
                                    stack: seq<Name>, requested: map<Name, int>, expected: map<Name, int>,
                                    seen: map<Name, nat>, patched: seq<Patch>, item: Item, next: nat, open: seq<Name>)
    requires Progress(b, now, h, items, pos, stack, requested, expected, seen, patched) && pos < h.structEnd
    requires Next(b, b[h.stringsStart..h.stringsEnd], h.structEnd, pos, stack) == Some((item, next, open))
    requires !Touched(item, requested) && !item.Finish?
    ensures Progress(b, now, h, items + [item], next, open, requested, expected, seen, patched)
  {
    WalkOn(b, h, items, pos, stack);
    OkMore(b, items, item, requested, expected);
    ReportMore(b, items, item, requested);
    assert Report(b, items, requested) + [] == Report(b, items, requested);
    SkipOne(b, now, items, item, requested);
    CountOne(items, item, requested, seen);
  }

  /** A property whose cell is written. */
  lemma {:induction false} StepWriting(b: seq<Byte>, before: seq<Byte>, now: seq<Byte>, h: Header, items: seq<Item>,
                                       pos: nat, stack: seq<Name>, requested: map<Name, int>, expected: map<Name, int>,
                                       seen: map<Name, nat>, patched: seq<Patch>, item: Item, next: nat,
                                       open: seq<Name>)
    requires Progress(b, before, h, items, pos, stack, requested, expected, seen, patched) && pos < h.structEnd
    requires Next(b, b[h.stringsStart..h.stringsEnd], h.structEnd, pos, stack) == Some((item, next, open))
    requires Touched(item, requested) && ItemOk(b, item, requested, expected)
    requires OneCellWritten(before, now, item.value, requested[item.name])
    ensures Progress(b, now, h, items + [item], next, open, requested, expected,
                     seen[item.name := seen[item.name] + 1],
                     patched + [Patch(item.path, item.name, Cell(b, item.value), requested[item.name])])
  {
    WalkOn(b, h, items, pos, stack);
    OkMore(b, items, item, requested, expected);
    ReportMore(b, items, item, requested);
    WriteOne(b, before, now, items, item, requested, pos);
    CountOne(items, item, requested, seen);
    WrittenBehind(items, item, requested, pos, next);
  }

  lemma {:induction false} WrittenBehind(items: seq<Item>, item: Item, requested: map<Name, int>, pos: nat, next: nat)
    requires Behind(items, requested, pos) && pos <= next
    requires item.Prop? && item.value + 4 <= next
    ensures Behind(items + [item], requested, next)
  {
  }

  /** A loop that has read the end token is where the walk ends. */
  lemma {:induction false} StepEnd(b: seq<Byte>, now: seq<Byte>, h: Header, items: seq<Item>, pos: nat,
                                   stack: seq<Name>, requested: map<Name, int>, expected: map<Name, int>,
                                   seen: map<Name, nat>, patched: seq<Patch>, item: Item)
    requires Progress(b, now, h, items, pos, stack, requested, expected, seen, patched)
    requires Items(b) == Some(items + [item]) && item.Finish?
    ensures Done(b, now, items + [item], requested, expected, seen, patched)
  {
    OkMore(b, items, item, requested, expected);
    ReportMore(b, items, item, requested);
    assert Report(b, items, requested) + [] == Report(b, items, requested);
    SkipOne(b, now, items, item, requested);
    CountOne(items, item, requested, seen);
  }

  ghost predicate Done(b: seq<Byte>, now: seq<Byte>, items: seq<Item>, requested: map<Name, int>,
                       expected: map<Name, int>, seen: map<Name, nat>, patched: seq<Patch>)
  {
    && Items(b) == Some(items)
    && ItemsOk(b, items, requested, expected) && ItemsOk(b, items, requested, map[])
    && PatchedBy(b, now, items, requested)
    && Counted(items, requested, seen)
    && patched == Report(b, items, requested)
  }

  /** `c_string` */
  method ReadName(b: seq<Byte>, from: nat, limit: nat) returns (name: Option<Name>)
    ensures name == CString(b, from, limit)
  {
    var end := from;
    while end < limit && end < |b| && b[end] != 0
      invariant from <= end
      invariant FindZero(b, from, limit) == FindZero(b, end, limit)
    {
      end := end + 1;
    }
    if end >= limit || end >= |b| {
      return None;
    }
    var i := from;
    while i < end
      invariant from <= i <= end
      invariant forall j :: from <= j < i ==> b[j] < 128
    {
      if b[i] >= 128 {
        return None;
      }
      i := i + 1;
    }
    return Some(b[from..end]);
  }

  predicate OneCellWritten(before: seq<Byte>, now: seq<Byte>, p: nat, value: int) {
    && |now| == |before| && p + 4 <= |now| && Cell(now, p) == value
    && forall i :: 0 <= i < |now| && !(p <= i < p + 4) ==> now[i] == before[i]
  }

  /** The checks and the write for one requested property. */
  method WriteProperty(dtb: array<Byte>, item: Item, requested: map<Name, int>, expected: map<Name, int>)
    returns (oldValue: Option<nat>)
    requires Touched(item, requested)
    modifies dtb
    ensures oldValue.Some? <==> ItemOk(old(dtb[..]), item, requested, expected)
    ensures oldValue.None? ==> dtb[..] == old(dtb[..])
    ensures oldValue.Some? ==>
              && oldValue.value == old(Cell(dtb[..], item.value))
              && OneCellWritten(old(dtb[..]), dtb[..], item.value, requested[item.name])
  {
    if item.length != 4 || item.value + 4 > dtb.Length {
      return None;
    }
    var was := Cell(dtb[..], item.value);
    if item.name in expected && was != expected[item.name] {
      return None;
    }
    var newValue := requested[item.name];
    if newValue < 0 || newValue >= CELLS {
      return None;
    }
    WriteCell(dtb, item.value, newValue);
    return Some(was);
  }

  /** `fdt_path` */
  method OpenPath(stack: seq<Name>) returns (path: seq<Name>)
    ensures path == Path(stack)
  {
    path := [];
    for i := 0 to |stack|
      invariant path == Path(stack[..i])
    {
      assert stack[..i + 1][..i] == stack[..i];
      if stack[i] != [] {
        path := path + [stack[i]];
      }
    }
    assert stack[..|stack|] == stack;
  }

  /** Reading one token, in the order the loop reads it. */
  method ReadToken(b: seq<Byte>, strings: seq<Byte>, end: nat, at: nat, stack: seq<Name>)
    returns (token: Option<(Item, nat, seq<Name>)>)
    ensures token == Next(b, strings, end, at, stack)
  {
    if at + 4 > |b| {
      return None;
    }
    var tag, pos := Cell(b, at), at + 4;
    if tag == 1 {
      var name := ReadName(b, pos, end);
      if name.None? {
        return None;
      }
      pos := Align4(pos + |name.value| + 1);
      return Some((Begin(at, name.value), pos, stack + [name.value]));
    } else if tag == 2 {
      return Some((End(at), pos, if stack != [] then stack[..|stack| - 1] else stack));
    } else if tag == 3 {
      token := ReadProperty(b, strings, end, at, stack);
      return;
    } else if tag == 4 {
      return Some((Nop(at), pos, stack));
    } else if tag == 9 {
      return Some((Finish(at), pos, stack));
    }
    return None;
  }

  method ReadProperty(b: seq<Byte>, strings: seq<Byte>, end: nat, at: nat, stack: seq<Name>)
    returns (token: Option<(Item, nat, seq<Name>)>)
    requires at + 4 <= |b| && Cell(b, at) == 3
    ensures token == Next(b, strings, end, at, stack)
  {
    var pos := at + 4;
    if pos + 8 > |b| {
      return None;
    }
    var length, nameOffset := Cell(b, pos), Cell(b, pos + 4);
    pos := pos + 8;
    if nameOffset >= |strings| {
      return None;
    }
    var name := ReadName(strings, nameOffset, |strings|);
    if name.None? {
      return None;
    }
    var path := OpenPath(stack);
    return Some((Prop(at, path, name.value, length, pos), Align4(pos + length), stack));
  }

  /** Nothing at or after a property has been written when it is checked. */
  lemma {:induction false} SameOk(b: seq<Byte>, now: seq<Byte>, item: Item, requested: map<Name, int>,
                                  expected: map<Name, int>)
    requires |b| == |now| && Touched(item, requested)
    requires forall i :: item.value <= i < |b| ==> now[i] == b[i]
    ensures ItemOk(b, item, requested, expected) <==> ItemOk(now, item, requested, expected)
    ensures item.value + 4 <= |b| ==> Cell(b, item.value) == Cell(now, item.value)
  {
  }

  /** The branch of the loop that patches a requested property. */
  method WriteItem(dtb: array<Byte>, ghost b: seq<Byte>, ghost h: Header, ghost items: seq<Item>, ghost pos: nat,
                   ghost stack: seq<Name>, requested: map<Name, int>, expected: map<Name, int>, seen: map<Name, nat>,
                   patched: seq<Patch>, item: Item, ghost next: nat, ghost open: seq<Name>)
    returns (ok: bool, seen': map<Name, nat>, patched': seq<Patch>)
    requires dtb.Length == |b| && item.Prop? && Touched(item, requested) && pos < h.structEnd
    requires Progress(b, dtb[..], h, items, pos, stack, requested, expected, seen, patched)
    requires Next(b, b[h.stringsStart..h.stringsEnd], h.structEnd, pos, stack) == Some((item, next, open))
    modifies dtb
    ensures !ok ==> !Patchable(b, requested, expected)
    ensures ok ==> Progress(b, dtb[..], h, items + [item], next, open, requested, expected, seen', patched')
  {
    ghost var before := dtb[..];
    StepChecks(b, before, h, items, pos, stack, requested, expected, seen, patched, item, next, open);
    var oldValue := WriteProperty(dtb, item, requested, expected);
    if oldValue.None? {
      return false, seen, patched;
    }
    StepWriting(b, before, dtb[..], h, items, pos, stack, requested, expected, seen, patched, item, next, open);
    assert item.name in seen;
    ok, seen' := true, seen[item.name := seen[item.name] + 1];
    patched' := patched + [Patch(item.path, item.name, oldValue.value, requested[item.name])];
  }

  /** The checks before a write see the original blob, and a rejected property rules the patch out. */
  lemma {:induction false} StepChecks(b: seq<Byte>, now: seq<Byte>, h: Header, items: seq<Item>, pos: nat,
                                      stack: seq<Name>, requested: map<Name, int>, expected: map<Name, int>,
                                      seen: map<Name, nat>, patched: seq<Patch>, item: Item, next: nat,
                                      open: seq<Name>)
    requires Progress(b, now, h, items, pos, stack, requested, expected, seen, patched) && pos < h.structEnd
    requires Next(b, b[h.stringsStart..h.stringsEnd], h.structEnd, pos, stack) == Some((item, next, open))
    requires Touched(item, requested)
    ensures ItemOk(b, item, requested, expected) <==> ItemOk(now, item, requested, expected)
    ensures |now| == |b| && (item.value + 4 <= |b| ==> Cell(b, item.value) == Cell(now, item.value))
    ensures item.name in seen
    ensures !ItemOk(b, item, requested, expected) ==> !Patchable(b, requested, expected)
  {
    WalkOn(b, h, items, pos, stack);
    SameOk(b, now, item, requested, expected);
    if !ItemOk(b, item, requested, expected) {
      Rejected(b, items, item, Walk(b, b[h.stringsStart..h.stringsEnd], h.structEnd, next, open), requested, expected);
    }
  }

  /** `patch_dtb_cells`: raises exactly when the blob is not patchable, else writes every requested cell. */
  method PatchCells(dtb: array<Byte>, requested: map<Name, int>, expected: map<Name, int>)
    returns (result: Option<seq<Patch>>)
    modifies dtb
    ensures result.Some? <==> Patchable(old(dtb[..]), requested, expected)
    ensures result.Some? ==>
              && PatchedBy(old(dtb[..]), dtb[..], Items(old(dtb[..])).value, requested)
              && Reported(old(dtb[..]), result.value, requested)
  {
    ghost var b := dtb[..];
    var header := ParseHeader(dtb[..]);
    if header.None? {
      return None;
    }
    var h := header.value;
    var strings := dtb[h.stringsStart..h.stringsEnd];
    var pos, stack, patched := h.structStart, [], [];
    var seen := map name <- requested :: 0;
    ghost var items: seq<Item> := [];
    ghost var ended := false;
    assert Progress(b, dtb[..], h, items, pos, stack, requested, expected, seen, patched) by {
      StartProgress(b, h, requested, expected, seen);
    }
    while pos < h.structEnd
      invariant dtb.Length == |b|
      invariant Progress(b, dtb[..], h, items, pos, stack, requested, expected, seen, patched)
      decreases h.structEnd - pos
    {
      NextAhead(b, dtb[..], strings, h.structEnd, pos, stack);
      WalkOn(b, h, items, pos, stack);
      var token := ReadToken(dtb[..], strings, h.structEnd, pos, stack);
      if token.None? {
        return None;
      }
      var (item, next, open) := token.value;
      if item.Finish? {
        StepEnd(b, dtb[..], h, items, pos, stack, requested, expected, seen, patched, item);
        items := items + [item];
        ended := true;
        break;
      }
      if item.Prop? && item.name in requested {
        var ok;
        ok, seen, patched := WriteItem(dtb, b, h, items, pos, stack, requested, expected, seen, patched, item, next, open);
        if !ok {
          return None;
        }
      } else {
        StepOver(b, dtb[..], h, items, pos, stack, requested, expected, seen, patched, item, next, open);
      }
      items := items + [item];
      pos, stack := next, open;
    }
    if !ended {
      assert Then(items, Some([])) == Some(items) by { assert items + [] == items; }
    }
    assert Done(b, dtb[..], items, requested, expected, seen, patched);
    if exists name <- requested :: seen[name] == 0 {
      return None;
    }
    return Some(patched);
  }

  lemma {:induction false} StartProgress(b: seq<Byte>, h: Header, requested: map<Name, int>, expected: map<Name, int>,
                                         seen: map<Name, nat>)
    requires ParseHeader(b) == Some(h)
    requires seen.Keys == requested.Keys && forall name <- requested :: seen[name] == 0
    ensures Progress(b, b, h, [], h.structStart, [], requested, expected, seen, [])
  {
    ThenNothing(Walk(b, b[h.stringsStart..h.stringsEnd], h.structEnd, h.structStart, []));
    assert PatchedBy(b, b, [], requested) && Counted([], requested, seen);
    assert Report(b, [], requested) == [];
  }

  lemma {:induction false} ThenNothing(rest: Option<seq<Item>>)
    ensures Then([], rest) == rest
  {
    if rest.Some? {
      assert [] + rest.value == rest.value;
    }
  }

  lemma {:induction false} FindZeroSame(b: seq<Byte>, c: seq<Byte>, from: nat, limit: nat)
    requires |b| == |c| && FindZero(b, from, limit).Some?
    requires forall i :: from <= i <= FindZero(b, from, limit).value ==> b[i] == c[i]
    ensures FindZero(c, from, limit) == FindZero(b, from, limit)
    decreases |b| - from
  {
    if b[from] != 0 {
      FindZeroSame(b, c, from + 1, limit);
    }
  }

  /** A token reads the same from a blob that agrees on its bytes, up to a property's value. */
  lemma {:induction false} NextSame(b: seq<Byte>, c: seq<Byte>, strings: seq<Byte>, end: nat, pos: nat,
                                    stack: seq<Name>)
    requires |b| == |c| && Next(b, strings, end, pos, stack).Some?
    requires var t := Next(b, strings, end, pos, stack).value;
             forall i :: pos <= i < (if t.0.Prop? then pos + 12 else t.1) && i < |b| ==> b[i] == c[i]
    ensures Next(c, strings, end, pos, stack) == Next(b, strings, end, pos, stack)
  {
    if Cell(b, pos) == 1 {
      FindZeroSame(b, c, pos + 4, end);
      var e := FindZero(b, pos + 4, end).value;
      assert b[pos + 4..e] == c[pos + 4..e];
    }
  }

  /** The walk only moves forward. */
  lemma {:induction false} WalkForward(b: seq<Byte>, strings: seq<Byte>, end: nat, pos: nat, stack: seq<Name>,
                                       items: seq<Item>)
    requires Walk(b, strings, end, pos, stack) == Some(items)
    ensures forall k :: 0 <= k < |items| && items[k].Prop? ==> items[k].value >= pos + 12
    decreases end - pos
  {
    if pos < end {
      var t := Next(b, strings, end, pos, stack).value;
      if !t.0.Finish? {
        var rest := Walk(b, strings, end, t.1, t.2).value;
        assert items == [t.0] + rest;
        WalkForward(b, strings, end, t.1, t.2, rest);
      }
    }
  }

  predicate OneCell(items: seq<Item>, requested: map<Name, int>) {
    forall k :: 0 <= k < |items| && Touched(items[k], requested) ==> items[k].length == 4
  }

  /** Changing requested cells changes no token of the walk. */
  lemma {:induction false} WalkSame(b: seq<Byte>, c: seq<Byte>, strings: seq<Byte>, end: nat, pos: nat,
                                    stack: seq<Name>, requested: map<Name, int>, items: seq<Item>)
    requires Walk(b, strings, end, pos, stack) == Some(items) && OneCell(items, requested)
    requires |b| == |c| && forall i :: pos <= i < |b| && !InCells(items, requested, i) ==> b[i] == c[i]
    ensures Walk(c, strings, end, pos, stack) == Some(items)
    decreases end - pos
  {
    if pos < end {
      var t := Next(b, strings, end, pos, stack).value;
      if t.0.Finish? {
        forall i | pos <= i < t.1 && i < |b|
          ensures b[i] == c[i]
        {
          assert !InCells(items, requested, i);
        }
      } else {
        var rest := Walk(b, strings, end, t.1, t.2).value;
        assert items == [t.0] + rest && items[1..] == rest;
        WalkForward(b, strings, end, t.1, t.2, rest);
        forall i | pos <= i < (if t.0.Prop? then pos + 12 else t.1) && i < |b|
          ensures b[i] == c[i]
        {
          assert !InCell(t.0, requested, i);
          NotInRest(items, requested, i);
        }
        forall i | t.1 <= i < |b| && !InCells(rest, requested, i)
          ensures b[i] == c[i]
        {
          assert !InCell(items[0], requested, i);
          NotInRest(items, requested, i);
        }
        forall k | 0 <= k < |rest| && Touched(rest[k], requested)
          ensures rest[k].length == 4
        {
          assert items[k + 1] == rest[k];
        }
        WalkSame(b, c, strings, end, t.1, t.2, requested, rest);
      }
      NextSame(b, c, strings, end, pos, stack);
    }
  }

  lemma {:induction false} NotInRest(items: seq<Item>, requested: map<Name, int>, i: nat)
    requires items != [] && !InCell(items[0], requested, i) && !InCells(items[1..], requested, i)
    ensures !InCells(items, requested, i)
  {
    forall k | 0 <= k < |items|
      ensures !InCell(items[k], requested, i)
    {
      if k > 0 {
        assert items[1..][k - 1] == items[k];
      }
    }
  }

  /** A structure block that ends with its end token holds every value before that token. */
  lemma {:induction false} ValuesInside(b: seq<Byte>, strings: seq<Byte>, end: nat, pos: nat, stack: seq<Name>,
                                        items: seq<Item>)
    requires Walk(b, strings, end, pos, stack) == Some(items)
    requires items != [] && items[|items| - 1].Finish?
    ensures forall k :: 0 <= k < |items| && items[k].Prop? ==> items[k].value + items[k].length <= end
    decreases end - pos
  {
    var t := Next(b, strings, end, pos, stack).value;
    if !t.0.Finish? {
      var rest := Walk(b, strings, end, t.1, t.2).value;
      assert items == [t.0] + rest && items[1..] == rest;
      assert rest != [] && rest[|rest| - 1] == items[|items| - 1];
      ValuesInside(b, strings, end, t.1, t.2, rest);
    }
  }

  /**
   A blob laid out as sections 5.2 to 5.5 of the Devicetree Specification ask: it walks to its end
   token, and the header, the structure block and the strings block share no byte.
   */
  predicate WellFormed(b: seq<Byte>) {
    && Items(b).Some?
    && Items(b).value != [] && Items(b).value[|Items(b).value| - 1].Finish?
    && var h := ParseHeader(b).value;
       && 40 <= h.structStart && (h.stringsEnd <= h.structStart || h.structEnd <= h.stringsStart)
  }

  /** The patched blob walks to the same nodes and properties at the same offsets. */
  lemma {:induction false} PatchedWalk(b: seq<Byte>, after: seq<Byte>, requested: map<Name, int>,
                                       expected: map<Name, int>)
    requires WellFormed(b) && Patchable(b, requested, expected)
    requires PatchedBy(b, after, Items(b).value, requested)
    ensures Items(after) == Items(b) && WellFormed(after)
  {
    var h, items := ParseHeader(b).value, Items(b).value;
    assert forall k :: 0 <= k < |items| ==> ItemOk(b, items[k], requested, expected);
    OutsideSame(b, after, h, items, requested);
    SameHeader(b, after);
    SameStrings(b, after, h);
    WalkSame(b, after, b[h.stringsStart..h.stringsEnd], h.structEnd, h.structStart, [], requested, items);
  }

  lemma {:induction false} SameStrings(b: seq<Byte>, after: seq<Byte>, h: Header)
    requires |after| == |b| && h.stringsStart <= h.stringsEnd <= |b|
    requires h.stringsEnd <= h.structStart || h.structEnd <= h.stringsStart
    requires forall i :: 0 <= i < |b| && !(h.structStart <= i < h.structEnd) ==> after[i] == b[i]
    ensures after[h.stringsStart..h.stringsEnd] == b[h.stringsStart..h.stringsEnd]
  {
  }

  /** Only the structure block changes. */
  lemma {:induction false} OutsideSame(b: seq<Byte>, after: seq<Byte>, h: Header, items: seq<Item>,
                                       requested: map<Name, int>)
    requires PatchedBy(b, after, items, requested) && OneCell(items, requested)
    requires h.stringsStart <= h.stringsEnd <= |b|
    requires Walk(b, b[h.stringsStart..h.stringsEnd], h.structEnd, h.structStart, []) == Some(items)
    requires items != [] && items[|items| - 1].Finish?
    ensures forall i :: 0 <= i < |b| && !(h.structStart <= i < h.structEnd) ==> after[i] == b[i]
  {
    var strings := b[h.stringsStart..h.stringsEnd];
    WalkForward(b, strings, h.structEnd, h.structStart, [], items);
    ValuesInside(b, strings, h.structEnd, h.structStart, [], items);
    forall i | 0 <= i < |b| && !(h.structStart <= i < h.structEnd)
      ensures after[i] == b[i]
    {
      assert !InCells(items, requested, i);
    }
  }

  lemma {:induction false} CellSame(b: seq<Byte>, c: seq<Byte>, p: nat)
    requires p + 4 <= |b| == |c| && b[p..p + 4] == c[p..p + 4]
    ensures Cell(b, p) == Cell(c, p)
  {
    assert forall i :: p <= i < p + 4 ==> b[i] == b[p..p + 4][i - p] && c[i] == c[p..p + 4][i - p];
  }

  lemma {:induction false} SameHeader(b: seq<Byte>, c: seq<Byte>)
    requires |b| == |c| >= 40 && forall i :: 0 <= i < 40 ==> b[i] == c[i]
    ensures ParseHeader(b) == ParseHeader(c)
  {
    CellSame(b, c, 0);
    CellSame(b, c, 4);
    CellSame(b, c, 8);
    CellSame(b, c, 12);
    CellSame(b, c, 32);
    CellSame(b, c, 36);
  }

  lemma {:induction false} CellDecides(b: seq<Byte>, c: seq<Byte>, p: nat)
    requires p + 4 <= |b| == |c| && Cell(b, p) == Cell(c, p)
    ensures forall i :: p <= i < p + 4 ==> b[i] == c[i]
  {
    NumberDecides(b[p], b[p + 1], b[p + 2], b[p + 3], c[p], c[p + 1], c[p + 2], c[p + 3]);
  }

  lemma {:induction false} NumberDecides(a: int, b: int, c: int, d: int, e: int, f: int, g: int, h: int)
    requires 0 <= a < 256 && 0 <= b < 256 && 0 <= c < 256 && 0 <= d < 256
    requires 0 <= e < 256 && 0 <= f < 256 && 0 <= g < 256 && 0 <= h < 256
    requires Number(a, b, c, d) == Number(e, f, g, h)
    ensures a == e && b == f && c == g && d == h
  {
    var low, low' := b * 0x10000 + c * 0x100 + d, f * 0x10000 + g * 0x100 + h;
    assert 0 <= low < 0x1000000 && 0 <= low' < 0x1000000;
    assert a == e;
    assert b == f;
  }

  lemma {:induction false} CellRange(b: seq<Byte>, p: nat)
    requires p + 4 <= |b|
    ensures Cell(b, p) < CELLS
  {
  }

  lemma {:induction false} SameCells(items: seq<Item>, r: map<Name, int>, e: map<Name, int>, i: nat)
    requires r.Keys == e.Keys
    ensures InCells(items, r, i) <==> InCells(items, e, i)
  {
    forall k | 0 <= k < |items|
      ensures InCell(items[k], r, i) <==> InCell(items[k], e, i)
    {
    }
  }

  /**
   When every old value was expected, patching back, with the roles of requested and expected
   values exchanged, goes through and restores the original blob byte for byte.
   */
  lemma {:induction false} PatchBack(b: seq<Byte>, after: seq<Byte>, back: seq<Byte>, requested: map<Name, int>,
                                     expected: map<Name, int>)
    requires WellFormed(b) && Patchable(b, requested, expected) && expected.Keys == requested.Keys
    requires PatchedBy(b, after, Items(b).value, requested)
    ensures Patchable(after, expected, requested)
    ensures PatchedBy(after, back, Items(after).value, expected) ==> back == b
  {
    PatchedWalk(b, after, requested, expected);
    var items := Items(b).value;
    forall k | 0 <= k < |items|
      ensures ItemOk(after, items[k], expected, requested)
    {
      assert ItemOk(b, items[k], requested, expected);
      if Touched(items[k], requested) {
        CellRange(b, items[k].value);
      }
    }
    if PatchedBy(after, back, items, expected) {
      forall i | 0 <= i < |b|
        ensures back[i] == b[i]
      {
        RestoredByte(b, after, back, items, requested, expected, i);
      }
    }
  }

  lemma {:induction false} RestoredByte(b: seq<Byte>, after: seq<Byte>, back: seq<Byte>, items: seq<Item>,
                                        requested: map<Name, int>, expected: map<Name, int>, i: nat)
    requires PatchedBy(b, after, items, requested) && PatchedBy(after, back, items, expected)
    requires ItemsOk(b, items, requested, expected) && expected.Keys == requested.Keys && i < |b|
    ensures back[i] == b[i]
  {
    SameCells(items, requested, expected, i);
    if InCells(items, requested, i) {
      var k :| 0 <= k < |items| && InCell(items[k], requested, i);
      assert Touched(items[k], expected);
      assert ItemOk(b, items[k], requested, expected);
      CellDecides(b, back, items[k].value);
    }
  }

  const ENTRIES: seq<(nat, nat)> := [(0x40, 0x80), (0x1B0, 0x1F0), (0x320, 0x360), (0x490, 0x4D0)]
  const DTB: Name := ['d' as int, 't' as int, 'b' as int]

  /** The little-endian field at `p`. */
  function Field(b: seq<Byte>, p: nat): nat
    requires p + 4 <= |b|
  {
    Number(b[p + 3], b[p + 2], b[p + 1], b[p])
  }

  /** The first entry named "dtb" from the k-th on; an unreadable entry before it stops the search. */
  function FindFrom(b: seq<Byte>, k: nat): (r: Option<(nat, nat)>)
    requires k <= |ENTRIES|
    ensures r.Some? ==> r.value.0 + r.value.1 <= |b|
    decreases |ENTRIES| - k
  {
    if k == |ENTRIES| then None
    else
      match CString(b, ENTRIES[k].0, ENTRIES[k].0 + 16)
      case None => None
      case Some(name) =>
        var p := ENTRIES[k].1;
        if p + 8 > |b| then None
        else if name == DTB then
          if Field(b, p) + Field(b, p + 4) > |b| then None else Some((Field(b, p), Field(b, p + 4)))
        else FindFrom(b, k + 1)
  }

  /** `find_dtb_entry` */
  method FindEntry(b: seq<Byte>) returns (entry: Option<(nat, nat)>)
    ensures entry == FindFrom(b, 0)
  {
    var k := 0;
    while k < |ENTRIES|
      invariant k <= |ENTRIES|
      invariant FindFrom(b, 0) == FindFrom(b, k)
    {
      var name := ReadName(b, ENTRIES[k].0, ENTRIES[k].0 + 16);
      var p := ENTRIES[k].1;
      if name.None? || p + 8 > |b| {
        return None;
      }
      if name.value == DTB {
        var offset, length := Field(b, p), Field(b, p + 4);
        return if offset + length > |b| then None else Some((offset, length));
      }
      k := k + 1;
    }
    return None;
  }

  /** The blob of the package's devicetree entry. */
  function Blob(b: seq<Byte>): seq<Byte> {
    match FindFrom(b, 0)
    case None => []
    case Some(e) => b[e.0..e.0 + e.1]
  }

  method CopyOut(package: array<Byte>, offset: nat, length: nat) returns (dtb: array<Byte>)
    requires offset + length <= package.Length
    ensures fresh(dtb) && dtb[..] == package[offset..offset + length]
  {
    dtb := new Byte[length];
    for i := 0 to length
      invariant forall j :: 0 <= j < i ==> dtb[j] == package[offset + j]
    {
      dtb[i] := package[offset + i];
    }
  }

  method Splice(package: array<Byte>, offset: nat, dtb: array<Byte>)
    requires offset + dtb.Length <= package.Length && package != dtb
    modifies package
    ensures package[offset..offset + dtb.Length] == dtb[..]
    ensures package[..offset] == old(package[..offset])
    ensures package[offset + dtb.Length..] == old(package[offset + dtb.Length..])
  {
    for i := 0 to dtb.Length
      invariant forall j :: 0 <= j < i ==> package[offset + j] == dtb[j]
      invariant forall j :: 0 <= j < package.Length && !(offset <= j < offset + i) ==> package[j] == old(package[j])
    {
      package[offset + i] := dtb[i];
    }
  }

  /** Every byte outside the entry is as before. */
  predicate SameAround(was: seq<Byte>, now: seq<Byte>, offset: nat, length: nat) {
    && |now| == |was| && offset + length <= |was|
    && now[..offset] == was[..offset]
    && now[offset + length..] == was[offset + length..]
  }

  /** The entry at `offset` holds the patched blob, and nothing else has changed. */
  predicate EntryPatched(was: seq<Byte>, now: seq<Byte>, offset: nat, length: nat, requested: map<Name, int>) {
    && SameAround(was, now, offset, length)
    && Items(was[offset..offset + length]).Some?
    && PatchedBy(was[offset..offset + length], now[offset..offset + length],
                 Items(was[offset..offset + length]).value, requested)
  }

  method PatchEntry(package: array<Byte>, offset: nat, length: nat, requested: map<Name, int>, expected: map<Name, int>)
    returns (result: Option<seq<Patch>>)
    requires offset + length <= package.Length
    modifies package
    ensures result.Some? <==> Patchable(old(package[offset..offset + length]), requested, expected)
    ensures result.None? ==> package[..] == old(package[..])
    ensures result.Some? ==>
              && EntryPatched(old(package[..]), package[..], offset, length, requested)
              && Reported(old(package[offset..offset + length]), result.value, requested)
  {
    var dtb := CopyOut(package, offset, length);
    ghost var was, blob := package[..], dtb[..];
    assert was[offset..offset + length] == blob;
    result := PatchCells(dtb, requested, expected);
    if result.Some? {
      ghost var patched := dtb[..];
      Splice(package, offset, dtb);
      SpliceIs(was, package[..], offset, blob, patched, requested);
    }
  }

  lemma {:induction false} SpliceIs(was: seq<Byte>, now: seq<Byte>, offset: nat, blob: seq<Byte>, patched: seq<Byte>,
                                    requested: map<Name, int>)
    requires |now| == |was| && offset + |blob| <= |was| && was[offset..offset + |blob|] == blob
    requires Items(blob).Some? && PatchedBy(blob, patched, Items(blob).value, requested)
    requires now[offset..offset + |blob|] == patched
    requires now[..offset] == was[..offset] && now[offset + |blob|..] == was[offset + |blob|..]
    ensures EntryPatched(was, now, offset, |blob|, requested)
  {
  }

  /**
   `main` between reading and writing the package: it fails with the package as it was, or the
   patched blob replaces the devicetree entry in place.
   */
  method PatchPackage(package: array<Byte>, requested: map<Name, int>, expected: map<Name, int>)
    returns (result: Option<seq<Patch>>)
    modifies package
    ensures result.Some? <==>
              requested != map[] && FindFrom(old(package[..]), 0).Some?
              && Patchable(Blob(old(package[..])), requested, expected)
    ensures result.None? ==> package[..] == old(package[..])
    ensures result.Some? ==>
              var (offset, length) := FindFrom(old(package[..]), 0).value;
              && EntryPatched(old(package[..]), package[..], offset, length, requested)
              && Reported(Blob(old(package[..])), result.value, requested)
  {
    if requested == map[] {
      return None;
    }
    var entry := FindEntry(package[..]);
    if entry.None? {
      return None;
    }
    var (offset, length) := entry.value;
    assert Blob(package[..]) == package[offset..offset + length];
    result := PatchEntry(package, offset, length, requested, expected);
  }

  /** The entry table lies before any blob that starts after it, so the patched package finds its entry again. */
  lemma {:induction false} EntryStays(b: seq<Byte>, c: seq<Byte>, k: nat)
    requires k <= |ENTRIES| && |b| == |c|
    requires FindFrom(b, k).Some?
    requires forall i :: 0 <= i < 0x4D8 && i < |b| ==> b[i] == c[i]
    ensures FindFrom(c, k) == FindFrom(b, k)
    decreases |ENTRIES| - k
  {
    EntrySame(b, c, k);
    if CString(b, ENTRIES[k].0, ENTRIES[k].0 + 16) != Some(DTB) {
      EntryStays(b, c, k + 1);
    }
  }

  lemma {:induction false} EntrySame(b: seq<Byte>, c: seq<Byte>, k: nat)
    requires k < |ENTRIES| && |b| == |c|
    requires FindFrom(b, k).Some?
    requires forall i :: 0 <= i < 0x4D8 && i < |b| ==> b[i] == c[i]
    ensures CString(c, ENTRIES[k].0, ENTRIES[k].0 + 16) == CString(b, ENTRIES[k].0, ENTRIES[k].0 + 16)
    ensures var p := ENTRIES[k].1; p + 8 <= |b| && Field(b, p) == Field(c, p) && Field(b, p + 4) == Field(c, p + 4)
  {
    NameSame(b, c, ENTRIES[k].0, ENTRIES[k].0 + 16);
    FieldSame(b, c, ENTRIES[k].1);
    FieldSame(b, c, ENTRIES[k].1 + 4);
  }

  lemma {:induction false} NameSame(b: seq<Byte>, c: seq<Byte>, from: nat, limit: nat)
    requires |b| == |c| && limit <= 0x4D8 && CString(b, from, limit).Some?
    requires forall i :: 0 <= i < 0x4D8 && i < |b| ==> b[i] == c[i]
    ensures CString(c, from, limit) == CString(b, from, limit)
  {
    FindZeroSame(b, c, from, limit);
    var e := FindZero(b, from, limit).value;
    assert b[from..e] == c[from..e];
  }

  lemma {:induction false} FieldSame(b: seq<Byte>, c: seq<Byte>, p: nat)
    requires p + 4 <= |b| == |c| && forall i :: p <= i < p + 4 ==> b[i] == c[i]
    ensures Field(b, p) == Field(c, p)
  {
  }
  /**
   A patched package whose blob lies behind the entry table finds its blob again, and if that was well-formed,
   it walks to the same nodes and properties.
   */
  lemma {:induction false} PackageStays(was: seq<Byte>, now: seq<Byte>, offset: nat, length: nat,
                                        requested: map<Name, int>, expected: map<Name, int>)
    requires FindFrom(was, 0) == Some((offset, length)) && 0x4D8 <= offset
    requires Patchable(was[offset..offset + length], requested, expected)
    requires EntryPatched(was, now, offset, length, requested)
    ensures FindFrom(now, 0) == Some((offset, length))
    ensures var (blob, patched) := (was[offset..offset + length], now[offset..offset + length]);
            WellFormed(blob) ==> Items(patched) == Items(blob) && WellFormed(patched)
  {
    FrontSame(was, now, offset);
    EntryStays(was, now, 0);
    var blob := was[offset..offset + length];
    if WellFormed(blob) {
      PatchedWalk(blob, now[offset..offset + length], requested, expected);
    }
  }

  lemma {:induction false} FrontSame(was: seq<Byte>, now: seq<Byte>, offset: nat)
    requires offset <= |was| == |now| && now[..offset] == was[..offset]
    ensures forall i :: 0 <= i < offset ==> was[i] == now[i]
  {
    assert forall i :: 0 <= i < offset ==> was[i] == was[..offset][i] && now[i] == now[..offset][i];
  }

  /** Patching a whole package back goes through and restores every byte. */
  lemma {:induction false} PackageBack(was: seq<Byte>, now: seq<Byte>, back: seq<Byte>, offset: nat, length: nat,
                                       requested: map<Name, int>, expected: map<Name, int>)
    requires FindFrom(was, 0) == Some((offset, length)) && 0x4D8 <= offset
    requires Patchable(was[offset..offset + length], requested, expected) && expected.Keys == requested.Keys
    requires EntryPatched(was, now, offset, length, requested) && WellFormed(was[offset..offset + length])
    ensures FindFrom(now, 0) == Some((offset, length))
    ensures Patchable(now[offset..offset + length], expected, requested)
    ensures EntryPatched(now, back, offset, length, expected) ==> back == was
  {
    PackageStays(was, now, offset, length, requested, expected);
    EntryBack(was, now, back, offset, length, requested, expected);
  }

  lemma {:induction false} EntryBack(was: seq<Byte>, now: seq<Byte>, back: seq<Byte>, offset: nat, length: nat,
                                     requested: map<Name, int>, expected: map<Name, int>)
    requires EntryPatched(was, now, offset, length, requested) && WellFormed(was[offset..offset + length])
    requires Patchable(was[offset..offset + length], requested, expected) && expected.Keys == requested.Keys
    ensures Patchable(now[offset..offset + length], expected, requested)
    ensures EntryPatched(now, back, offset, length, expected) ==> back == was
  {
    var again := if SameAround(now, back, offset, length) then back[offset..offset + length] else [];
    PatchBack(was[offset..offset + length], now[offset..offset + length], again, requested, expected);
    if SameAround(now, back, offset, length) && again == was[offset..offset + length] {
      AroundBack(was, now, back, offset, length);
    }
  }

  lemma {:induction false} AroundBack(was: seq<Byte>, now: seq<Byte>, back: seq<Byte>, offset: nat, length: nat)
    requires SameAround(was, now, offset, length) && SameAround(now, back, offset, length)
    requires back[offset..offset + length] == was[offset..offset + length]
    ensures back == was
  {
    assert was == was[..offset] + was[offset..offset + length] + was[offset + length..];
    assert back == back[..offset] + back[offset..offset + length] + back[offset + length..];
  }
}
