/** Devicetree blobs by their format. */
module FlatBlob {
  // Whole blobs and packages: what is read from them, and what patching makes of them.

  import opened Common
  import opened DeviceTree
  import opened FlatTree

  /** A devicetree as it is stored: reserved memory, the tree, the names of its properties, and unused space. */
  datatype Image = Image(cpu: nat, reservations: seq<Byte>, root: Content, strings: seq<Byte>, tail: seq<Byte>)

  function Structure(i: Image): seq<Byte>
    requires AllWritable(Tokens(i.root), i.strings)
  {
    Bytes(Tokens(i.root), i.strings) + Be32(9)
  }

  function Start(i: Image): nat {
    40 + |i.reservations|
  }

  predicate Proper(i: Image) {
    && AllWritable(Tokens(i.root), i.strings) && i.cpu < 0x1_0000_0000 && |i.reservations| % 4 == 0
    && Start(i) + |Structure(i)| + |i.strings| < 0x1_0000_0000
  }

  predicate Cells32(ns: seq<int>) {
    forall k :: 0 <= k < |ns| ==> 0 <= ns[k] < 0x1_0000_0000
  }

  function CellBytes(ns: seq<int>): seq<Byte>
    requires Cells32(ns)
  {
    if ns == [] then [] else Be32(ns[0]) + CellBytes(ns[1..])
  }

  /** The header of section 5.2, version 17. */
  function HeaderCells(i: Image): (ns: seq<int>)
    requires Proper(i)
    ensures |ns| == 10 && Cells32(ns)
  {
    var size := |Structure(i)|;
    [0xD00DFEED, Start(i) + size + |i.strings|, Start(i), Start(i) + size, 40, 17, 16, i.cpu, |i.strings|, size]
  }

  function ImageBytes(i: Image): seq<Byte>
    requires Proper(i)
  {
    CellBytes(HeaderCells(i)) + (i.reservations + (Structure(i) + (i.strings + i.tail)))
  }

  lemma {:induction false} CellsSize(ns: seq<int>)
    requires Cells32(ns)
    ensures |CellBytes(ns)| == 4 * |ns|
    decreases |ns|
  {
    if ns != [] {
      CellsSize(ns[1..]);
    }
  }

  lemma {:induction false} CellOfList(b: seq<Byte>, at: nat, ns: seq<int>, k: nat)
    requires Cells32(ns) && k < |ns| && Holds(b, at, CellBytes(ns))
    ensures at + 4 * k + 4 <= |b| && Cell(b, at + 4 * k) == ns[k]
    decreases k
  {
    HoldsParts(b, at, Be32(ns[0]), CellBytes(ns[1..]));
    if k == 0 {
      CellHeld(b, at, ns[0]);
    } else {
      CellOfList(b, at + 4, ns[1..], k - 1);
    }
  }

  /** Where the five parts of a blob stand. */
  lemma {:induction false} FiveParts(b: seq<Byte>, head: seq<Byte>, reservations: seq<Byte>, structure: seq<Byte>,
                                     strings: seq<Byte>, tail: seq<Byte>)
    requires b == head + (reservations + (structure + (strings + tail)))
    ensures Holds(b, 0, head) && Holds(b, |head| + |reservations|, structure)
    ensures Holds(b, |head| + |reservations| + |structure|, strings)
  {
    assert b[0..|b|] == b;
    HoldsParts(b, 0, head, reservations + (structure + (strings + tail)));
    HoldsParts(b, |head|, reservations, structure + (strings + tail));
    HoldsParts(b, |head| + |reservations|, structure, strings + tail);
    HoldsParts(b, |head| + |reservations| + |structure|, strings, tail);
  }

  lemma {:induction false} ImageParts(i: Image)
    requires Proper(i)
    ensures var b := ImageBytes(i);
            && Holds(b, 0, CellBytes(HeaderCells(i)))
            && Holds(b, Start(i), Structure(i)) && Holds(b, Start(i) + |Structure(i)|, i.strings)
            && |b| >= Start(i) + |Structure(i)| + |i.strings|
  {
    hide Bytes, Tokens;
    CellsSize(HeaderCells(i));
    FiveParts(ImageBytes(i), CellBytes(HeaderCells(i)), i.reservations, Structure(i), i.strings, i.tail);
  }

  /** The header of a blob that starts with these cells. */
  lemma {:induction false} HeaderHeld(b: seq<Byte>, ns: seq<int>)
    requires Cells32(ns) && |ns| == 10 && Holds(b, 0, CellBytes(ns))
    ensures |b| >= 40 && ParseHeader(b) == HeaderOf(|b|, ns[0], ns[1], ns[2], ns[3], ns[8], ns[9])
  {
    hide CellBytes;
    CellOfList(b, 0, ns, 0);
    CellOfList(b, 0, ns, 1);
    CellOfList(b, 0, ns, 2);
    CellOfList(b, 0, ns, 3);
    CellOfList(b, 0, ns, 8);
    CellOfList(b, 0, ns, 9);
  }

  lemma {:induction false} ImageHeader(i: Image)
    requires Proper(i)
    ensures ParseHeader(ImageBytes(i)) ==
            Some(Header(Start(i), Start(i) + |Structure(i)|, Start(i) + |Structure(i)|,
                        Start(i) + |Structure(i)| + |i.strings|))
  {
    hide Bytes, Tokens;
    ImageParts(i);
    HeaderHeld(ImageBytes(i), HeaderCells(i));
  }

  /** The items of a blob: the nodes and properties of its tree, and the end token. */
  function ImageItems(i: Image): seq<Item> {
    Listed(i.root, Start(i), []) + [Finish(Start(i) + Length(Tokens(i.root)))]
  }

  lemma {:induction false} WalkEnds(b: seq<Byte>, strings: seq<Byte>, at: nat)
    requires at + 4 <= |b| && Cell(b, at) == 9
    ensures Walk(b, strings, at + 4, at, []) == Some([Finish(at)])
  {
  }

  lemma {:induction false} TokensWalked(b: seq<Byte>, strings: seq<Byte>, at: nat, tokens: seq<Token>)
    requires AllWritable(tokens, strings) && at % 4 == 0 && StackAfter(tokens, []) == []
    requires AllStand(b, at, tokens) && at + Length(tokens) + 4 <= |b| && Cell(b, at + Length(tokens)) == 9
    ensures Walk(b, strings, at + Length(tokens) + 4, at, []) ==
            Some(ItemsOf(tokens, at, []) + [Finish(at + Length(tokens))])
  {
    hide AllStand, ItemsOf, Length, Cell, StackAfter;
    var stop := at + Length(tokens);
    WalkEnds(b, strings, stop);
    WalkTokens(b, strings, stop + 4, at, [], tokens, Some([Finish(stop)]));
  }

  /** What is read from a blob with these parts. */
  lemma {:induction false} ItemsOfParts(b: seq<Byte>, start: nat, size: nat, strings: seq<Byte>, items: seq<Item>)
    requires ParseHeader(b) == Some(Header(start, start + size, start + size, start + size + |strings|))
    requires Holds(b, start + size, strings) && 40 <= start
    requires Walk(b, strings, start + size, start, []) == Some(items)
    requires items != [] && items[|items| - 1].Finish?
    ensures Items(b) == Some(items) && WellFormed(b)
  {
  }

  /** The tokens of a stored tree stand in the blob, the end token behind them. */
  lemma {:induction false} StructureStands(b: seq<Byte>, at: nat, tokens: seq<Token>, strings: seq<Byte>,
                                           structure: seq<Byte>)
    requires AllWritable(tokens, strings) && structure == Bytes(tokens, strings) + Be32(9)
    requires Holds(b, at, structure)
    ensures |structure| == Length(tokens) + 4 && AllStand(b, at, tokens)
    ensures at + Length(tokens) + 4 <= |b| && Cell(b, at + Length(tokens)) == 9
  {
    HoldsParts(b, at, Bytes(tokens, strings), Be32(9));
    BytesStand(b, at, tokens, strings);
    CellHeld(b, at + Length(tokens), 9);
  }

  lemma {:induction false} ItemsOfTokens(b: seq<Byte>, start: nat, tokens: seq<Token>, strings: seq<Byte>)
    requires AllWritable(tokens, strings) && StackAfter(tokens, []) == [] && start % 4 == 0 && 40 <= start
    requires AllStand(b, start, tokens)
    requires start + Length(tokens) + 4 <= |b| && Cell(b, start + Length(tokens)) == 9
    requires var end := start + Length(tokens) + 4;
             && Holds(b, end, strings) && ParseHeader(b) == Some(Header(start, end, end, end + |strings|))
    ensures Items(b) == Some(ItemsOf(tokens, start, []) + [Finish(start + Length(tokens))]) && WellFormed(b)
  {
    hide Walk, ItemsOf, StackAfter, AllStand, AllWritable, Length, Cell;
    TokensWalked(b, strings, start, tokens);
    ItemsOfParts(b, start, Length(tokens) + 4, strings, ItemsOf(tokens, start, []) + [Finish(start + Length(tokens))]);
  }

  lemma {:induction false} ImageStands(i: Image)
    requires Proper(i)
    ensures var (b, tokens) := (ImageBytes(i), Tokens(i.root));
            var stop := Start(i) + Length(tokens);
            && |Structure(i)| == Length(tokens) + 4 && Start(i) % 4 == 0 && AllStand(b, Start(i), tokens)
            && stop + 4 <= |b| && Cell(b, stop) == 9 && Holds(b, stop + 4, i.strings)
  {
    hide ImageBytes, Bytes, Tokens, AllStand, Length, Cell, Be32;
    ImageParts(i);
    StructureStands(ImageBytes(i), Start(i), Tokens(i.root), i.strings, Structure(i));
  }

  /** The k-th item of a blob is what the walk takes from the k-th token. */
  lemma {:induction false} ImageItemAt(i: Image, k: nat)
    requires k < |Tokens(i.root)|
    ensures |ImageItems(i)| == |Tokens(i.root)| + 1
    ensures ImageItems(i)[k] ==
            ItemOf(Tokens(i.root)[k], Start(i) + Length(Tokens(i.root)[..k]), StackAfter(Tokens(i.root)[..k], []))
  {
    hide Tokens, Length, Listed, ItemsOf, StackAfter;
    ItemsAreListed(i.root, Start(i), []);
    ItemAt(Tokens(i.root), Start(i), [], k);
  }

  lemma {:induction false} CountedItems(i: Image)
    ensures |ImageItems(i)| == |Tokens(i.root)| + 1 && ImageItems(i)[|Tokens(i.root)|].Finish?
  {
    hide Tokens, Length, Listed, ItemsOf;
    ItemsAreListed(i.root, Start(i), []);
    ItemCount(Tokens(i.root), Start(i), []);
  }

  /** Reading a stored tree gives exactly its nodes and properties, with their paths, lengths and places. */
  lemma {:induction false} ReadsBack(i: Image)
    requires Proper(i)
    ensures Items(ImageBytes(i)) == Some(ImageItems(i))
    ensures WellFormed(ImageBytes(i))
  {
    hide Items, WellFormed, ParseHeader, ImageBytes, Structure, AllStand, Tokens, Listed, ItemsOf, Length, Cell;
    ImageStands(i);
    ImageHeader(i);
    Balanced(i.root, []);
    ItemsAreListed(i.root, Start(i), []);
    ItemsOfTokens(ImageBytes(i), Start(i), Tokens(i.root), i.strings);
  }

  // ----- the patched tree -----

  /** Every requested value is a cell. */
  predicate Requestable(requested: map<Name, int>) {
    forall name <- requested :: 0 <= requested[name] < 0x1_0000_0000
  }

  function NewValue(name: Name, value: seq<Byte>, requested: map<Name, int>): seq<Byte>
    requires Requestable(requested)
  {
    if name in requested then Be32(requested[name]) else value
  }

  /** The tree with the requested cells. */
  function PatchedTree(c: Content, requested: map<Name, int>): Content
    requires Requestable(requested)
  {
    match c
    case Nothing => Nothing
    case Property(name, nameAt, value, rest) =>
      Property(name, nameAt, NewValue(name, value, requested), PatchedTree(rest, requested))
    case Node(name, inside, rest) => Node(name, PatchedTree(inside, requested), PatchedTree(rest, requested))
    case Filler(rest) => Filler(PatchedTree(rest, requested))
  }

  function PatchedToken(t: Token, requested: map<Name, int>): Token
    requires Requestable(requested)
  {
    if t.Value? then t.(value := NewValue(t.name, t.value, requested)) else t
  }

  function PatchedTokens(tokens: seq<Token>, requested: map<Name, int>): seq<Token>
    requires Requestable(requested)
  {
    if tokens == [] then [] else [PatchedToken(tokens[0], requested)] + PatchedTokens(tokens[1..], requested)
  }

  lemma {:induction false} PatchedConcat(a: seq<Token>, b: seq<Token>, requested: map<Name, int>)
    requires Requestable(requested)
    ensures PatchedTokens(a + b, requested) == PatchedTokens(a, requested) + PatchedTokens(b, requested)
    decreases |a|
  {
    if a == [] {
      assert a + b == b;
    } else {
      assert (a + b)[0] == a[0] && (a + b)[1..] == a[1..] + b;
      PatchedConcat(a[1..], b, requested);
    }
  }

  lemma {:induction false} OneMore(t: Token, tokens: seq<Token>, requested: map<Name, int>)
    requires Requestable(requested)
    ensures PatchedTokens([t] + tokens, requested) == [PatchedToken(t, requested)] + PatchedTokens(tokens, requested)
  {
    assert ([t] + tokens)[1..] == tokens;
  }

  /** The tokens of the patched tree are those of the tree, patched. */
  lemma {:induction false} TokensPatched(c: Content, requested: map<Name, int>)
    requires Requestable(requested)
    ensures Tokens(PatchedTree(c, requested)) == PatchedTokens(Tokens(c), requested)
    decreases c
  {
    match c {
      case Nothing =>
      case Property(name, nameAt, value, rest) =>
        TokensPatched(rest, requested);
        OneMore(Value(name, nameAt, value), Tokens(rest), requested);
      case Node(name, inside, rest) =>
        TokensPatched(inside, requested);
        TokensPatched(rest, requested);
        OneMore(Open(name), Tokens(inside) + ([Close] + Tokens(rest)), requested);
        PatchedConcat(Tokens(inside), [Close] + Tokens(rest), requested);
        OneMore(Close, Tokens(rest), requested);
      case Filler(rest) =>
        TokensPatched(rest, requested);
        OneMore(Skip, Tokens(rest), requested);
    }
  }

  predicate TokenTouched(t: Token, requested: map<Name, int>) {
    t.Value? && t.name in requested
  }

  /** Every requested property is one cell. */
  predicate CellsOnly(tokens: seq<Token>, requested: map<Name, int>) {
    forall i :: 0 <= i < |tokens| && TokenTouched(tokens[i], requested) ==> |tokens[i].value| == 4
  }

  lemma {:induction false} StillWritable(tokens: seq<Token>, strings: seq<Byte>, requested: map<Name, int>)
    requires AllWritable(tokens, strings) && Requestable(requested)
    ensures AllWritable(PatchedTokens(tokens, requested), strings)
    decreases |tokens|
  {
    if tokens != [] {
      StillWritable(tokens[1..], strings, requested);
    }
  }

  /** A property of one cell, and the same with another cell. */
  lemma {:induction false} PropertyPatched(nameAt: nat, old': seq<Byte>, new': seq<Byte>)
    requires nameAt < 0x1_0000_0000 && |old'| == 4 && |new'| == 4
    ensures var x, y := TokenBytes(Value([], nameAt, old')), TokenBytes(Value([], nameAt, new'));
            && |x| == |y| == 16 && y[12..16] == new'
            && forall j :: 0 <= j < 12 ==> x[j] == y[j]
  {
    assert Zeros(4) == [];
    var head := Be32(3) + (Be32(4) + Be32(nameAt));
    assert TokenBytes(Value([], nameAt, old')) == head + old';
    assert TokenBytes(Value([], nameAt, new')) == head + new';
  }

  lemma {:induction false} TokenPatched(t: Token, requested: map<Name, int>, strings: seq<Byte>)
    requires Writable(t, strings) && Requestable(requested)
    requires TokenTouched(t, requested) ==> |t.value| == 4
    ensures Writable(PatchedToken(t, requested), strings)
    ensures var x, y := TokenBytes(t), TokenBytes(PatchedToken(t, requested));
            && |x| == |y| == TokenLength(t)
            && (!TokenTouched(t, requested) ==> x == y)
            && (TokenTouched(t, requested) ==>
                  && |x| == 16 && y[12..16] == Be32(requested[t.name])
                  && forall j :: 0 <= j < 12 ==> x[j] == y[j])
  {
    TokenSize(t, strings);
    if TokenTouched(t, requested) {
      PropertyPatched(t.nameAt, t.value, Be32(requested[t.name]));
    }
  }

  lemma {:induction false} TokenSize(t: Token, strings: seq<Byte>)
    requires Writable(t, strings)
    ensures |TokenBytes(t)| == TokenLength(t)
  {
    var b := TokenBytes(t);
    assert b[0..|b|] == b;
    TokenStands(b, 0, t, strings);
  }

  /** The structure blocks of a tree and of the patched tree: as long, and different in the requested cells only. */
  lemma {:induction false} SameLength(tokens: seq<Token>, requested: map<Name, int>, strings: seq<Byte>)
    requires AllWritable(tokens, strings) && Requestable(requested) && CellsOnly(tokens, requested)
    requires AllWritable(PatchedTokens(tokens, requested), strings)
    ensures |Bytes(PatchedTokens(tokens, requested), strings)| == |Bytes(tokens, strings)| == Length(tokens)
    decreases |tokens|
  {
    if tokens != [] {
      TokenPatched(tokens[0], requested, strings);
      StillWritable(tokens[1..], strings, requested);
      SameLength(tokens[1..], requested, strings);
    }
  }

  lemma {:induction false} ByteKept(tokens: seq<Token>, at: nat, stack: seq<Name>, requested: map<Name, int>,
                                    strings: seq<Byte>, j: nat)
    requires AllWritable(tokens, strings) && Requestable(requested) && CellsOnly(tokens, requested)
    requires AllWritable(PatchedTokens(tokens, requested), strings)
    requires j < |Bytes(tokens, strings)| == |Bytes(PatchedTokens(tokens, requested), strings)|
    requires !InCells(ItemsOf(tokens, at, stack), requested, at + j)
    ensures Bytes(PatchedTokens(tokens, requested), strings)[j] == Bytes(tokens, strings)[j]
    decreases |tokens|
  {
    hide TokenBytes, Be32, Path;
    var t := tokens[0];
    var next, open := at + TokenLength(t), OpenAfter(t, stack);
    var items, rest := ItemsOf(tokens, at, stack), ItemsOf(tokens[1..], next, open);
    TokenPatched(t, requested, strings);
    StillWritable(tokens[1..], strings, requested);
    SameLength(tokens[1..], requested, strings);
    if j < TokenLength(t) {
      assert !InCell(items[0], requested, at + j);
    } else {
      forall k | 0 <= k < |rest|
        ensures !InCell(rest[k], requested, at + j)
      {
        assert items[k + 1] == rest[k];
      }
      ByteKept(tokens[1..], next, open, requested, strings, j - TokenLength(t));
    }
  }

  // ----- patching a blob -----

  /** The value of a cell. */
  function Value32(value: seq<Byte>): nat
    requires |value| == 4
  {
    value[0] as int * 0x1000000 + value[1] as int * 0x10000 + value[2] as int * 0x100 + value[3] as int
  }

  /**
   The patch goes through on a tree: every requested property is there, and each one of that name is a cell
   with the expected value, if one was expected.
   */
  predicate TreeFits(c: Content, requested: map<Name, int>, expected: map<Name, int>) {
    && Requestable(requested)
    && (forall name <- requested :: exists t :: t in Tokens(c) && t.Value? && t.name == name)
    && (forall t :: t in Tokens(c) && TokenTouched(t, requested) ==>
          |t.value| == 4 && (t.name in expected ==> Value32(t.value) == expected[t.name]))
  }

  /** Where the k-th token stands, and which nodes are open there. */
  lemma {:induction false} ItemAt(tokens: seq<Token>, at: nat, stack: seq<Name>, k: nat)
    requires k < |tokens|
    ensures |ItemsOf(tokens, at, stack)| == |tokens|
    ensures ItemsOf(tokens, at, stack)[k] ==
            ItemOf(tokens[k], at + Length(tokens[..k]), StackAfter(tokens[..k], stack))
    decreases k
  {
    ItemCount(tokens, at, stack);
    if k > 0 {
      ItemAt(tokens[1..], at + TokenLength(tokens[0]), OpenAfter(tokens[0], stack), k - 1);
      assert tokens[..k][0] == tokens[0] && tokens[..k][1..] == tokens[1..][..k - 1];
    }
  }

  lemma {:induction false} ItemCount(tokens: seq<Token>, at: nat, stack: seq<Name>)
    ensures |ItemsOf(tokens, at, stack)| == |tokens|
    decreases |tokens|
  {
    if tokens != [] {
      ItemCount(tokens[1..], at + TokenLength(tokens[0]), OpenAfter(tokens[0], stack));
    }
  }

  lemma {:induction false} StandsAt(b: seq<Byte>, at: nat, tokens: seq<Token>, k: nat)
    requires AllStand(b, at, tokens) && k < |tokens|
    ensures Stands(b, at + Length(tokens[..k]), tokens[k])
    decreases k
  {
    if k > 0 {
      StandsAt(b, at + TokenLength(tokens[0]), tokens[1..], k - 1);
      assert tokens[..k][0] == tokens[0] && tokens[..k][1..] == tokens[1..][..k - 1];
    }
  }

  lemma {:induction false} PatchedAt(tokens: seq<Token>, requested: map<Name, int>, k: nat)
    requires Requestable(requested) && k < |tokens| && CellsOnly(tokens, requested)
    ensures var patched := PatchedTokens(tokens, requested);
            && |patched| == |tokens| && patched[k] == PatchedToken(tokens[k], requested)
            && Length(patched[..k]) == Length(tokens[..k])
    decreases |tokens|
  {
    var patched := PatchedTokens(tokens, requested);
    PatchedCount(tokens, requested);
    if k > 0 {
      PatchedAt(tokens[1..], requested, k - 1);
      assert tokens[..k][1..] == tokens[1..][..k - 1] && patched[..k][1..] == patched[1..][..k - 1];
      assert TokenLength(patched[0]) == TokenLength(tokens[0]);
    }
  }

  lemma {:induction false} PatchedCount(tokens: seq<Token>, requested: map<Name, int>)
    requires Requestable(requested)
    ensures |PatchedTokens(tokens, requested)| == |tokens|
    decreases |tokens|
  {
    if tokens != [] {
      PatchedCount(tokens[1..], requested);
    }
  }

  function Patched(i: Image, requested: map<Name, int>): Image
    requires Requestable(requested)
  {
    i.(root := PatchedTree(i.root, requested))
  }

  lemma {:induction false} FitsAreCells(c: Content, requested: map<Name, int>, expected: map<Name, int>)
    requires TreeFits(c, requested, expected)
    ensures Requestable(requested) && CellsOnly(Tokens(c), requested)
  {
  }

  /** The patched blob is a blob of the same layout. */
  lemma {:induction false} PatchedIsProper(i: Image, requested: map<Name, int>)
    requires Proper(i) && Requestable(requested) && CellsOnly(Tokens(i.root), requested)
    ensures Proper(Patched(i, requested)) && Start(Patched(i, requested)) == Start(i)
    ensures |Structure(Patched(i, requested))| == |Structure(i)| == Length(Tokens(i.root)) + 4
    ensures HeaderCells(Patched(i, requested)) == HeaderCells(i)
    ensures AllWritable(PatchedTokens(Tokens(i.root), requested), i.strings)
    ensures Structure(Patched(i, requested)) == Bytes(PatchedTokens(Tokens(i.root), requested), i.strings) + Be32(9)
  {
    hide Bytes, Tokens, PatchedTree, PatchedTokens, Length, Be32;
    TokensPatched(i.root, requested);
    StillWritable(Tokens(i.root), i.strings, requested);
    SameLength(Tokens(i.root), requested, i.strings);
  }

  /** Two blobs that differ in their structure block only. */
  lemma {:induction false} OtherStructure(head: seq<Byte>, reservations: seq<Byte>, x: seq<Byte>, y: seq<Byte>,
                                          more: seq<Byte>, p: nat)
    requires |x| == |y| && p < |head + (reservations + (x + more))|
    ensures var b, c := head + (reservations + (x + more)), head + (reservations + (y + more));
            var start := |head| + |reservations|;
            && |c| == |b|
            && if start <= p < start + |x| then b[p] == x[p - start] && c[p] == y[p - start] else c[p] == b[p]
  {
  }

  /** A byte outside the requested cells is as it was. */
  lemma {:induction false} KeptByte(i: Image, requested: map<Name, int>, p: nat)
    requires Proper(i) && Requestable(requested) && CellsOnly(Tokens(i.root), requested)
    requires Proper(Patched(i, requested)) && p < |ImageBytes(i)|
    requires !InCells(ImageItems(i), requested, p)
    ensures |ImageBytes(Patched(i, requested))| == |ImageBytes(i)|
    ensures ImageBytes(Patched(i, requested))[p] == ImageBytes(i)[p]
  {
    hide Bytes, Tokens, PatchedTree, PatchedTokens, Length, Be32, Listed, ItemsOf, InCells, CellBytes;
    var x, y := Structure(i), Structure(Patched(i, requested));
    PatchedIsProper(i, requested);
    CellsSize(HeaderCells(i));
    OtherStructure(CellBytes(HeaderCells(i)), i.reservations, x, y, i.strings + i.tail, p);
    if Start(i) <= p < Start(i) + |x| {
      StructureByte(i, requested, p - Start(i));
    }
  }

  lemma {:induction false} StructureByte(i: Image, requested: map<Name, int>, j: nat)
    requires Proper(i) && Requestable(requested) && CellsOnly(Tokens(i.root), requested)
    requires Proper(Patched(i, requested)) && j < |Structure(i)|
    requires !InCells(ImageItems(i), requested, Start(i) + j)
    ensures |Structure(Patched(i, requested))| == |Structure(i)|
    ensures Structure(Patched(i, requested))[j] == Structure(i)[j]
  {
    hide Bytes, Tokens, PatchedTree, PatchedTokens, Length, Be32, Listed, ItemsOf, InCells;
    var tokens := Tokens(i.root);
    PatchedIsProper(i, requested);
    StillWritable(tokens, i.strings, requested);
    SameLength(tokens, requested, i.strings);
    ItemsAreListed(i.root, Start(i), []);
    NotInPart(Listed(i.root, Start(i), []), Finish(Start(i) + Length(tokens)), requested, Start(i) + j);
    if j < Length(tokens) {
      ByteKept(tokens, Start(i), [], requested, i.strings, j);
    }
  }

  /** A requested cell holds its value. */
  lemma {:induction false} WrittenCell(i: Image, requested: map<Name, int>, k: nat)
    requires Proper(i) && Requestable(requested) && CellsOnly(Tokens(i.root), requested)
    requires Proper(Patched(i, requested)) && k < |ImageItems(i)| && Touched(ImageItems(i)[k], requested)
    ensures var item, after := ImageItems(i)[k], ImageBytes(Patched(i, requested));
            item.value + 4 <= |after| && Cell(after, item.value) == requested[item.name]
  {
    hide Tokens, PatchedTree, PatchedTokens, Length, Be32, ImageItems, ImageBytes, Cell, Structure, Stands, AllStand,
      StackAfter, Path, Proper;
    var tokens, after := Tokens(i.root), ImageBytes(Patched(i, requested));
    CountedItems(i);
    ImageItemAt(i, k);
    PatchedAt(tokens, requested, k);
    ImageStands(Patched(i, requested));
    TokensPatched(i.root, requested);
    StandsAt(after, Start(i), PatchedTokens(tokens, requested), k);
    ValueHeld(after, Start(i) + Length(tokens[..k]), tokens[k], requested);
  }

  lemma {:induction false} ValueHeld(b: seq<Byte>, at: nat, t: Token, requested: map<Name, int>)
    requires Requestable(requested) && TokenTouched(t, requested) && Stands(b, at, PatchedToken(t, requested))
    ensures at + 16 <= |b| && Cell(b, at + 12) == requested[t.name]
  {
    hide Cell, Be32;
    CellHeld(b, at + 12, requested[t.name]);
  }

  /** The blob of the patched tree is what patching the blob has to give. */
  lemma {:induction false} PatchedBlob(i: Image, requested: map<Name, int>)
    requires Proper(i) && Requestable(requested) && CellsOnly(Tokens(i.root), requested)
    ensures Proper(Patched(i, requested))
    ensures PatchedBy(ImageBytes(i), ImageBytes(Patched(i, requested)), ImageItems(i), requested)
  {
    hide ImageBytes, ImageItems, Proper, Tokens, InCells, Cell;
    PatchedIsProper(i, requested);
    var b, after, items := ImageBytes(i), ImageBytes(Patched(i, requested)), ImageItems(i);
    SameSize(i, requested);
    forall p | 0 <= p < |b| && !InCells(items, requested, p)
      ensures after[p] == b[p]
    {
      KeptByte(i, requested, p);
    }
    forall k | 0 <= k < |items| && Touched(items[k], requested)
      ensures items[k].value + 4 <= |b| && Cell(after, items[k].value) == requested[items[k].name]
    {
      WrittenCell(i, requested, k);
    }
  }

  lemma {:induction false} SameSize(i: Image, requested: map<Name, int>)
    requires Proper(i) && Requestable(requested) && CellsOnly(Tokens(i.root), requested)
    requires Proper(Patched(i, requested))
    ensures |ImageBytes(Patched(i, requested))| == |ImageBytes(i)|
  {
    hide Bytes, Tokens, PatchedTree, PatchedTokens, Length, Be32, CellBytes;
    PatchedIsProper(i, requested);
  }

  /** Only one blob can be the result of a patch. */
  lemma {:induction false} OneResult(b: seq<Byte>, x: seq<Byte>, y: seq<Byte>, items: seq<Item>,
                                     requested: map<Name, int>)
    requires PatchedBy(b, x, items, requested) && PatchedBy(b, y, items, requested)
    ensures x == y
  {
    hide Cell;
    forall p | 0 <= p < |b|
      ensures x[p] == y[p]
    {
      if InCells(items, requested, p) {
        var k :| 0 <= k < |items| && InCell(items[k], requested, p);
        CellDecides(x, y, items[k].value);
      }
    }
  }

  /** A cell holds the value of a property that is one cell. */
  lemma {:induction false} CellOfValue(b: seq<Byte>, at: nat, value: seq<Byte>)
    requires |value| == 4 && Holds(b, at, value)
    ensures at + 4 <= |b| && Cell(b, at) == Value32(value)
  {
    assert b[at..at + 4] == value;
    assert b[at] == value[0] && b[at + 1] == value[1] && b[at + 2] == value[2] && b[at + 3] == value[3];
  }

  predicate TokenFits(t: Token, requested: map<Name, int>, expected: map<Name, int>) {
    TokenTouched(t, requested) ==>
      && |t.value| == 4 && (t.name in expected ==> Value32(t.value) == expected[t.name])
      && 0 <= requested[t.name] < 0x1_0000_0000
  }

  lemma {:induction false} ItemFits(b: seq<Byte>, at: nat, stack: seq<Name>, t: Token, requested: map<Name, int>,
                                    expected: map<Name, int>)
    requires Stands(b, at, t)
    ensures ItemOk(b, ItemOf(t, at, stack), requested, expected) <==> TokenFits(t, requested, expected)
  {
    hide Cell, Path;
    if t.Value? && |t.value| == 4 {
      CellOfValue(b, at + 12, t.value);
    }
  }

  /** What the patcher checks of the k-th item it reads is what the k-th token says. */
  lemma {:induction false} ItemFitsAt(i: Image, requested: map<Name, int>, expected: map<Name, int>, k: nat)
    requires Proper(i) && k < |Tokens(i.root)|
    ensures |ImageItems(i)| == |Tokens(i.root)| + 1
    ensures var (item, t) := (ImageItems(i)[k], Tokens(i.root)[k]);
            && (ItemOk(ImageBytes(i), item, requested, expected) <==> TokenFits(t, requested, expected))
            && item.Prop? == t.Value? && (t.Value? ==> item.name == t.name)
  {
    hide Tokens, Length, ImageItems, ImageBytes, Cell, Structure, ItemOk, TokenFits, AllStand, Stands, StackAfter, Path,
      Proper;
    var tokens := Tokens(i.root);
    ImageItemAt(i, k);
    ImageStands(i);
    StandsAt(ImageBytes(i), Start(i), tokens, k);
    ItemFits(ImageBytes(i), Start(i) + Length(tokens[..k]), StackAfter(tokens[..k], []), tokens[k], requested,
             expected);
  }

  lemma {:induction false} ItemsFit(i: Image, requested: map<Name, int>, expected: map<Name, int>)
    requires Proper(i)
    ensures ItemsOk(ImageBytes(i), ImageItems(i), requested, expected) <==>
            forall t :: t in Tokens(i.root) ==> TokenFits(t, requested, expected)
    ensures forall name :: Seen(ImageItems(i), name) <==> exists t :: t in Tokens(i.root) && t.Value? && t.name == name
  {
    hide Tokens, Listed, ImageBytes, ItemOk, TokenFits, Proper, Length;
    var items, tokens := ImageItems(i), Tokens(i.root);
    CountedItems(i);
    forall k | 0 <= k < |tokens|
      ensures ItemOk(ImageBytes(i), items[k], requested, expected) <==> TokenFits(tokens[k], requested, expected)
      ensures items[k].Prop? == tokens[k].Value? && (tokens[k].Value? ==> items[k].name == tokens[k].name)
    {
      ItemFitsAt(i, requested, expected, k);
    }
    EndIsOk(ImageBytes(i), items[|tokens|], requested, expected);
    forall name
      ensures Seen(items, name) <==> exists t :: t in tokens && t.Value? && t.name == name
    {
      if k :| 0 <= k < |items| && items[k].Prop? && items[k].name == name {
        assert tokens[k] in tokens;
      }
      if t :| t in tokens && t.Value? && t.name == name {
        var k :| 0 <= k < |tokens| && tokens[k] == t;
        assert items[k].Prop? && items[k].name == name;
      }
    }
  }

  lemma {:induction false} EndIsOk(b: seq<Byte>, item: Item, requested: map<Name, int>, expected: map<Name, int>)
    requires item.Finish?
    ensures ItemOk(b, item, requested, expected)
  {
  }

  /** The patcher accepts a stored tree exactly when the tree fits. */
  lemma {:induction false} PatchableIsFit(i: Image, requested: map<Name, int>, expected: map<Name, int>)
    requires Proper(i)
    ensures Patchable(ImageBytes(i), requested, expected) <==> TreeFits(i.root, requested, expected)
  {
    hide Tokens, ImageBytes, ImageItems, Items, WellFormed, Proper, Value32;
    ReadsBack(i);
    ItemsFit(i, requested, expected);
    if forall name <- requested :: exists t :: t in Tokens(i.root) && t.Value? && t.name == name {
      FitsIsFit(i.root, requested, expected);
    }
  }

  lemma {:induction false} FitsIsFit(c: Content, requested: map<Name, int>, expected: map<Name, int>)
    requires forall name <- requested :: exists t :: t in Tokens(c) && t.Value? && t.name == name
    ensures (forall t :: t in Tokens(c) ==> TokenFits(t, requested, expected)) <==> TreeFits(c, requested, expected)
  {
    hide Tokens, Value32;
    if forall t :: t in Tokens(c) ==> TokenFits(t, requested, expected) {
      forall name <- requested
        ensures 0 <= requested[name] < 0x1_0000_0000
      {
        var t :| t in Tokens(c) && t.Value? && t.name == name;
        assert TokenFits(t, requested, expected);
      }
    }
  }

  /**
   Patching a stored tree: it goes through exactly when every requested property is there, each one of that
   name as one cell with the expected value, and gives the stored form of the tree with the requested cells.
   */
  lemma {:induction false} PatchesTheTree(i: Image, after: seq<Byte>, requested: map<Name, int>,
                                          expected: map<Name, int>)
    requires Proper(i)
    ensures Patchable(ImageBytes(i), requested, expected) <==> TreeFits(i.root, requested, expected)
    ensures TreeFits(i.root, requested, expected) ==>
              && Proper(Patched(i, requested))
              && (PatchedBy(ImageBytes(i), after, Items(ImageBytes(i)).value, requested) <==>
                  after == ImageBytes(Patched(i, requested)))
  {
    hide Tokens, ImageBytes, ImageItems, Items, WellFormed, Proper, Value32, PatchedBy, TreeFits;
    PatchableIsFit(i, requested, expected);
    ReadsBack(i);
    if TreeFits(i.root, requested, expected) {
      FitsAreCells(i.root, requested, expected);
      PatchedBlob(i, requested);
      if PatchedBy(ImageBytes(i), after, ImageItems(i), requested) {
        OneResult(ImageBytes(i), after, ImageBytes(Patched(i, requested)), ImageItems(i), requested);
      }
    }
  }

  // ----- a package -----

  /** Where the table of a package has the name and the place of its k-th entry. */
  function NamePlace(k: nat): nat
    requires k < 4
  {
    if k == 0 then 0x40 else if k == 1 then 0x1B0 else if k == 2 then 0x320 else 0x490
  }

  /** The little-endian number at `p`. */
  function Le32(b: seq<Byte>, p: nat): nat
    requires p + 4 <= |b|
  {
    b[p] as int + b[p + 1] as int * 0x100 + b[p + 2] as int * 0x10000 + b[p + 3] as int * 0x1000000
  }

  /** The k-th entry of the table. */
  predicate Entry(b: seq<Byte>, k: nat, name: Name, offset: nat, length: nat)
    requires k < 4
  {
    var p := NamePlace(k);
    && |b| >= p + 0x48 && Plain(name) && |name| < 16 && Holds(b, p, name + [0])
    && Le32(b, p + 0x40) == offset && Le32(b, p + 0x44) == length
  }

  lemma {:induction false} EntryRead(b: seq<Byte>, k: nat, name: Name, offset: nat, length: nat)
    requires k < 4 && Entry(b, k, name, offset, length)
    ensures CString(b, ENTRIES[k].0, ENTRIES[k].0 + 16) == Some(name) && ENTRIES[k].1 + 8 <= |b|
    ensures Field(b, ENTRIES[k].1) == offset && Field(b, ENTRIES[k].1 + 4) == length
  {
    NameHeld(b, NamePlace(k), name, NamePlace(k) + 16);
  }

  /** The entry named dtb is found behind any entries with other names. */
  lemma {:induction false} EntryFound(b: seq<Byte>, others: seq<(Name, nat, nat)>, k: nat, offset: nat, length: nat)
    requires k < 4 && |others| == 4 && offset + length <= |b|
    requires forall j :: 0 <= j < k ==>
               others[j].0 != ['d' as int, 't' as int, 'b' as int] && Entry(b, j, others[j].0, others[j].1, others[j].2)
    requires Entry(b, k, ['d' as int, 't' as int, 'b' as int], offset, length)
    ensures FindFrom(b, 0) == Some((offset, length))
  {
    EntryRead(b, k, ['d' as int, 't' as int, 'b' as int], offset, length);
    var j := k;
    while j > 0
      invariant 0 <= j <= k
      invariant FindFrom(b, j) == Some((offset, length))
    {
      j := j - 1;
      EntryRead(b, j, others[j].0, others[j].1, others[j].2);
    }
  }

  /** A package with a stored tree as its devicetree entry, patched: the tree has the requested cells. */
  lemma {:induction false} PatchesThePackage(front: seq<Byte>, i: Image, back: seq<Byte>, now: seq<Byte>,
                                             requested: map<Name, int>, expected: map<Name, int>)
    requires Proper(i) && TreeFits(i.root, requested, expected)
    ensures Proper(Patched(i, requested)) && |front + ImageBytes(i) + back| >= |front| + |ImageBytes(i)|
    ensures EntryPatched(front + ImageBytes(i) + back, now, |front|, |ImageBytes(i)|, requested) <==>
            now == front + ImageBytes(Patched(i, requested)) + back
  {
    hide Tokens, ImageBytes, ImageItems, Items, WellFormed, Proper, Value32, PatchedBy, TreeFits;
    var b, was := ImageBytes(i), front + ImageBytes(i) + back;
    FitsAreCells(i.root, requested, expected);
    ReadsBack(i);
    SliceInside(front, b, back);
    PatchedBlob(i, requested);
    PatchesTheTree(i, ImageBytes(Patched(i, requested)), requested, expected);
    var patched := ImageBytes(Patched(i, requested));
    SameSize(i, requested);
    SliceInside(front, patched, back);
    if EntryPatched(was, now, |front|, |b|, requested) {
      PatchesTheTree(i, now[|front|..|front| + |b|], requested, expected);
      ThreeParts(front, now, b, back);
    }
  }

  /** The package has the stored tree between these parts, as the entry named dtb behind `k` others in its table. */
  ghost predicate Carries(b: seq<Byte>, front: seq<Byte>, i: Image, back: seq<Byte>, others: seq<(Name, nat, nat)>,
                          k: nat)
    requires Proper(i)
  {
    && b == front + ImageBytes(i) + back && |others| == 4 && k < 4
    && Entry(b, k, ['d' as int, 't' as int, 'b' as int], |front|, |ImageBytes(i)|)
    && forall j :: 0 <= j < k ==>
         others[j].0 != ['d' as int, 't' as int, 'b' as int] && Entry(b, j, others[j].0, others[j].1, others[j].2)
  }

  /** The patcher run on a package that carries a stored tree. */
  method PatchStored(package: array<Byte>, ghost front: seq<Byte>, ghost i: Image, ghost back: seq<Byte>,
                     ghost others: seq<(Name, nat, nat)>, ghost k: nat, requested: map<Name, int>,
                     expected: map<Name, int>)
    returns (ok: bool)
    requires Proper(i) && Carries(package[..], front, i, back, others, k) && requested != map[]
    modifies package
    ensures ok <==> TreeFits(i.root, requested, expected)
    ensures !ok ==> package[..] == old(package[..])
    ensures ok ==> Proper(Patched(i, requested)) && package[..] == front + ImageBytes(Patched(i, requested)) + back
  {
    hide Tokens, ImageBytes, ImageItems, Items, WellFormed, Proper, Value32, PatchedBy, TreeFits, EntryPatched, Entry;
    ghost var b, was := ImageBytes(i), package[..];
    SliceInside(front, b, back);
    EntryFound(was, others, k, |front|, |b|);
    assert Blob(was) == b;
    PatchableIsFit(i, requested, expected);
    var result := PatchPackage(package, requested, expected);
    ok := result.Some?;
    if ok {
      PatchesThePackage(front, i, back, package[..], requested, expected);
    }
  }

  lemma {:induction false} SliceInside(front: seq<Byte>, b: seq<Byte>, back: seq<Byte>)
    ensures var all := front + b + back;
            && all[..|front|] == front && all[|front|..|front| + |b|] == b && all[|front| + |b|..] == back
  {
  }

  lemma {:induction false} ThreeParts(front: seq<Byte>, now: seq<Byte>, b: seq<Byte>, back: seq<Byte>)
    requires |now| == |front| + |b| + |back|
    ensures now == now[..|front|] + now[|front|..|front| + |b|] + now[|front| + |b|..]
  {
  }
}
