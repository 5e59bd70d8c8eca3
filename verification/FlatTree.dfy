/** Flattened devicetrees. */
module FlatTree {
  // A tree is written as sections 5.2 to 5.5 of the Devicetree Specification lay it out, with no
  // reference to the walk that reads it.

  import opened Common
  import opened DeviceTree

  /** What stands in a node, in any order: properties, nodes, and tokens without meaning. */
  datatype Content =
    | Nothing
    | Property(name: Name, nameAt: nat, value: seq<Byte>, rest: Content)
    | Node(name: Name, inside: Content, rest: Content)
    | Filler(rest: Content)

  /** The i-th byte of a big-endian number of 32 bits. */
  function ByteAt(n: int, i: int): Byte
    requires 0 <= n < 0x1_0000_0000
  {
    if i == 0 then n / 0x1000000 else if i == 1 then n / 0x10000 % 0x100 else if i == 2 then n / 0x100 % 0x100
    else n % 0x100
  }

  function Be32(n: int): (bytes: seq<Byte>)
    requires 0 <= n < 0x1_0000_0000
    ensures |bytes| == 4
  {
    seq(4, i requires 0 <= i < 4 => ByteAt(n, i))
  }

  /** The zeros that bring a length to a multiple of four. */
  function Zeros(length: nat): seq<Byte> {
    seq((4 - length % 4) % 4, i requires 0 <= i < (4 - length % 4) % 4 => 0)
  }

  /** ASCII without a NUL. */
  predicate Plain(name: Name) {
    forall i :: 0 <= i < |name| ==> 0 < name[i] < 128
  }

  /** The name stands in the strings block at that place, with its terminator. */
  predicate NamedAt(strings: seq<Byte>, at: nat, name: Name) {
    at + |name| < |strings| && strings[at..at + |name|] == name && strings[at + |name|] == 0
  }

  /** The tokens of the structure block that carry something. */
  datatype Token =
    | Open(name: Name)
    | Close
    | Value(name: Name, nameAt: nat, value: seq<Byte>)
    | Skip

  function Tokens(c: Content): seq<Token> {
    match c
    case Nothing => []
    case Property(name, nameAt, value, rest) => [Value(name, nameAt, value)] + Tokens(rest)
    case Node(name, inside, rest) => [Open(name)] + (Tokens(inside) + ([Close] + Tokens(rest)))
    case Filler(rest) => [Skip] + Tokens(rest)
  }

  predicate Writable(t: Token, strings: seq<Byte>) {
    && ((t.Open? || t.Value?) ==> Plain(t.name))
    && (t.Value? ==> NamedAt(strings, t.nameAt, t.name) && t.nameAt < 0x1_0000_0000 && |t.value| < 0x1_0000_0000)
  }

  predicate AllWritable(tokens: seq<Token>, strings: seq<Byte>) {
    forall i :: 0 <= i < |tokens| ==> Writable(tokens[i], strings)
  }

  /** A token as section 5.4.1 lays it out, padded to a multiple of four bytes. */
  function TokenBytes(t: Token): seq<Byte>
    requires t.Value? ==> t.nameAt < 0x1_0000_0000 && |t.value| < 0x1_0000_0000
  {
    match t
    case Open(name) => Be32(1) + ((name + [0]) + Zeros(|name| + 1))
    case Close => Be32(2)
    case Value(_, nameAt, value) => Be32(3) + (Be32(|value|) + (Be32(nameAt) + (value + Zeros(|value|))))
    case Skip => Be32(4)
  }

  function Bytes(tokens: seq<Token>, strings: seq<Byte>): seq<Byte>
    requires AllWritable(tokens, strings)
  {
    if tokens == [] then [] else TokenBytes(tokens[0]) + Bytes(tokens[1..], strings)
  }

  /** A length with its padding. */
  function Padded(length: nat): nat {
    (length + 3) / 4 * 4
  }

  lemma {:induction false} ZerosPad(length: nat)
    ensures length + |Zeros(length)| == Padded(length)
  {
  }

  function TokenLength(t: Token): nat {
    match t
    case Open(name) => 4 + Padded(|name| + 1)
    case Value(_, _, value) => 12 + Padded(|value|)
    case _ => 4
  }

  function Length(tokens: seq<Token>): nat {
    if tokens == [] then 0 else TokenLength(tokens[0]) + Length(tokens[1..])
  }

  lemma {:induction false} LengthConcat(a: seq<Token>, b: seq<Token>)
    ensures Length(a + b) == Length(a) + Length(b)
    decreases |a|
  {
    if a == [] {
      assert a + b == b;
    } else {
      assert (a + b)[1..] == a[1..] + b;
      LengthConcat(a[1..], b);
    }
  }

  /** The properties and nodes in the order of the text, each with its path, its length and its place. */
  function Listed(c: Content, at: nat, path: seq<Name>): seq<Item> {
    match c
    case Nothing => []
    case Property(name, _, value, rest) =>
      [Prop(at, path, name, |value|, at + 12)] + Listed(rest, at + 12 + Padded(|value|), path)
    case Node(name, inside, rest) =>
      var start := at + 4 + Padded(|name| + 1);
      var end := start + Length(Tokens(inside));
      [Begin(at, name)]
      + (Listed(inside, start, if name == [] then path else path + [name])
         + ([End(end)] + Listed(rest, end + 4, path)))
    case Filler(rest) => [Nop(at)] + Listed(rest, at + 4, path)
  }

  // ----- reading it back -----

  predicate Holds(b: seq<Byte>, at: nat, s: seq<Byte>) {
    at + |s| <= |b| && b[at..at + |s|] == s
  }

  lemma {:induction false} HoldsParts(b: seq<Byte>, at: nat, s: seq<Byte>, t: seq<Byte>)
    requires Holds(b, at, s + t)
    ensures Holds(b, at, s) && Holds(b, at + |s|, t)
  {
    var both := s + t;
    assert b[at..at + |both|] == both;
    assert both[..|s|] == s && both[|s|..] == t;
    assert b[at..at + |s|] == b[at..at + |both|][..|s|];
    assert b[at + |s|..at + |s| + |t|] == b[at..at + |both|][|s|..];
  }

  lemma {:induction false} CellHeld(b: seq<Byte>, at: nat, n: nat)
    requires n < 0x1_0000_0000 && Holds(b, at, Be32(n))
    ensures at + 4 <= |b| && Cell(b, at) == n
  {
    var s := Be32(n);
    assert b[at..at + 4] == s;
    assert b[at] == s[0] && b[at + 1] == s[1] && b[at + 2] == s[2] && b[at + 3] == s[3];
    FourBytes(n);
  }

  lemma {:induction false} FourBytes(n: nat)
    requires n < 0x1_0000_0000
    ensures Number(n / 0x1000000, n / 0x10000 % 0x100, n / 0x100 % 0x100, n % 0x100) == n
  {
    assert n == n / 0x100 * 0x100 + n % 0x100;
    assert n / 0x100 == n / 0x10000 * 0x100 + n / 0x100 % 0x100;
    assert n / 0x10000 == n / 0x1000000 * 0x100 + n / 0x10000 % 0x100;
  }

  lemma {:induction false} ZeroFound(b: seq<Byte>, from: nat, to: nat, limit: nat)
    requires from <= to && to < limit && to < |b| && b[to] == 0
    requires forall i :: from <= i < to ==> b[i] != 0
    ensures FindZero(b, from, limit) == Some(to)
    decreases |b| - from
  {
    if from < to {
      ZeroFound(b, from + 1, to, limit);
    }
  }

  lemma {:induction false} NameHeld(b: seq<Byte>, at: nat, name: Name, limit: nat)
    requires Plain(name) && at + |name| < limit && Holds(b, at, name + [0])
    ensures CString(b, at, limit) == Some(name)
  {
    HoldsParts(b, at, name, [0]);
    assert b[at + |name|..at + |name| + 1] == [0];
    forall i | at <= i < at + |name|
      ensures b[i] == name[i - at]
    {
      assert b[at..at + |name|][i - at] == name[i - at];
    }
    ZeroFound(b, at, at + |name|, limit);
  }

  /** A name is read exactly when it stands there as ASCII with its terminator before the limit. */
  lemma {:induction false} NameRead(b: seq<Byte>, at: nat, name: Name, limit: nat)
    ensures CString(b, at, limit) == Some(name) <==>
            Plain(name) && at + |name| < limit && Holds(b, at, name + [0])
  {
    if Plain(name) && at + |name| < limit && Holds(b, at, name + [0]) {
      NameHeld(b, at, name, limit);
    }
    if CString(b, at, limit) == Some(name) {
      var end := FindZero(b, at, limit).value;
      assert b[at..end + 1] == name + [0];
      assert forall i :: 0 <= i < |name| ==> name[i] == b[at + i];
    }
  }

  lemma {:induction false} PaddedAligned(at: nat, length: nat)
    requires at % 4 == 0
    ensures Align4(at + length) == at + Padded(length) && (at + Padded(length)) % 4 == 0
  {
  }

  lemma {:induction false} SumAligned(at: nat, length: nat)
    requires at % 4 == 0
    ensures (at + 4) % 4 == 0 && (at + 12) % 4 == 0
    ensures Align4(at + 12 + length) == at + 12 + Padded(length) && (at + 12 + Padded(length)) % 4 == 0
    ensures Align4(at + 4 + length) == at + 4 + Padded(length) && (at + 4 + Padded(length)) % 4 == 0
  {
    PaddedAligned(at + 12, length);
    PaddedAligned(at + 4, length);
  }

  /** The token stands in the blob at that place: its cells, its name or its value. */
  predicate Stands(b: seq<Byte>, at: nat, t: Token) {
    match t
    case Open(name) => at + 4 <= |b| && Cell(b, at) == 1 && Holds(b, at + 4, name + [0])
    case Close => at + 4 <= |b| && Cell(b, at) == 2
    case Value(_, nameAt, value) =>
      && at + 12 <= |b| && Cell(b, at) == 3 && Cell(b, at + 4) == |value| && Cell(b, at + 8) == nameAt
      && Holds(b, at + 12, value)
    case Skip => at + 4 <= |b| && Cell(b, at) == 4
  }

  lemma {:induction false} TokenStands(b: seq<Byte>, at: nat, t: Token, strings: seq<Byte>)
    requires Writable(t, strings) && Holds(b, at, TokenBytes(t))
    ensures Stands(b, at, t) && |TokenBytes(t)| == TokenLength(t)
  {
    match t {
      case Open(name) =>
        HoldsParts(b, at, Be32(1), (name + [0]) + Zeros(|name| + 1));
        HoldsParts(b, at + 4, name + [0], Zeros(|name| + 1));
        CellHeld(b, at, 1);
        ZerosPad(|name| + 1);
      case Close => CellHeld(b, at, 2);
      case Value(_, nameAt, value) => ValueStands(b, at, nameAt, value);
      case Skip => CellHeld(b, at, 4);
    }
  }

  lemma {:induction false} ValueStands(b: seq<Byte>, at: nat, nameAt: nat, value: seq<Byte>)
    requires nameAt < 0x1_0000_0000 && |value| < 0x1_0000_0000
    requires Holds(b, at, Be32(3) + (Be32(|value|) + (Be32(nameAt) + (value + Zeros(|value|)))))
    ensures at + 12 <= |b| && Cell(b, at) == 3 && Cell(b, at + 4) == |value| && Cell(b, at + 8) == nameAt
    ensures Holds(b, at + 12, value) && |value + Zeros(|value|)| == Padded(|value|)
  {
    var tail := value + Zeros(|value|);
    HoldsParts(b, at, Be32(3), Be32(|value|) + (Be32(nameAt) + tail));
    HoldsParts(b, at + 4, Be32(|value|), Be32(nameAt) + tail);
    HoldsParts(b, at + 8, Be32(nameAt), tail);
    HoldsParts(b, at + 12, value, Zeros(|value|));
    CellHeld(b, at, 3);
    CellHeld(b, at + 4, |value|);
    CellHeld(b, at + 8, nameAt);
    ZerosPad(|value|);
  }

  lemma {:induction false} StringHeld(strings: seq<Byte>, at: nat, name: Name)
    requires Plain(name) && NamedAt(strings, at, name)
    ensures CString(strings, at, |strings|) == Some(name)
  {
    var end := at + |name|;
    assert strings[at..end + 1] == strings[at..end] + [strings[end]];
    NameHeld(strings, at, name, |strings|);
  }

  /** The walk takes a property as it was written. */
  lemma {:induction false} NextProperty(b: seq<Byte>, strings: seq<Byte>, end: nat, at: nat, stack: seq<Name>,
                                        name: Name, nameAt: nat, length: nat)
    requires at % 4 == 0 && Plain(name) && NamedAt(strings, nameAt, name)
    requires at + 12 <= |b| && Cell(b, at) == 3 && Cell(b, at + 4) == length && Cell(b, at + 8) == nameAt
    ensures Next(b, strings, end, at, stack) ==
            Some((Prop(at, Path(stack), name, length, at + 12), at + 12 + Padded(length), stack))
  {
    StringHeld(strings, nameAt, name);
    SumAligned(at, length);
  }

  lemma {:induction false} NextNode(b: seq<Byte>, strings: seq<Byte>, end: nat, at: nat, stack: seq<Name>, name: Name)
    requires at % 4 == 0 && Plain(name) && at + 4 + Padded(|name| + 1) <= end
    requires at + 4 <= |b| && Cell(b, at) == 1 && Holds(b, at + 4, name + [0])
    ensures Next(b, strings, end, at, stack) ==
            Some((Begin(at, name), at + 4 + Padded(|name| + 1), stack + [name]))
  {
    NameHeld(b, at + 4, name, end);
    SumAligned(at, |name| + 1);
  }

  lemma {:induction false} ThenParts(a: seq<Item>, b: seq<Item>, rest: Option<seq<Item>>)
    ensures Then(a, Then(b, rest)) == Then(a + b, rest)
  {
    if rest.Some? {
      assert a + (b + rest.value) == a + b + rest.value;
    }
  }

  lemma {:induction false} PathOpen(stack: seq<Name>, name: Name)
    ensures Path(stack + [name]) == if name == [] then Path(stack) else Path(stack) + [name]
    ensures (stack + [name])[..|stack|] == stack
  {
    var s := stack + [name];
    assert s[..|s| - 1] == stack;
    assert Path(stack) + [] == Path(stack);
  }

  /** What the walk takes from a token, and the open nodes behind it. */
  function ItemOf(t: Token, at: nat, stack: seq<Name>): Item {
    match t
    case Open(name) => Begin(at, name)
    case Close => End(at)
    case Value(name, _, value) => Prop(at, Path(stack), name, |value|, at + 12)
    case Skip => Nop(at)
  }

  function OpenAfter(t: Token, stack: seq<Name>): seq<Name> {
    match t
    case Open(name) => stack + [name]
    case Close => if stack == [] then [] else stack[..|stack| - 1]
    case _ => stack
  }

  lemma {:induction false} NextToken(b: seq<Byte>, strings: seq<Byte>, end: nat, at: nat, stack: seq<Name>, t: Token)
    requires at % 4 == 0 && Writable(t, strings) && Stands(b, at, t) && at + TokenLength(t) <= end
    ensures Next(b, strings, end, at, stack) ==
            Some((ItemOf(t, at, stack), at + TokenLength(t), OpenAfter(t, stack)))
    ensures (at + TokenLength(t)) % 4 == 0
  {
    hide Path, Padded;
    SumAligned(at, 0);
    match t {
      case Open(name) =>
        SumAligned(at, |name| + 1);
        NextNode(b, strings, end, at, stack, name);
      case Value(name, nameAt, value) =>
        SumAligned(at, |value|);
        NextProperty(b, strings, end, at, stack, name, nameAt, |value|);
      case _ =>
    }
  }

  /** The same for a list of tokens. */
  function ItemsOf(tokens: seq<Token>, at: nat, stack: seq<Name>): seq<Item> {
    if tokens == [] then []
    else
      [ItemOf(tokens[0], at, stack)]
      + ItemsOf(tokens[1..], at + TokenLength(tokens[0]), OpenAfter(tokens[0], stack))
  }

  function StackAfter(tokens: seq<Token>, stack: seq<Name>): seq<Name>
    decreases |tokens|
  {
    if tokens == [] then stack else StackAfter(tokens[1..], OpenAfter(tokens[0], stack))
  }

  /** One token other than the end, and what follows it. */
  lemma {:induction false} WalkStep(b: seq<Byte>, strings: seq<Byte>, end: nat, at: nat, stack: seq<Name>, t: Token,
                                    list: seq<Item>, behind: Option<seq<Item>>)
    requires at % 4 == 0 && Writable(t, strings) && Stands(b, at, t) && at + TokenLength(t) <= end
    requires Walk(b, strings, end, at + TokenLength(t), OpenAfter(t, stack)) == Then(list, behind)
    ensures Walk(b, strings, end, at, stack) == Then([ItemOf(t, at, stack)] + list, behind)
  {
    NextToken(b, strings, end, at, stack, t);
    ThenParts([ItemOf(t, at, stack)], list, behind);
  }

  predicate AllStand(b: seq<Byte>, at: nat, tokens: seq<Token>)
    decreases |tokens|
  {
    tokens == [] || (Stands(b, at, tokens[0]) && AllStand(b, at + TokenLength(tokens[0]), tokens[1..]))
  }

  lemma {:induction false} BytesStand(b: seq<Byte>, at: nat, tokens: seq<Token>, strings: seq<Byte>)
    requires AllWritable(tokens, strings) && Holds(b, at, Bytes(tokens, strings))
    ensures AllStand(b, at, tokens) && |Bytes(tokens, strings)| == Length(tokens)
    decreases |tokens|
  {
    hide TokenBytes, Stands, TokenLength;
    if tokens != [] {
      HoldsParts(b, at, TokenBytes(tokens[0]), Bytes(tokens[1..], strings));
      TokenStands(b, at, tokens[0], strings);
      BytesStand(b, at + TokenLength(tokens[0]), tokens[1..], strings);
    }
  }

  lemma {:induction false} LengthAligned(at: nat, tokens: seq<Token>)
    requires at % 4 == 0
    ensures (at + Length(tokens)) % 4 == 0
    decreases |tokens|
  {
    if tokens != [] {
      TokenAligned(at, tokens[0]);
      LengthAligned(at + TokenLength(tokens[0]), tokens[1..]);
    }
  }

  lemma {:induction false} TokenAligned(at: nat, t: Token)
    requires at % 4 == 0
    ensures (at + TokenLength(t)) % 4 == 0
  {
    match t {
      case Open(name) => SumAligned(at, |name| + 1);
      case Value(_, _, value) => SumAligned(at, |value|);
      case _ => SumAligned(at, 0);
    }
  }

  /** Over tokens that were written, the walk lists exactly those, and goes on behind them. */
  lemma {:induction false} WalkTokens(b: seq<Byte>, strings: seq<Byte>, end: nat, at: nat, stack: seq<Name>,
                                      tokens: seq<Token>, behind: Option<seq<Item>>)
    requires AllWritable(tokens, strings) && AllStand(b, at, tokens) && at % 4 == 0 && at + Length(tokens) <= end
    requires Walk(b, strings, end, at + Length(tokens), StackAfter(tokens, stack)) == behind
    ensures Walk(b, strings, end, at, stack) == Then(ItemsOf(tokens, at, stack), behind)
    decreases |tokens|
  {
    hide Walk, Stands, Writable, TokenLength, ItemOf, OpenAfter, Then;
    if tokens == [] {
      ThenNothing(behind);
    } else {
      var t := tokens[0];
      var next := at + TokenLength(t);
      TokenAligned(at, t);
      WalkTokens(b, strings, end, next, OpenAfter(t, stack), tokens[1..], behind);
      WalkStep(b, strings, end, at, stack, t, ItemsOf(tokens[1..], next, OpenAfter(t, stack)), behind);
    }
  }

  /** A structure block that ends without its end token is read to its end. */
  lemma {:induction false} WalkWithoutEnd(b: seq<Byte>, strings: seq<Byte>, at: nat, tokens: seq<Token>)
    requires AllWritable(tokens, strings) && AllStand(b, at, tokens) && at % 4 == 0
    ensures Walk(b, strings, at + Length(tokens), at, []) == Some(ItemsOf(tokens, at, []))
  {
    var end := at + Length(tokens);
    assert Walk(b, strings, end, end, StackAfter(tokens, [])) == Some([]);
    WalkTokens(b, strings, end, at, [], tokens, Some([]));
    assert ItemsOf(tokens, at, []) + [] == ItemsOf(tokens, at, []);
  }

  lemma {:induction false} ItemsConcat(a: seq<Token>, b: seq<Token>, at: nat, stack: seq<Name>)
    ensures ItemsOf(a + b, at, stack) == ItemsOf(a, at, stack) + ItemsOf(b, at + Length(a), StackAfter(a, stack))
    ensures StackAfter(a + b, stack) == StackAfter(b, StackAfter(a, stack))
    decreases |a|
  {
    if a == [] {
      assert a + b == b;
    } else {
      hide ItemOf, OpenAfter, TokenLength, ItemsOf, StackAfter, Length;
      var t := a[0];
      assert a + b == [t] + (a[1..] + b) && a == [t] + a[1..];
      FirstItem(t, a[1..] + b, at, stack);
      FirstItem(t, a[1..], at, stack);
      ItemsConcat(a[1..], b, at + TokenLength(t), OpenAfter(t, stack));
    }
  }

  lemma {:induction false} FirstItem(t: Token, tokens: seq<Token>, at: nat, stack: seq<Name>)
    ensures ItemsOf([t] + tokens, at, stack) ==
            [ItemOf(t, at, stack)] + ItemsOf(tokens, at + TokenLength(t), OpenAfter(t, stack))
    ensures StackAfter([t] + tokens, stack) == StackAfter(tokens, OpenAfter(t, stack))
    ensures Length([t] + tokens) == TokenLength(t) + Length(tokens)
  {
    assert ([t] + tokens)[0] == t && ([t] + tokens)[1..] == tokens;
  }

  /** A content closes what it opens. */
  lemma {:induction false} Balanced(c: Content, stack: seq<Name>)
    ensures StackAfter(Tokens(c), stack) == stack
    decreases c
  {
    match c {
      case Nothing =>
      case Property(name, nameAt, value, rest) =>
        FirstItem(Value(name, nameAt, value), Tokens(rest), 0, stack);
        Balanced(rest, stack);
      case Node(name, inside, rest) =>
        FirstItem(Open(name), Tokens(inside) + ([Close] + Tokens(rest)), 0, stack);
        ItemsConcat(Tokens(inside), [Close] + Tokens(rest), 0, stack + [name]);
        Balanced(inside, stack + [name]);
        FirstItem(Close, Tokens(rest), 0, stack + [name]);
        PathOpen(stack, name);
        Balanced(rest, stack);
      case Filler(rest) =>
        FirstItem(Skip, Tokens(rest), 0, stack);
        Balanced(rest, stack);
    }
  }

  /** The tokens of a content give its nodes and properties. */
  lemma {:induction false} ItemsAreListed(c: Content, at: nat, stack: seq<Name>)
    ensures ItemsOf(Tokens(c), at, stack) == Listed(c, at, Path(stack))
    decreases c, 1
  {
    match c {
      case Nothing =>
      case Property(name, nameAt, value, rest) =>
        ItemsAreListed(rest, at + 12 + Padded(|value|), stack);
        FirstItem(Value(name, nameAt, value), Tokens(rest), at, stack);
      case Node(_, _, _) =>
        NodeListed(c, at, stack);
      case Filler(rest) =>
        ItemsAreListed(rest, at + 4, stack);
        FirstItem(Skip, Tokens(rest), at, stack);
    }
  }

  lemma {:induction false} NodeListed(c: Content, at: nat, stack: seq<Name>)
    requires c.Node?
    ensures ItemsOf(Tokens(c), at, stack) == Listed(c, at, Path(stack))
    decreases c, 0
  {
    hide ItemsOf, Length, Padded;
    var start := at + 4 + Padded(|c.name| + 1);
    var stop := start + Length(Tokens(c.inside));
    ItemsAreListed(c.inside, start, stack + [c.name]);
    ItemsAreListed(c.rest, stop + 4, stack);
    NodeItems(c.name, Tokens(c.inside), Tokens(c.rest), at, stack, c.inside);
    PathOpen(stack, c.name);
  }

  lemma {:induction false} NodeItems(name: Name, inner: seq<Token>, outer: seq<Token>, at: nat, stack: seq<Name>,
                                     inside: Content)
    requires inner == Tokens(inside)
    ensures var start := at + 4 + Padded(|name| + 1);
            var stop := start + Length(inner);
            ItemsOf([Open(name)] + (inner + ([Close] + outer)), at, stack) ==
            [Begin(at, name)]
            + (ItemsOf(inner, start, stack + [name]) + ([End(stop)] + ItemsOf(outer, stop + 4, stack)))
  {
    hide ItemsOf, Length, Padded, StackAfter, Tokens;
    var start := at + 4 + Padded(|name| + 1);
    FirstItem(Open(name), inner + ([Close] + outer), at, stack);
    ItemsConcat(inner, [Close] + outer, start, stack + [name]);
    Balanced(inside, stack + [name]);
    FirstItem(Close, outer, start + Length(inner), stack + [name]);
    PathOpen(stack, name);
  }
}
