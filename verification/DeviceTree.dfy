/**
 * Device trees, their encoding in the structure block of a flattened devicetree
 * (Devicetree Specification, section 5.4), and the records that a parse leaves behind.
 */
module DeviceTree {
  import opened Common

  type Cell = n: nat | n < 0x1_0000_0000

  const FDT_BEGIN_NODE: Cell := 1
  const FDT_END_NODE: Cell := 2
  const FDT_PROP: Cell := 3
  const FDT_NOP: Cell := 4

  // ===== trees and their encoding =====

  datatype Item = Prop(nameOffset: Cell, data: seq<Byte>) | Child(node: Tree) | Nop

  /** Properties and children in document order, with the NOP tokens between them. */
  datatype Tree = Tree(name: seq<Byte>, items: seq<Item>)

  /** What an encoder can write: names are C strings, and lengths fit a cell. */
  predicate Encodable(t: Tree)
    decreases t
  {
    && 0 !in t.name
    && forall k :: 0 <= k < |t.items| ==>
         match t.items[k]
         case Prop(_, data) => |data| < 0x1_0000_0000
         case Child(c) => Encodable(c)
         case Nop => true
  }

  function ByteOr0(bytes: seq<Byte>, i: nat): Byte {
    if i < |bytes| then bytes[i] else 0
  }

  function BigEndian(a: Byte, b: Byte, c: Byte, d: Byte): Cell {
    a * 0x100_0000 + b * 0x1_0000 + c * 0x100 + d
  }

  /** Bytes in big-endian cells, padded with zeros. */
  function Pack(bytes: seq<Byte>): (cells: seq<Cell>)
    ensures |cells| == (|bytes| + 3) / 4
  {
    seq((|bytes| + 3) / 4, i requires 0 <= i =>
      BigEndian(ByteOr0(bytes, 4 * i), ByteOr0(bytes, 4 * i + 1), ByteOr0(bytes, 4 * i + 2), ByteOr0(bytes, 4 * i + 3)))
  }

  function Encode(t: Tree): seq<Cell>
    requires Encodable(t)
    decreases t, |t.items| + 1, 0
  {
    [FDT_BEGIN_NODE] + Pack(t.name + [0]) + EncodeItems(t, |t.items|) + [FDT_END_NODE]
  }

  function EncodeItems(t: Tree, k: nat): seq<Cell>
    requires Encodable(t) && k <= |t.items|
    decreases t, k, 1
  {
    if k == 0 then [] else EncodeItems(t, k - 1) + EncodeItem(t, k - 1)
  }

  function EncodeItem(t: Tree, k: nat): seq<Cell>
    requires Encodable(t) && k < |t.items|
    decreases t, k
  {
    match t.items[k]
    case Prop(nameOffset, data) => [FDT_PROP, |data|, nameOffset] + Pack(data)
    case Child(c) => Encode(c)
    case Nop => [FDT_NOP]
  }

  // ===== sizes =====

  function NodeCount(t: Tree): (count: nat)
    ensures count > 0
    decreases t, |t.items| + 1
  {
    1 + NodesIn(t, |t.items|)
  }

  function NodesIn(t: Tree, k: nat): nat
    requires k <= |t.items|
    decreases t, k
  {
    if k == 0 then 0 else NodesIn(t, k - 1) + if t.items[k - 1].Child? then NodeCount(t.items[k - 1].node) else 0
  }

  function PropCount(t: Tree): nat
    decreases t, |t.items| + 1
  {
    PropsIn(t, |t.items|)
  }

  function PropsIn(t: Tree, k: nat): nat
    requires k <= |t.items|
    decreases t, k
  {
    if k == 0 then 0 else
      PropsIn(t, k - 1) +
      match t.items[k - 1]
      case Prop(_, _) => 1
      case Child(c) => PropCount(c)
      case Nop => 0
  }

  function HeaderCells(t: Tree): nat {
    1 + (|t.name| + 4) / 4
  }

  function CellCount(t: Tree): nat
    decreases t, |t.items| + 1
  {
    HeaderCells(t) + CellsIn(t, |t.items|) + 1
  }

  function DataCells(length: nat): nat {
    (length + 3) / 4
  }

  function ItemCells(t: Tree, k: nat): nat
    requires k < |t.items|
    decreases t, k
  {
    match t.items[k]
    case Prop(_, data) => 3 + DataCells(|data|)
    case Child(c) => CellCount(c)
    case Nop => 1
  }

  function CellsIn(t: Tree, k: nat): nat
    requires k <= |t.items|
    decreases t, k
  {
    if k == 0 then 0 else CellsIn(t, k - 1) + ItemCells(t, k - 1)
  }

  lemma NextItem(t: Tree, k: nat)
    requires k < |t.items|
    ensures CellsIn(t, k + 1) == CellsIn(t, k) + ItemCells(t, k)
  {
  }

  lemma {:induction false} EncodeLength(t: Tree)
    requires Encodable(t)
    ensures |Encode(t)| == CellCount(t)
    decreases t, |t.items| + 1
  {
    ItemsLength(t, |t.items|);
  }

  lemma {:induction false} ItemsLength(t: Tree, k: nat)
    requires Encodable(t) && k <= |t.items|
    ensures |EncodeItems(t, k)| == CellsIn(t, k)
    decreases t, k
  {
    if k > 0 {
      ItemsLength(t, k - 1);
      if t.items[k - 1].Child? {
        EncodeLength(t.items[k - 1].node);
      }
    }
  }

  // ===== records =====

  type Link = Option<nat>

  /** `name` is a byte position in the structure block; the links are positions in the pools. */
  datatype NodeRec = NodeRec(
    name: nat, parent: Link, sibling: Link, child: Link, props: Link, addrCells: nat, sizeCells: nat)

  datatype PropRec = PropRec(name: Cell, first: nat, length: nat, next: Link)

  const NO_NODE := NodeRec(0, None, None, None, None, 0, 0)
  const NO_PROP := PropRec(0, 0, 0, None)

  // The parser allocates records in document order: the tree whose record is number `n`
  // occupies records n, n + 1, ... of the node pool and p, p + 1, ... of the property pool.

  function ChildIndex(t: Tree, k: nat, n: nat): nat
    requires k <= |t.items|
  {
    n + 1 + NodesIn(t, k)
  }

  function LastChild(t: Tree, k: nat, n: nat): Link
    requires k <= |t.items|
  {
    if k == 0 then None
    else if t.items[k - 1].Child? then Some(ChildIndex(t, k - 1, n))
    else LastChild(t, k - 1, n)
  }

  function LastProp(t: Tree, k: nat, p: nat): Link
    requires k <= |t.items|
  {
    if k == 0 then None
    else if t.items[k - 1].Prop? then Some(p + PropsIn(t, k - 1))
    else LastProp(t, k - 1, p)
  }

  /** The record of a node once its first `k` items are parsed. */
  function RootRec(t: Tree, k: nat, n: nat, p: nat, off: nat): NodeRec
    requires k <= |t.items|
  {
    NodeRec(4 * (off + 1), None, None, LastChild(t, k, n), LastProp(t, k, p), 2, 1)
  }

  function NodeRecs(t: Tree, n: nat, p: nat, off: nat): seq<NodeRec>
    decreases t, |t.items| + 1
  {
    [RootRec(t, |t.items|, n, p, off)] + ItemNodes(t, |t.items|, n, p, off)
  }

  function ItemNodes(t: Tree, k: nat, n: nat, p: nat, off: nat): seq<NodeRec>
    requires k <= |t.items|
    decreases t, k, 1
  {
    if k == 0 then [] else ItemNodes(t, k - 1, n, p, off) + ItemNodeRecs(t, k - 1, n, p, off)
  }

  function ItemNodeRecs(t: Tree, k: nat, n: nat, p: nat, off: nat): seq<NodeRec>
    requires k < |t.items|
    decreases t, k
  {
    match t.items[k]
    case Child(c) =>
      Hooked(NodeRecs(c, ChildIndex(t, k, n), p + PropsIn(t, k), ItemStart(t, k, off)), n, LastChild(t, k, n))
    case _ => []
  }

  /** A subtree once its root is put at the head of its parent's list of children. */
  function Hooked(recs: seq<NodeRec>, parent: nat, sibling: Link): (r: seq<NodeRec>)
    ensures |r| == |recs|
  {
    if recs == [] then [] else [recs[0].(parent := Some(parent), sibling := sibling)] + recs[1..]
  }

  function ItemStart(t: Tree, k: nat, off: nat): nat
    requires k <= |t.items|
  {
    off + HeaderCells(t) + CellsIn(t, k)
  }

  function PropRecs(t: Tree, p: nat, off: nat): seq<PropRec>
    decreases t, |t.items| + 1
  {
    ItemProps(t, |t.items|, p, off)
  }

  function ItemProps(t: Tree, k: nat, p: nat, off: nat): seq<PropRec>
    requires k <= |t.items|
    decreases t, k, 1
  {
    if k == 0 then [] else ItemProps(t, k - 1, p, off) + ItemPropRecs(t, k - 1, p, off)
  }

  function ItemPropRecs(t: Tree, k: nat, p: nat, off: nat): seq<PropRec>
    requires k < |t.items|
    decreases t, k
  {
    match t.items[k]
    case Prop(nameOffset, data) => [PropRec(nameOffset, 4 * (ItemStart(t, k, off) + 3), |data|, LastProp(t, k, p))]
    case Child(c) => PropRecs(c, p + PropsIn(t, k), ItemStart(t, k, off))
    case Nop => []
  }

  lemma {:induction false} RecordCounts(t: Tree, n: nat, p: nat, off: nat)
    ensures |NodeRecs(t, n, p, off)| == NodeCount(t) && |PropRecs(t, p, off)| == PropCount(t)
    decreases t, |t.items| + 1
  {
    ItemRecordCounts(t, |t.items|, n, p, off);
  }

  lemma {:induction false} ItemRecordCounts(t: Tree, k: nat, n: nat, p: nat, off: nat)
    requires k <= |t.items|
    ensures |ItemNodes(t, k, n, p, off)| == NodesIn(t, k) && |ItemProps(t, k, p, off)| == PropsIn(t, k)
    decreases t, k
  {
    hide LastChild, LastProp, Hooked, NodeRecs, PropRecs, ItemStart, ChildIndex;
    if k > 0 {
      ItemRecordCounts(t, k - 1, n, p, off);
      if t.items[k - 1].Child? {
        RecordCounts(t.items[k - 1].node, ChildIndex(t, k - 1, n), p + PropsIn(t, k - 1), ItemStart(t, k - 1, off));
      }
    }
  }

  // ===== finding the encoding of a tree in a block =====

  predicate At(cells: seq<Cell>, off: nat, part: seq<Cell>) {
    off + |part| <= |cells| && cells[off..off + |part|] == part
  }

  lemma AtSplit(cells: seq<Cell>, off: nat, a: seq<Cell>, b: seq<Cell>)
    ensures At(cells, off, a + b) <==> At(cells, off, a) && At(cells, off + |a|, b)
  {
    if At(cells, off, a + b) {
      assert cells[off..off + |a|] == (a + b)[..|a|] == a;
      assert cells[off + |a|..off + |a| + |b|] == (a + b)[|a|..] == b;
    }
    if At(cells, off, a) && At(cells, off + |a|, b) {
      assert cells[off..off + |a + b|] == cells[off..off + |a|] + cells[off + |a|..off + |a| + |b|];
    }
  }

  ghost predicate Holds(cells: seq<Cell>, off: nat, t: Tree) {
    Encodable(t) && At(cells, off, Encode(t))
  }

  /** The parts of an encoded node. */
  lemma NodeParts(cells: seq<Cell>, off: nat, t: Tree)
    requires Holds(cells, off, t)
    ensures off < |cells| && cells[off] == FDT_BEGIN_NODE
    ensures At(cells, off + 1, Pack(t.name + [0]))
    ensures At(cells, off + HeaderCells(t), EncodeItems(t, |t.items|))
    ensures ItemStart(t, |t.items|, off) < |cells| && cells[ItemStart(t, |t.items|, off)] == FDT_END_NODE
  {
    var name, items := Pack(t.name + [0]), EncodeItems(t, |t.items|);
    ItemsLength(t, |t.items|);
    AtSplit(cells, off, [FDT_BEGIN_NODE] + name + items, [FDT_END_NODE]);
    AtSplit(cells, off, [FDT_BEGIN_NODE] + name, items);
    AtSplit(cells, off, [FDT_BEGIN_NODE], name);
    OneCell(cells, off, FDT_BEGIN_NODE);
    OneCell(cells, ItemStart(t, |t.items|, off), FDT_END_NODE);
  }

  lemma OneCell(cells: seq<Cell>, off: nat, c: Cell)
    ensures At(cells, off, [c]) <==> off < |cells| && cells[off] == c
  {
    if off < |cells| {
      assert cells[off..off + 1] == [cells[off]];
    }
  }

  lemma {:induction false} ItemsInside(cells: seq<Cell>, start: nat, t: Tree, last: nat, k: nat)
    requires Encodable(t) && k < last <= |t.items| && At(cells, start, EncodeItems(t, last))
    ensures At(cells, start + CellsIn(t, k), EncodeItem(t, k))
    decreases last
  {
    AtSplit(cells, start, EncodeItems(t, last - 1), EncodeItem(t, last - 1));
    ItemsLength(t, last - 1);
    if k < last - 1 {
      ItemsInside(cells, start, t, last - 1, k);
    }
  }

  /** Item `k` of an encoded node. */
  lemma ItemPart(cells: seq<Cell>, off: nat, t: Tree, k: nat)
    requires Holds(cells, off, t) && k < |t.items|
    ensures var start := ItemStart(t, k, off);
            match t.items[k]
            case Prop(nameOffset, data) =>
              start + 3 <= |cells| && cells[start..start + 3] == [FDT_PROP, |data|, nameOffset] && At(cells, start + 3, Pack(data))
            case Child(c) => Holds(cells, start, c) && start < |cells| && cells[start] == FDT_BEGIN_NODE
            case Nop => start < |cells| && cells[start] == FDT_NOP
  {
    var start := ItemStart(t, k, off);
    NodeParts(cells, off, t);
    ItemsInside(cells, off + HeaderCells(t), t, |t.items|, k);
    match t.items[k]
    case Prop(nameOffset, data) => AtSplit(cells, start, [FDT_PROP, |data|, nameOffset], Pack(data));
    case Child(c) => NodeParts(cells, start, c);
    case Nop => OneCell(cells, start, FDT_NOP);
  }

  // ===== bytes of the block =====

  function ByteOf(c: Cell, i: nat): Byte
    requires i < 4
  {
    match i
    case 0 => c / 0x100_0000
    case 1 => c / 0x1_0000 % 0x100
    case 2 => c / 0x100 % 0x100
    case _ => c % 0x100
  }

  function ByteAt(cells: seq<Cell>, b: nat): Byte
    requires b < 4 * |cells|
  {
    ByteOf(cells[b / 4], b % 4)
  }

  lemma BytesOfCell(a: Byte, b: Byte, c: Byte, d: Byte)
    ensures var x := BigEndian(a, b, c, d);
            ByteOf(x, 0) == a && ByteOf(x, 1) == b && ByteOf(x, 2) == c && ByteOf(x, 3) == d
  {
    var x := BigEndian(a, b, c, d);
    var high := a * 0x100 + b;
    assert x / 0x1_0000 == high;
    assert x / 0x100 == high * 0x100 + c;
  }

  /** Packing loses nothing. */
  lemma PackedByte(cells: seq<Cell>, off: nat, bytes: seq<Byte>, i: nat)
    requires At(cells, off, Pack(bytes)) && i < |bytes|
    ensures 4 * off + i < 4 * |cells| && ByteAt(cells, 4 * off + i) == bytes[i]
  {
    var q := i / 4;
    assert (4 * off + i) / 4 == off + q && (4 * off + i) % 4 == i % 4;
    assert cells[off + q] == cells[off..off + |Pack(bytes)|][q] == Pack(bytes)[q];
    BytesOfCell(ByteOr0(bytes, 4 * q), ByteOr0(bytes, 4 * q + 1), ByteOr0(bytes, 4 * q + 2), ByteOr0(bytes, 4 * q + 3));
  }

  /** A C string with the given characters starts at byte `b`. */
  predicate StringAt(cells: seq<Cell>, b: nat, s: seq<Byte>) {
    && b + |s| < 4 * |cells|
    && (forall i :: 0 <= i < |s| ==> ByteAt(cells, b + i) == s[i])
    && 0 !in s && ByteAt(cells, b + |s|) == 0
  }

  lemma PackedString(cells: seq<Cell>, off: nat, s: seq<Byte>)
    requires At(cells, off, Pack(s + [0])) && 0 !in s
    ensures StringAt(cells, 4 * off, s)
  {
    hide ByteAt, At, Pack;
    var bytes := s + [0];
    PackedByte(cells, off, bytes, |s|);
    forall i | 0 <= i < |s| ensures ByteAt(cells, 4 * off + i) == s[i] {
      PackedByte(cells, off, bytes, i);
    }
  }

  lemma NameAt(cells: seq<Cell>, off: nat, t: Tree)
    requires Holds(cells, off, t)
    ensures StringAt(cells, 4 * (off + 1), t.name)
  {
    NodeParts(cells, off, t);
    PackedString(cells, off + 1, t.name);
  }

  /** A small tree, cell by cell as the specification has it: tokens 1 to 4, the length before the name offset, big-endian data. */
  lemma SmallTreeEncoded()
    ensures var leaf := Tree([0x61], [Nop]);
            var t := Tree([], [Prop(7, [0x12, 0x34, 0x56, 0x78, 0x9A]), Child(leaf)]);
            Encodable(t) &&
            Encode(t) == [1, 0, 3, 5, 7, 0x1234_5678, 0x9A00_0000, 1, 0x6100_0000, 4, 2, 2]
  {
    var leaf := Tree([0x61], [Nop]);
    var t := Tree([], [Prop(7, [0x12, 0x34, 0x56, 0x78, 0x9A]), Child(leaf)]);
    hide Encodable, Encode, Pack;
    LeafEncoded(leaf);
    TwoItems(t, leaf);
  }

  lemma TwoItems(t: Tree, leaf: Tree)
    requires t == Tree([], [Prop(7, [0x12, 0x34, 0x56, 0x78, 0x9A]), Child(leaf)])
    requires Encodable(leaf) && Encode(leaf) == [1, 0x6100_0000, 4, 2]
    ensures Encodable(t) && Encode(t) == [1, 0, 3, 5, 7, 0x1234_5678, 0x9A00_0000, 1, 0x6100_0000, 4, 2, 2]
  {
    hide Pack;
    PackedExamples();
    assert Encodable(t);
    var first := [3, 5, 7, 0x1234_5678, 0x9A00_0000];
    assert EncodeItem(t, 0) == first && EncodeItem(t, 1) == Encode(leaf);
    assert EncodeItems(t, 0) == [];
    assert EncodeItems(t, 1) == first;
    assert EncodeItems(t, 2) == first + Encode(leaf);
    assert Encode(t) == [1] + [0] + (first + Encode(leaf)) + [2];
  }

  lemma LeafEncoded(leaf: Tree)
    requires leaf == Tree([0x61], [Nop])
    ensures Encodable(leaf) && Encode(leaf) == [1, 0x6100_0000, 4, 2]
  {
    hide Pack;
    PackedExamples();
    assert EncodeItems(leaf, 0) == [];
    assert EncodeItems(leaf, 1) == EncodeItems(leaf, 0) + EncodeItem(leaf, 0);
  }

  lemma PackedExamples()
    ensures Pack([] + [0]) == [0] && Pack([0x61] + [0]) == [0x6100_0000]
    ensures Pack([0x12, 0x34, 0x56, 0x78, 0x9A]) == [0x1234_5678, 0x9A00_0000]
  {
    var data := [0x12, 0x34, 0x56, 0x78, 0x9A];
    PackedCell([] + [0], 0);
    PackedCell([0x61] + [0], 0);
    PackedCell(data, 0);
    PackedCell(data, 1);
    hide Pack;
  }

  lemma PackedCell(bytes: seq<Byte>, i: nat)
    requires i < (|bytes| + 3) / 4
    ensures Pack(bytes)[i] ==
            ByteOr0(bytes, 4 * i) * 0x100_0000 + ByteOr0(bytes, 4 * i + 1) * 0x1_0000 + ByteOr0(bytes, 4 * i + 2) * 0x100 + ByteOr0(bytes, 4 * i + 3)
  {
  }
}
