/** The pools of records: how many records the counting pass provides, and when they suffice for a tree. */
module DeviceTreePools {
  import opened Common
  import opened DeviceTree

  // Sizes of the records, and of the static buffer that the pools share.
  const NODE_BYTES: nat := 48
  const PROP_BYTES: nat := 32
  const POINTER_BYTES: nat := 8
  const BUFFER_BYTES: nat := 92160

  function CountCells(cells: seq<Cell>, token: Cell): nat {
    if cells == [] then 0
    else CountCells(cells[..|cells| - 1], token) + if cells[|cells| - 1] == token then 1 else 0
  }

  function BufferBytes(nodes: nat, props: nat): nat {
    nodes * NODE_BYTES + props * PROP_BYTES + nodes * POINTER_BYTES
  }

  /** Enough records are left for `n` more nodes and `p` more properties: one of each stays unused. */
  predicate Fits(n: nat, p: nat, nodeHead: nat, nodeMax: nat, propHead: nat, propMax: nat) {
    (n == 0 || nodeHead + n < nodeMax) && (p == 0 || propHead + p < propMax)
  }

  predicate Buffered(cells: seq<Cell>) {
    BufferBytes(CountCells(cells, FDT_BEGIN_NODE), CountCells(cells, FDT_PROP)) < BUFFER_BYTES
  }

  predicate PoolsSuffice(cells: seq<Cell>, t: Tree) {
    Buffered(cells) && Fits(NodeCount(t), PropCount(t), 0, CountCells(cells, FDT_BEGIN_NODE), 0, CountCells(cells, FDT_PROP))
  }

  // ===== what the counting pass counts =====

  lemma {:induction false} CountSplit(a: seq<Cell>, b: seq<Cell>, token: Cell)
    ensures CountCells(a + b, token) == CountCells(a, token) + CountCells(b, token)
  {
    if b == [] {
      assert a + b == a;
    } else {
      assert (a + b)[..|a + b| - 1] == a + b[..|b| - 1];
      CountSplit(a, b[..|b| - 1], token);
    }
  }

  /** Cells of names, property lengths, name offsets and data that look like `token`. */
  function Lookalikes(t: Tree, token: Cell): nat
    decreases t, |t.items| + 1
  {
    CountCells(Pack(t.name + [0]), token) + LookalikesIn(t, |t.items|, token)
  }

  function LookalikesIn(t: Tree, k: nat, token: Cell): nat
    requires k <= |t.items|
    decreases t, k
  {
    if k == 0 then 0 else
      LookalikesIn(t, k - 1, token) +
      match t.items[k - 1]
      case Prop(nameOffset, data) =>
        (if |data| == token then 1 else 0) + (if nameOffset == token then 1 else 0) + CountCells(Pack(data), token)
      case Child(c) => Lookalikes(c, token)
      case Nop => 0
  }

  lemma {:induction false} CountedCells(t: Tree)
    requires Encodable(t)
    ensures CountCells(Encode(t), FDT_BEGIN_NODE) == NodeCount(t) + Lookalikes(t, FDT_BEGIN_NODE)
    ensures CountCells(Encode(t), FDT_PROP) == PropCount(t) + Lookalikes(t, FDT_PROP)
    decreases t, |t.items| + 1
  {
    hide CountCells, Pack, EncodeItems;
    CountedItems(t, |t.items|);
    CountedNode(t, FDT_BEGIN_NODE);
    CountedNode(t, FDT_PROP);
  }

  lemma CountedNode(t: Tree, token: Cell)
    requires Encodable(t) && token != FDT_END_NODE
    ensures CountCells(Encode(t), token) ==
            (if token == FDT_BEGIN_NODE then 1 else 0) + CountCells(Pack(t.name + [0]), token) +
            CountCells(EncodeItems(t, |t.items|), token)
  {
    hide Pack, EncodeItems;
    var name, items := Pack(t.name + [0]), EncodeItems(t, |t.items|);
    CountSplit([FDT_BEGIN_NODE] + name + items, [FDT_END_NODE], token);
    CountSplit([FDT_BEGIN_NODE] + name, items, token);
    CountSplit([FDT_BEGIN_NODE], name, token);
    CountOne(FDT_BEGIN_NODE, token);
    CountOne(FDT_END_NODE, token);
  }

  lemma CountOne(c: Cell, token: Cell)
    ensures CountCells([c], token) == if c == token then 1 else 0
  {
    assert [c][..0] == [];
  }

  lemma {:induction false} CountedItems(t: Tree, k: nat)
    requires Encodable(t) && k <= |t.items|
    ensures CountCells(EncodeItems(t, k), FDT_BEGIN_NODE) == NodesIn(t, k) + LookalikesIn(t, k, FDT_BEGIN_NODE)
    ensures CountCells(EncodeItems(t, k), FDT_PROP) == PropsIn(t, k) + LookalikesIn(t, k, FDT_PROP)
    decreases t, k
  {
    if k > 0 {
      CountedItems(t, k - 1);
      CountSplit(EncodeItems(t, k - 1), EncodeItem(t, k - 1), FDT_BEGIN_NODE);
      CountSplit(EncodeItems(t, k - 1), EncodeItem(t, k - 1), FDT_PROP);
      match t.items[k - 1]
      case Prop(nameOffset, data) =>
        CountedProp(nameOffset, data, FDT_BEGIN_NODE);
        CountedProp(nameOffset, data, FDT_PROP);
      case Child(c) => CountedCells(c);
      case Nop =>
    }
  }

  lemma CountedProp(nameOffset: Cell, data: seq<Byte>, token: Cell)
    requires |data| < 0x1_0000_0000
    ensures CountCells([FDT_PROP, |data|, nameOffset] + Pack(data), token) ==
            (if FDT_PROP == token then 1 else 0) + (if |data| == token then 1 else 0) +
            (if nameOffset == token then 1 else 0) + CountCells(Pack(data), token)
  {
    CountSplit([FDT_PROP, |data|, nameOffset], Pack(data), token);
    CountSplit([FDT_PROP, |data|], [nameOffset], token);
    CountSplit([FDT_PROP], [|data|], token);
    assert [FDT_PROP] + [|data|] == [FDT_PROP, |data|] && [FDT_PROP, |data|] + [nameOffset] == [FDT_PROP, |data|, nameOffset];
  }

  /**
   * The allocators never give out their last record, so a block is parsed only if some cell that is
   * not a token happens to look like one: a begin token, and, if there are properties, a property token.
   */
  lemma SpareRecordsIff(cells: seq<Cell>, before: seq<Cell>, t: Tree, after: seq<Cell>)
    requires Encodable(t) && cells == before + Encode(t) + after
    ensures PoolsSuffice(cells, t) <==>
            Buffered(cells) &&
            CountCells(before, FDT_BEGIN_NODE) + Lookalikes(t, FDT_BEGIN_NODE) + CountCells(after, FDT_BEGIN_NODE) > 0 &&
            (PropCount(t) == 0 || CountCells(before, FDT_PROP) + Lookalikes(t, FDT_PROP) + CountCells(after, FDT_PROP) > 0)
  {
    hide Encode, NodeCount, PropCount, Lookalikes, Buffered;
    CountedCells(t);
    CountSplit(before + Encode(t), after, FDT_BEGIN_NODE);
    CountSplit(before, Encode(t), FDT_BEGIN_NODE);
    CountSplit(before + Encode(t), after, FDT_PROP);
    CountSplit(before, Encode(t), FDT_PROP);
  }

  /** The smallest tree, a nameless root without properties, cannot be parsed. */
  lemma BareRootDoesNotFit()
    ensures var t := Tree([], []); Encodable(t) && !PoolsSuffice(Encode(t), t)
  {
    hide Encode;
    var t := Tree([], []);
    assert Encode(t) == [] + Encode(t) + [];
    SpareRecordsIff(Encode(t), [], t, []);
    assert t.name + [0] == [0];
    NulCell();
  }

  lemma NulCell()
    ensures CountCells(Pack([0]), FDT_BEGIN_NODE) == 0
  {
    hide CountCells;
    PackedNul();
    CountOne(0, FDT_BEGIN_NODE);
  }

  lemma PackedNul()
    ensures Pack([0]) == [0]
  {
    hide Pack, BigEndian, ByteOr0;
    PackedCell([0], 0);
    PastTheEnd([0]);
    NulBytes();
  }

  lemma PackedCell(bytes: seq<Byte>, i: nat)
    requires i < (|bytes| + 3) / 4
    ensures Pack(bytes)[i] ==
            BigEndian(ByteOr0(bytes, 4 * i), ByteOr0(bytes, 4 * i + 1), ByteOr0(bytes, 4 * i + 2), ByteOr0(bytes, 4 * i + 3))
  {
    hide BigEndian, ByteOr0;
  }

  lemma PastTheEnd(bytes: seq<Byte>)
    requires |bytes| == 1
    ensures ByteOr0(bytes, 0) == bytes[0] && ByteOr0(bytes, 1) == ByteOr0(bytes, 2) == ByteOr0(bytes, 3) == 0
  {
  }

  lemma NulBytes()
    ensures BigEndian(0, 0, 0, 0) == 0
  {
  }
}
