/** The flattened devicetree parser: counting pass, record pools, and the recursive parse. */
module DeviceTreeParser {
  import opened Common
  import opened DeviceTree
  import opened DeviceTreePools
  import opened DeviceTreeView

  /** `OutOfRecords`: a pool is exhausted, and the parser goes on with a null record. */
  datatype Outcome = Parsed(node: nat) | NoNode | Overrun | OutOfRecords

  const FDT_MAGIC: Cell := 0xD00D_FEED

  function AlignUp(n: nat, alignment: nat): nat
    requires alignment > 0
  {
    (n + alignment - 1) / alignment * alignment
  }

  // ===== how far the parse of a node has come =====

  /** The first `k` items of `t` are parsed; the node's own record comes right after `nodes0`. */
  ghost predicate Progress(t: Tree, k: nat, off: nat, nodes0: seq<NodeRec>, props0: seq<PropRec>,
                           nodes: seq<NodeRec>, props: seq<PropRec>, next: nat)
    requires k <= |t.items|
  {
    && next == ItemStart(t, k, off)
    && nodes == nodes0 + [RootRec(t, k, |nodes0|, |props0|, off)] + ItemNodes(t, k, |nodes0|, |props0|, off)
    && props == props0 + ItemProps(t, k, |props0|, off)
  }

  lemma NoItemsYet(t: Tree, off: nat, nodes0: seq<NodeRec>, props0: seq<PropRec>)
    ensures Progress(t, 0, off, nodes0, props0, nodes0 + [RootRec(t, 0, |nodes0|, |props0|, off)], props0, off + HeaderCells(t))
    ensures RootRec(t, 0, |nodes0|, |props0|, off) == NO_NODE.(name := 4 * (off + 1), addrCells := 2, sizeCells := 1)
    ensures (|t.name| + 4) / 4 == AlignUp(|t.name| + 1, 4) / 4
  {
  }

  lemma ProgressSizes(t: Tree, k: nat, off: nat, nodes0: seq<NodeRec>, props0: seq<PropRec>,
                      nodes: seq<NodeRec>, props: seq<PropRec>, next: nat)
    requires k <= |t.items| && Progress(t, k, off, nodes0, props0, nodes, props, next)
    ensures |nodes| == ChildIndex(t, k, |nodes0|) && |props| == |props0| + PropsIn(t, k)
    ensures nodes[|nodes0|] == RootRec(t, k, |nodes0|, |props0|, off)
  {
    ItemRecordCounts(t, k, |nodes0|, |props0|, off);
  }

  lemma ProgressChild(t: Tree, k: nat, off: nat, nodes0: seq<NodeRec>, props0: seq<PropRec>,
                      nodes: seq<NodeRec>, props: seq<PropRec>, next: nat, now: seq<NodeRec>)
    requires k < |t.items| && t.items[k].Child? && Progress(t, k, off, nodes0, props0, nodes, props, next)
    requires now == nodes + NodeRecs(t.items[k].node, |nodes|, |props|, next) && |nodes0| < |nodes| < |now|
    ensures Progress(t, k + 1, off, nodes0, props0, LinkChild(now, |nodes0|, |nodes|),
                     props + PropRecs(t.items[k].node, |props|, next), next + CellCount(t.items[k].node))
  {
    hide NodeRecs, PropRecs, CellCount, LinkChild, Hooked, LastProp;
    var n, p, c := |nodes0|, |props0|, t.items[k].node;
    ProgressSizes(t, k, off, nodes0, props0, nodes, props, next);
    NextItem(t, k);
    LinkedRecords(nodes0, RootRec(t, k, n, p, off), ItemNodes(t, k, n, p, off), NodeRecs(c, |nodes|, |props|, next));
    assert ItemNodes(t, k + 1, n, p, off) == ItemNodes(t, k, n, p, off) + ItemNodeRecs(t, k, n, p, off);
    assert ItemProps(t, k + 1, p, off) == ItemProps(t, k, p, off) + ItemPropRecs(t, k, p, off);
    assert LastChild(t, k + 1, n) == Some(|nodes|);
    assert LastProp(t, k + 1, p) == LastProp(t, k, p) by { LastPropSame(t, k, p); }
    assert props0 + ItemProps(t, k, p, off) + PropRecs(c, |props|, next) == props0 + ItemProps(t, k + 1, p, off);
  }

  lemma LastPropSame(t: Tree, k: nat, p: nat)
    requires k < |t.items| && !t.items[k].Prop?
    ensures LastProp(t, k + 1, p) == LastProp(t, k, p)
  {
  }

  lemma LinkedRecords(nodes0: seq<NodeRec>, root: NodeRec, items: seq<NodeRec>, recs: seq<NodeRec>)
    requires recs != []
    ensures var nodes := nodes0 + [root] + items;
            LinkChild(nodes + recs, |nodes0|, |nodes|) ==
            nodes0 + [root.(child := Some(|nodes|))] + (items + Hooked(recs, |nodes0|, root.child))
  {
    var nodes := nodes0 + [root] + items;
    assert (nodes + recs)[|nodes0|] == root && (nodes + recs)[|nodes|] == recs[0];
  }

  /** Where item `k` starts there is its token, or the end token after the last item. */
  ghost predicate Token(cells: seq<Cell>, t: Tree, k: nat, next: nat)
    requires k <= |t.items|
  {
    next < |cells| &&
    if k == |t.items| then cells[next] == FDT_END_NODE
    else match t.items[k]
         case Prop(nameOffset, data) => next + 3 <= |cells| && cells[next..next + 3] == [FDT_PROP, |data|, nameOffset]
         case Child(c) => Holds(cells, next, c) && cells[next] == FDT_BEGIN_NODE
         case Nop => cells[next] == FDT_NOP
  }

  lemma AtToken(cells: seq<Cell>, off: nat, t: Tree, k: nat, nodes0: seq<NodeRec>, props0: seq<PropRec>,
                nodes: seq<NodeRec>, props: seq<PropRec>, next: nat)
    requires k <= |t.items| && Holds(cells, off, t) && Progress(t, k, off, nodes0, props0, nodes, props, next)
    ensures Token(cells, t, k, next)
    ensures |nodes| == ChildIndex(t, k, |nodes0|) && |props| == |props0| + PropsIn(t, k)
    ensures next == ItemStart(t, k, off)
  {
    hide Holds;
    ProgressSizes(t, k, off, nodes0, props0, nodes, props, next);
    if k < |t.items| {
      ItemPart(cells, off, t, k);
    } else {
      NodeParts(cells, off, t);
    }
  }

  /** Put a child at the head of its parent's list. */
  function LinkChild(nodes: seq<NodeRec>, node: nat, child: nat): seq<NodeRec>
    requires node < child < |nodes|
  {
    nodes[child := nodes[child].(sibling := nodes[node].child, parent := Some(node))]
         [node := nodes[node].(child := Some(child))]
  }

  lemma ProgressProp(t: Tree, k: nat, off: nat, nodes0: seq<NodeRec>, props0: seq<PropRec>,
                     nodes: seq<NodeRec>, props: seq<PropRec>, next: nat)
    requires k < |t.items| && t.items[k].Prop? && Progress(t, k, off, nodes0, props0, nodes, props, next) && |nodes0| < |nodes|
    ensures var rec := PropRec(t.items[k].nameOffset, 4 * (next + 3), |t.items[k].data|, nodes[|nodes0|].props);
            Progress(t, k + 1, off, nodes0, props0, nodes[|nodes0| := nodes[|nodes0|].(props := Some(|props|))],
                     props + [rec], next + 3 + DataCells(|t.items[k].data|))
  {
    var n, p := |nodes0|, |props0|;
    NextItem(t, k);
    ProgressSizes(t, k, off, nodes0, props0, nodes, props, next);
    assert nodes[n := nodes[n].(props := Some(|props|))] ==
           nodes0 + [RootRec(t, k + 1, n, p, off)] + ItemNodes(t, k, n, p, off);
    assert ItemNodes(t, k, n, p, off) + [] == ItemNodes(t, k, n, p, off);
  }

  lemma ProgressNop(t: Tree, k: nat, off: nat, nodes0: seq<NodeRec>, props0: seq<PropRec>,
                    nodes: seq<NodeRec>, props: seq<PropRec>, next: nat)
    requires k < |t.items| && t.items[k].Nop? && Progress(t, k, off, nodes0, props0, nodes, props, next)
    ensures Progress(t, k + 1, off, nodes0, props0, nodes, props, next + 1)
  {
    NextItem(t, k);
    assert ItemNodes(t, k, |nodes0|, |props0|, off) + [] == ItemNodes(t, k, |nodes0|, |props0|, off);
    assert ItemProps(t, k, |props0|, off) + [] == ItemProps(t, k, |props0|, off);
  }

  lemma {:induction false} MoreItems(t: Tree, k: nat, last: nat)
    requires k <= last <= |t.items|
    ensures NodesIn(t, k) <= NodesIn(t, last) && PropsIn(t, k) <= PropsIn(t, last)
    decreases last
  {
    if k < last {
      MoreItems(t, k, last - 1);
    }
  }

  /** Item `k` of the tree starts at `next`; everything before it has been parsed, and there were records for it. */
  ghost predicate ReachedAt(cells: seq<Cell>, tree: Option<Tree>, k: nat, off: nat, nodes0: seq<NodeRec>, props0: seq<PropRec>,
                            nodes: seq<NodeRec>, props: seq<PropRec>, next: nat, nodeMax: nat, propMax: nat) {
    tree.Some? ==>
      var t := tree.value;
      && k <= |t.items| && Holds(cells, off, t) && Token(cells, t, k, next)
      && Progress(t, k, off, nodes0, props0, nodes, props, next)
      && |nodes| == ChildIndex(t, k, |nodes0|) && |props| == |props0| + PropsIn(t, k)
      && Fits(1 + NodesIn(t, k), PropsIn(t, k), |nodes0|, nodeMax, |props0|, propMax)
  }

  lemma NoTree(cells: seq<Cell>, k: nat, off: nat, nodes0: seq<NodeRec>, props0: seq<PropRec>,
               nodes: seq<NodeRec>, props: seq<PropRec>, next: nat, nodeMax: nat, propMax: nat)
    ensures ReachedAt(cells, None, k, off, nodes0, props0, nodes, props, next, nodeMax, propMax)
  {
  }

  /** A begin token inside a node starts a child; `sub` is that child. */
  lemma ChildDone(cells: seq<Cell>, tree: Option<Tree>, k: nat, off: nat, nodes0: seq<NodeRec>, props0: seq<PropRec>,
                  nodes: seq<NodeRec>, props: seq<PropRec>, at: nat, nodeMax: nat, propMax: nat) returns (sub: Option<Tree>)
    requires ReachedAt(cells, tree, k, off, nodes0, props0, nodes, props, at, nodeMax, propMax)
    requires at < |cells| && cells[at] == FDT_BEGIN_NODE
    ensures sub.Some? <==> tree.Some?
    ensures sub.Some? ==> Holds(cells, at, sub.value)
    ensures sub.Some? && !Fits(NodeCount(sub.value), PropCount(sub.value), |nodes|, nodeMax, |props|, propMax) ==>
              !Fits(NodeCount(tree.value), PropCount(tree.value), |nodes0|, nodeMax, |props0|, propMax)
    ensures sub.Some? && Fits(NodeCount(sub.value), PropCount(sub.value), |nodes|, nodeMax, |props|, propMax) ==>
              var now := nodes + NodeRecs(sub.value, |nodes|, |props|, at);
              |nodes0| < |nodes| < |now| &&
              ReachedAt(cells, tree, k + 1, off, nodes0, props0, LinkChild(now, |nodes0|, |nodes|),
                        props + PropRecs(sub.value, |props|, at), at + CellCount(sub.value), nodeMax, propMax)
  {
    hide Holds, Progress, LinkChild, NodeRecs, PropRecs, CellCount;
    sub := None;
    if tree.Some? {
      var t := tree.value;
      var c := t.items[k].node;
      sub := Some(c);
      MoreItems(t, k + 1, |t.items|);
      var now := nodes + NodeRecs(c, |nodes|, |props|, at);
      RecordCounts(c, |nodes|, |props|, at);
      ProgressChild(t, k, off, nodes0, props0, nodes, props, at, now);
      AtToken(cells, off, t, k + 1, nodes0, props0, LinkChild(now, |nodes0|, |nodes|),
              props + PropRecs(c, |props|, at), at + CellCount(c));
    }
  }

  lemma PropDone(cells: seq<Cell>, tree: Option<Tree>, k: nat, off: nat, nodes0: seq<NodeRec>, props0: seq<PropRec>,
                 nodes: seq<NodeRec>, props: seq<PropRec>, at: nat, nodeMax: nat, propMax: nat)
    requires ReachedAt(cells, tree, k, off, nodes0, props0, nodes, props, at, nodeMax, propMax)
    requires at < |cells| && cells[at] == FDT_PROP && |nodes0| < |nodes|
    ensures tree.Some? ==> at + 3 <= |cells|
    ensures tree.Some? && |props| + 1 >= propMax ==>
              !Fits(NodeCount(tree.value), PropCount(tree.value), |nodes0|, nodeMax, |props0|, propMax)
    ensures at + 3 <= |cells| && |props| + 1 < propMax ==>
              var rec := PropRec(cells[at + 2], 4 * (at + 3), cells[at + 1], nodes[|nodes0|].props);
              ReachedAt(cells, tree, k + 1, off, nodes0, props0, nodes[|nodes0| := nodes[|nodes0|].(props := Some(|props|))],
                        props + [rec], at + 3 + DataCells(cells[at + 1]), nodeMax, propMax)
  {
    hide Holds, Progress;
    if tree.Some? {
      var t := tree.value;
      assert cells[at + 1] == cells[at..at + 3][1] && cells[at + 2] == cells[at..at + 3][2];
      MoreItems(t, k + 1, |t.items|);
      var rec := PropRec(cells[at + 2], 4 * (at + 3), cells[at + 1], nodes[|nodes0|].props);
      ProgressProp(t, k, off, nodes0, props0, nodes, props, at);
      AtToken(cells, off, t, k + 1, nodes0, props0, nodes[|nodes0| := nodes[|nodes0|].(props := Some(|props|))],
              props + [rec], at + 3 + DataCells(cells[at + 1]));
    }
  }

  lemma NopDone(cells: seq<Cell>, tree: Option<Tree>, k: nat, off: nat, nodes0: seq<NodeRec>, props0: seq<PropRec>,
                nodes: seq<NodeRec>, props: seq<PropRec>, at: nat, nodeMax: nat, propMax: nat)
    requires ReachedAt(cells, tree, k, off, nodes0, props0, nodes, props, at, nodeMax, propMax)
    requires at < |cells| && cells[at] != FDT_BEGIN_NODE && cells[at] != FDT_PROP && cells[at] != FDT_END_NODE
    ensures ReachedAt(cells, tree, k + 1, off, nodes0, props0, nodes, props, at + 1, nodeMax, propMax)
  {
    hide Holds, Progress;
    if tree.Some? {
      var t := tree.value;
      ProgressNop(t, k, off, nodes0, props0, nodes, props, at);
      AtToken(cells, off, t, k + 1, nodes0, props0, nodes, props, at + 1);
    }
  }

  class Parser {
    const cells: seq<Cell>
    var nodes: array<NodeRec>
    var nodeHead: nat
    var props: array<PropRec>
    var propHead: nat
    var root: Link

    /** Records that were not given out are still zero. */
    ghost predicate Valid()
      reads this, nodes, props
    {
      && nodeHead <= nodes.Length && propHead <= props.Length
      && (forall i :: nodeHead <= i < nodes.Length ==> nodes[i] == NO_NODE)
      && (forall i :: propHead <= i < props.Length ==> props[i] == NO_PROP)
    }

    constructor (cells: seq<Cell>)
      ensures Valid() && this.cells == cells && root == None && nodeHead == propHead == 0
      ensures nodes.Length == 0 && props.Length == 0 && fresh(nodes) && fresh(props)
    {
      this.cells := cells;
      nodes, props := new NodeRec[0], new PropRec[0];
      nodeHead, propHead, root := 0, 0, None;
    }

    /** The counting pass: a record for every cell that looks like a token, if the buffer is large enough. */
    method AllocBuffers()
      modifies this`nodes, this`nodeHead, this`props, this`propHead
      ensures Valid() && nodeHead == propHead == 0 && fresh(nodes) && fresh(props)
      ensures BufferBytes(CountCells(cells, FDT_BEGIN_NODE), CountCells(cells, FDT_PROP)) < BUFFER_BYTES ==>
                nodes.Length == CountCells(cells, FDT_BEGIN_NODE) && props.Length == CountCells(cells, FDT_PROP)
      ensures BufferBytes(CountCells(cells, FDT_BEGIN_NODE), CountCells(cells, FDT_PROP)) >= BUFFER_BYTES ==>
                nodes.Length == props.Length == 0
      ensures var n, p := CountCells(cells, 1), CountCells(cells, 3);
              if n * 48 + p * 32 + n * 8 < 90 * 1024 then nodes.Length == n && props.Length == p else nodes.Length == props.Length == 0
    {
      var nodeMax, propMax := 0, 0;
      for i := 0 to |cells|
        invariant nodeMax == CountCells(cells[..i], FDT_BEGIN_NODE)
        invariant propMax == CountCells(cells[..i], FDT_PROP)
        modifies {}
      {
        assert cells[..i + 1][..i] == cells[..i];
        if cells[i] == FDT_BEGIN_NODE {
          nodeMax := nodeMax + 1;
        } else if cells[i] == FDT_PROP {
          propMax := propMax + 1;
        }
      }
      assert cells[..|cells|] == cells;
      nodeHead, propHead := 0, 0;
      if BufferBytes(nodeMax, propMax) >= BUFFER_BYTES {
        nodes, props := new NodeRec[0], new PropRec[0];
      } else {
        nodes := new NodeRec[nodeMax](_ => NO_NODE);
        props := new PropRec[propMax](_ => NO_PROP);
      }
    }

    method AllocNode() returns (i: Link)
      requires Valid()
      modifies this`nodeHead
      ensures Valid()
      ensures i == if old(nodeHead) + 1 < nodes.Length then Some(old(nodeHead)) else None
      ensures nodeHead == old(nodeHead) + if i.Some? then 1 else 0
    {
      if nodeHead + 1 < nodes.Length {
        i := Some(nodeHead);
        nodeHead := nodeHead + 1;
      } else {
        i := None;
      }
    }

    method AllocProp() returns (i: Link)
      requires Valid()
      modifies this`propHead
      ensures Valid()
      ensures i == if old(propHead) + 1 < props.Length then Some(old(propHead)) else None
      ensures propHead == old(propHead) + if i.Some? then 1 else 0
    {
      if propHead + 1 < props.Length {
        i := Some(propHead);
        propHead := propHead + 1;
      } else {
        i := None;
      }
    }

    method StringLen(b: nat, ghost s: Option<seq<Byte>>) returns (overrun: bool, len: nat)
      requires s.Some? ==> StringAt(cells, b, s.value)
      ensures s.Some? ==> !overrun && len == |s.value|
      ensures !overrun ==> b + len < 4 * |cells| && ByteAt(cells, b + len) == 0
    {
      overrun, len := false, 0;
      while b + len < 4 * |cells| && ByteAt(cells, b + len) != 0
        invariant s.Some? ==> len <= |s.value|
        decreases 4 * |cells| - (b + len)
      {
        len := len + 1;
      }
      assert s.Some? && len < |s.value| ==> s.value[len] in s.value;
      if b + len >= 4 * |cells| {
        overrun := true;
      }
    }

    /** A property token at `off`: one record, linked by the caller. */
    method ParseProp(off: nat) returns (outcome: Outcome, next: nat)
      requires Valid() && off < |cells| && cells[off] == FDT_PROP
      modifies this`propHead, props
      ensures Valid() && next > off && propHead >= old(propHead)
      ensures outcome == if old(propHead) + 1 >= props.Length then OutOfRecords
                         else if off + 3 > |cells| then Overrun
                         else Parsed(old(propHead))
      ensures outcome.Parsed? ==> propHead == old(propHead) + 1 && next == off + 3 + DataCells(cells[off + 1])
      ensures outcome.Parsed? ==>
                props[..] == old(props[..])[old(propHead) := PropRec(cells[off + 2], 4 * (off + 3), cells[off + 1], None)]
    {
      next := off + 1;
      var i := AllocProp();
      if i == None {
        return OutOfRecords, next;
      }
      if next + 2 > |cells| {
        return Overrun, next;
      }
      var length, name := cells[next], cells[next + 1];
      props[i.value] := props[i.value].(name := name, first := 4 * (next + 2), length := length);
      next := next + AlignUp(length, 4) / 4 + 2;
      outcome := Parsed(i.value);
    }

    method AddChild(node: nat, child: nat)
      requires Valid() && node < child < nodeHead
      modifies nodes
      ensures Valid() && nodes[..nodeHead] == LinkChild(old(nodes[..nodeHead]), node, child)
    {
      nodes[child] := nodes[child].(sibling := nodes[node].child);
      nodes[node] := nodes[node].(child := Some(child));
      nodes[child] := nodes[child].(parent := Some(node));
    }

    method AddProp(node: nat, prop: nat, ghost before: seq<PropRec>)
      requires Valid() && node < nodeHead && prop + 1 == propHead && before == props[..prop]
      modifies nodes, props
      ensures Valid()
      ensures nodes[..nodeHead] == old(nodes[..nodeHead])[node := old(nodes[node]).(props := Some(prop))]
      ensures props[..propHead] == before + [old(props[prop]).(next := old(nodes[node]).props)]
    {
      props[prop] := props[prop].(next := nodes[node].props);
      nodes[node] := nodes[node].(props := Some(prop));
    }

    method ParseNode(off: nat, ghost tree: Option<Tree>) returns (outcome: Outcome, next: nat)
      requires Valid() && off < |cells| && (tree.Some? ==> Holds(cells, off, tree.value))
      modifies this`nodeHead, this`propHead, nodes, props
      ensures Valid() && nodeHead >= old(nodeHead) && propHead >= old(propHead)
      ensures cells[off] != FDT_BEGIN_NODE ==> outcome == NoNode && next == off
      ensures cells[off] == FDT_BEGIN_NODE && (outcome.Parsed? || outcome.NoNode?) ==> next > off
      ensures outcome.Parsed? ==> outcome.node == old(nodeHead) < nodeHead
      ensures outcome.NoNode? && cells[off] == FDT_BEGIN_NODE ==> next >= |cells|
      ensures tree.Some? ==>
                outcome == if Fits(NodeCount(tree.value), PropCount(tree.value), old(nodeHead), nodes.Length, old(propHead), props.Length)
                           then Parsed(old(nodeHead)) else OutOfRecords
      ensures tree.Some? && outcome.Parsed? ==>
                next == off + CellCount(tree.value) &&
                nodes[..nodeHead] == old(nodes[..nodeHead]) + NodeRecs(tree.value, old(nodeHead), old(propHead), off) &&
                props[..propHead] == old(props[..propHead]) + PropRecs(tree.value, old(propHead), off)
      decreases |cells| - off, 1
    {
      if cells[off] != FDT_BEGIN_NODE {
        if tree.Some? { NodeParts(cells, off, tree.value); }
        return NoNode, off;
      }
      next := off;
      var i := AllocNode();
      if i == None {
        return OutOfRecords, next;
      }
      var node := i.value;
      nodes[node] := nodes[node].(name := 4 * (off + 1), addrCells := 2, sizeCells := 1);
      if tree.Some? { NameAt(cells, off, tree.value); }
      var overrun, len := StringLen(4 * (off + 1), if tree.Some? then Some(tree.value.name) else None);
      if overrun {
        return Overrun, next;
      }
      next := next + AlignUp(len + 1, 4) / 4 + 1;
      ghost var t := if tree.Some? then tree.value else Tree([], []);
      if tree.Some? {
        NoItemsYet(t, off, old(nodes[..nodeHead]), old(props[..propHead]));
        assert nodes[..nodeHead] == old(nodes[..nodeHead]) + [RootRec(t, 0, node, propHead, off)];
        MoreItems(t, 0, |t.items|);
      }
      outcome, next := ParseItems(off, node, next, tree, old(nodes[..nodeHead]), old(props[..propHead]));
    }

    /** The items of the node whose record is `node`, up to its end token. */
    method ParseItems(off: nat, node: nat, start: nat, ghost tree: Option<Tree>, ghost nodes0: seq<NodeRec>, ghost props0: seq<PropRec>)
      returns (outcome: Outcome, next: nat)
      requires Valid() && off < start && off < |cells|
      requires |nodes0| == node < nodeHead && |props0| <= propHead
      requires tree.Some? ==> Holds(cells, off, tree.value)
      requires tree.Some? ==> Progress(tree.value, 0, off, nodes0, props0, nodes[..nodeHead], props[..propHead], start)
      requires tree.Some? ==> Fits(1, 0, |nodes0|, nodes.Length, |props0|, props.Length)
      modifies this`nodeHead, this`propHead, nodes, props
      ensures Valid() && nodeHead >= old(nodeHead) && propHead >= old(propHead)
      ensures outcome.Parsed? || outcome.NoNode? ==> next > off
      ensures outcome.Parsed? ==> outcome.node == node
      ensures outcome.NoNode? ==> next >= |cells|
      ensures tree.Some? ==>
                outcome == if Fits(NodeCount(tree.value), PropCount(tree.value), |nodes0|, nodes.Length, |props0|, props.Length)
                           then Parsed(node) else OutOfRecords
      ensures tree.Some? && outcome.Parsed? ==>
                next == off + CellCount(tree.value) &&
                nodes[..nodeHead] == nodes0 + NodeRecs(tree.value, |nodes0|, |props0|, off) &&
                props[..propHead] == props0 + PropRecs(tree.value, |props0|, off)
      decreases |cells| - off, 0
    {
      hide Reached, Holds, NodeRecs, PropRecs, CellCount, NodeCount, PropCount, Fits;
      next := start;
      ghost var k := 0;
      StartReached(off, tree, nodes0, props0, next);
      while next < |cells|
        invariant Valid() && nodeHead >= old(nodeHead) && propHead >= old(propHead) && next > off
        invariant Reached(tree, k, off, nodes0, props0, next)
        decreases |cells| - next
      {
        if cells[next] == FDT_END_NODE {
          AllReached(tree, k, off, nodes0, props0, next);
          return Parsed(node), next + 1;
        }
        outcome, next := ParseItem(off, node, next, tree, k, nodes0, props0);
        if outcome.Overrun? || outcome.OutOfRecords? {
          return;
        }
        k := k + 1;
      }
      NotAtEnd(tree, k, off, nodes0, props0, next);
      outcome := NoNode;
    }

    /** Item `k` of the tree starts at `next`; everything before it has been parsed, and there were records for it. */
    ghost predicate Reached(tree: Option<Tree>, k: nat, off: nat, nodes0: seq<NodeRec>, props0: seq<PropRec>, next: nat)
      reads this, nodes, props
      requires Valid()
    {
      ReachedAt(cells, tree, k, off, nodes0, props0, nodes[..nodeHead], props[..propHead], next, nodes.Length, props.Length)
    }

    lemma StartReached(off: nat, tree: Option<Tree>, nodes0: seq<NodeRec>, props0: seq<PropRec>, next: nat)
      requires Valid() && off < |cells| && |nodes0| < nodeHead
      requires tree.Some? ==> Holds(cells, off, tree.value)
      requires tree.Some? ==> Progress(tree.value, 0, off, nodes0, props0, nodes[..nodeHead], props[..propHead], next)
      requires tree.Some? ==> Fits(1, 0, |nodes0|, nodes.Length, |props0|, props.Length)
      ensures Reached(tree, 0, off, nodes0, props0, next)
    {
      hide Token, Holds;
      if tree.Some? {
        AtToken(cells, off, tree.value, 0, nodes0, props0, nodes[..nodeHead], props[..propHead], next);
      }
    }

    lemma AllReached(tree: Option<Tree>, k: nat, off: nat, nodes0: seq<NodeRec>, props0: seq<PropRec>, next: nat)
      requires Valid() && Reached(tree, k, off, nodes0, props0, next) && next < |cells| && cells[next] == FDT_END_NODE
      ensures tree.Some? ==>
                Fits(NodeCount(tree.value), PropCount(tree.value), |nodes0|, nodes.Length, |props0|, props.Length)
      ensures tree.Some? ==> next + 1 == off + CellCount(tree.value)
      ensures tree.Some? ==> nodes[..nodeHead] == nodes0 + NodeRecs(tree.value, |nodes0|, |props0|, off)
      ensures tree.Some? ==> props[..propHead] == props0 + PropRecs(tree.value, |props0|, off)
    {
      hide Holds, RootRec, ItemNodes;
      if tree.Some? {
        assert k == |tree.value.items|;
      }
    }

    lemma NotAtEnd(tree: Option<Tree>, k: nat, off: nat, nodes0: seq<NodeRec>, props0: seq<PropRec>, next: nat)
      requires Valid() && Reached(tree, k, off, nodes0, props0, next) && next >= |cells|
      ensures tree.None?
    {
    }

    /** One item inside a node. */
    method ParseItem(off: nat, node: nat, at: nat, ghost tree: Option<Tree>, ghost k: nat,
                     ghost nodes0: seq<NodeRec>, ghost props0: seq<PropRec>)
      returns (outcome: Outcome, next: nat)
      requires Valid() && off < at < |cells| && cells[at] != FDT_END_NODE
      requires |nodes0| == node < nodeHead && |props0| <= propHead
      requires Reached(tree, k, off, nodes0, props0, at)
      modifies this`nodeHead, this`propHead, nodes, props
      ensures Valid() && nodeHead >= old(nodeHead) && propHead >= old(propHead)
      ensures outcome.Parsed? || outcome.NoNode? ==> next > at && Reached(tree, k + 1, off, nodes0, props0, next)
      ensures tree.Some? && !(outcome.Parsed? || outcome.NoNode?) ==>
                outcome == OutOfRecords &&
                !Fits(NodeCount(tree.value), PropCount(tree.value), |nodes0|, nodes.Length, |props0|, props.Length)
      decreases |cells| - at, 2
    {
      hide ReachedAt, Holds, Progress, Token, NodeRecs, PropRecs, CellCount, NodeCount, PropCount, Fits, LinkChild;
      ghost var nodes1, props1 := nodes[..nodeHead], props[..propHead];
      if cells[at] == FDT_BEGIN_NODE {
        ghost var sub := ChildDone(cells, tree, k, off, nodes0, props0, nodes1, props1, at, nodes.Length, props.Length);
        outcome, next := ParseNode(at, sub);
        if outcome.Parsed? {
          AddChild(node, outcome.node);
        }
        if tree.None? {
          NoTree(cells, k + 1, off, nodes0, props0, nodes[..nodeHead], props[..propHead], next, nodes.Length, props.Length);
        }
      } else if cells[at] == FDT_PROP {
        PropDone(cells, tree, k, off, nodes0, props0, nodes1, props1, at, nodes.Length, props.Length);
        outcome, next := ParseProp(at);
        if outcome.Parsed? {
          AddProp(node, outcome.node, props1);
        }
      } else {
        NopDone(cells, tree, k, off, nodes0, props0, nodes1, props1, at, nodes.Length, props.Length);
        outcome, next := Parsed(node), at + 1;
      }
    }

    method ParseRoot(i: nat, ghost tree: Option<Tree>) returns (outcome: Outcome, next: nat)
      requires Valid() && i < |cells| && cells[i] == FDT_BEGIN_NODE
      requires tree.Some? ==> Holds(cells, i, tree.value) && nodeHead == propHead == 0
      modifies this`nodeHead, this`propHead, this`root, nodes, props
      ensures Valid() && (outcome.Parsed? || outcome.NoNode? ==> next > i)
      ensures tree.Some? ==>
                outcome == if Fits(NodeCount(tree.value), PropCount(tree.value), 0, nodes.Length, 0, props.Length)
                           then Parsed(0) else OutOfRecords
      ensures tree.Some? && outcome.Parsed? ==>
                next == i + CellCount(tree.value) && root == Some(0) && props[..propHead] == PropRecs(tree.value, 0, i) &&
                nodes[..nodeHead] == WithSibling(NodeRecs(tree.value, 0, 0, i), old(root))
    {
      hide Holds, NodeRecs, PropRecs, CellCount, NodeCount, PropCount, Fits, WithSibling;
      outcome, next := ParseNode(i, tree);
      if outcome.Parsed? {
        ghost var parsed := nodes[..nodeHead];
        SiblingOfRoot(parsed, root);
        nodes[outcome.node] := nodes[outcome.node].(sibling := root);
        if tree.Some? {
          assert parsed == NodeRecs(tree.value, 0, 0, i) != [] by { EncodedSizes(i, tree.value); }
          assert nodes[..nodeHead] == parsed[0 := parsed[0].(sibling := root)];
        }
        root := Some(outcome.node);
      }
    }

    /** Parse a blob whose structure block holds one tree. */
    method Init(magic: Cell, ghost before: nat, ghost tree: Option<Tree>) returns (outcome: Outcome)
      requires tree.Some? ==> OneTree(cells, before, tree.value)
      modifies this`nodes, this`nodeHead, this`props, this`propHead, this`root, nodes, props
      ensures magic != FDT_MAGIC ==> outcome == NoNode && root == old(root) && nodes == old(nodes) && props == old(props)
      ensures magic == FDT_MAGIC ==> Valid()
      ensures magic == FDT_MAGIC && tree.Some? ==>
                (outcome == Parsed(0) <==> PoolsSuffice(cells, tree.value)) && (outcome != Parsed(0) ==> outcome == OutOfRecords)
      ensures magic == FDT_MAGIC && tree.Some? && outcome == Parsed(0) ==>
                root == Some(0) && props[..propHead] == PropRecs(tree.value, 0, before) &&
                nodes[..nodeHead] == WithSibling(NodeRecs(tree.value, 0, 0, before), old(root)) &&
                Shows(cells, nodes[..nodeHead], props[..propHead], 0, Mirror(tree.value))
    {
      if magic != FDT_MAGIC {
        return NoNode;
      }
      hide Holds, NodeRecs, PropRecs, CellCount, NodeCount, PropCount, CountCells, Fits, WithSibling, BufferBytes;
      AllocBuffers();
      if tree.Some? { NodeParts(cells, before, tree.value); EncodedSizes(before, tree.value); }
      ghost var done := false;
      outcome := NoNode;
      var i := 0;
      while i < |cells|
        invariant Valid() && fresh(nodes) && fresh(props)
        invariant nodes.Length == if Buffered(cells) then CountCells(cells, FDT_BEGIN_NODE) else 0
        invariant props.Length == if Buffered(cells) then CountCells(cells, FDT_PROP) else 0
        invariant tree.Some? && !done ==> i <= before && nodeHead == propHead == 0 && root == old(root)
        invariant tree.Some? && done ==> i > before && (forall j :: i <= j < |cells| ==> cells[j] != FDT_BEGIN_NODE)
        invariant tree.Some? && done ==> PoolsSuffice(cells, tree.value) && outcome == Parsed(0) && root == Some(0)
        invariant tree.Some? && done ==> props[..propHead] == PropRecs(tree.value, 0, before)
        invariant tree.Some? && done ==> nodes[..nodeHead] == WithSibling(NodeRecs(tree.value, 0, 0, before), old(root))
        decreases |cells| - i
      {
        if cells[i] == FDT_BEGIN_NODE {
          var subRoot;
          subRoot, i := ParseRoot(i, tree);
          if subRoot.Overrun? || subRoot.OutOfRecords? {
            return subRoot;
          }
          if subRoot.Parsed? {
            outcome, done := subRoot, true;
          }
        }
        i := i + 1;
      }
      if tree.Some? && done {
        WholeTreeShows(cells, nodes[..nodeHead], props[..propHead], tree.value, before, old(root));
      }
    }
  }

  lemma WholeTreeShows(cells: seq<Cell>, nodes: seq<NodeRec>, props: seq<PropRec>, t: Tree, before: nat, sibling: Link)
    requires Holds(cells, before, t)
    requires nodes == WithSibling(NodeRecs(t, 0, 0, before), sibling) && props == PropRecs(t, 0, before)
    ensures Shows(cells, nodes, props, 0, Mirror(t))
  {
    hide Holds, NodeRecs, PropRecs, Shows;
    EncodedSizes(before, t);
    ParsedTreeShows(cells, nodes, props, t, 0, 0, before);
  }

  function WithSibling(nodes: seq<NodeRec>, sibling: Link): seq<NodeRec> {
    if nodes == [] then [] else [nodes[0].(sibling := sibling)] + nodes[1..]
  }

  lemma EncodedSizes(before: nat, t: Tree)
    ensures |NodeRecs(t, 0, 0, before)| == NodeCount(t) > 0 && CellCount(t) > 0
  {
    RecordCounts(t, 0, 0, before);
  }

  lemma SiblingOfRoot(nodes: seq<NodeRec>, sibling: Link)
    ensures nodes != [] ==> WithSibling(nodes, sibling) == nodes[0 := nodes[0].(sibling := sibling)]
  {
  }

  /** The block holds the encoding of `t` from cell `before` on, and no other node. */
  ghost predicate OneTree(cells: seq<Cell>, before: nat, t: Tree) {
    && Holds(cells, before, t)
    && (forall i :: 0 <= i < before ==> cells[i] != FDT_BEGIN_NODE)
    && (forall i :: before + CellCount(t) <= i < |cells| ==> cells[i] != FDT_BEGIN_NODE)
  }
}
