/** What a reader of the parsed records sees, compared with the tree that was encoded. */
module DeviceTreeView {
  import opened Common
  import opened DeviceTree

  // ===== reading the records =====

  /** A node as a reader sees it: names, property data, and the two lists in list order. */
  datatype View = View(name: seq<Byte>, props: seq<(Cell, seq<Byte>)>, children: seq<View>)

  /** The list of children that starts at `first`, following `sibling`. */
  function Siblings(nodes: seq<NodeRec>, first: Link): seq<nat>
    decreases if first.Some? then first.value + 1 else 0
  {
    if first.None? || first.value >= |nodes| then [] else
      var next := nodes[first.value].sibling;
      [first.value] + if next.Some? && next.value < first.value then Siblings(nodes, next) else []
  }

  /** The list of properties that starts at `first`, following `next`. */
  function PropList(props: seq<PropRec>, first: Link): seq<nat>
    decreases if first.Some? then first.value + 1 else 0
  {
    if first.None? || first.value >= |props| then [] else
      var next := props[first.value].next;
      [first.value] + if next.Some? && next.value < first.value then PropList(props, next) else []
  }

  /** The list of children ends with a null link. */
  predicate ChildrenEnd(nodes: seq<NodeRec>, first: Link)
    decreases if first.Some? then first.value + 1 else 0
  {
    first.Some? ==>
      first.value < |nodes| &&
      var next := nodes[first.value].sibling;
      next.Some? ==> next.value < first.value && ChildrenEnd(nodes, next)
  }

  predicate PropsEnd(props: seq<PropRec>, first: Link)
    decreases if first.Some? then first.value + 1 else 0
  {
    first.Some? ==>
      first.value < |props| &&
      var next := props[first.value].next;
      next.Some? ==> next.value < first.value && PropsEnd(props, next)
  }

  predicate DataAt(cells: seq<Cell>, first: nat, data: seq<Byte>) {
    first + |data| <= 4 * |cells| && forall i :: 0 <= i < |data| ==> ByteAt(cells, first + i) == data[i]
  }

  ghost predicate ShowsProps(cells: seq<Cell>, props: seq<PropRec>, list: seq<nat>, v: seq<(Cell, seq<Byte>)>) {
    |list| == |v| && forall k :: 0 <= k < |list| ==>
      list[k] < |props| && props[list[k]].name == v[k].0 && props[list[k]].length == |v[k].1| &&
      DataAt(cells, props[list[k]].first, v[k].1)
  }

  /** Record `i` shows `v`, and every child record points back to its parent. */
  ghost predicate Shows(cells: seq<Cell>, nodes: seq<NodeRec>, props: seq<PropRec>, i: nat, v: View)
    decreases v, 1
  {
    && i < |nodes| && StringAt(cells, nodes[i].name, v.name)
    && nodes[i].addrCells == 2 && nodes[i].sizeCells == 1
    && PropsEnd(props, nodes[i].props) && ChildrenEnd(nodes, nodes[i].child)
    && ShowsProps(cells, props, PropList(props, nodes[i].props), v.props)
    && ShowsChildren(cells, nodes, props, i, Siblings(nodes, nodes[i].child), v.children)
  }

  ghost predicate ShowsChildren(cells: seq<Cell>, nodes: seq<NodeRec>, props: seq<PropRec>, parent: nat, list: seq<nat>, v: seq<View>)
    decreases v
  {
    |list| == |v| && forall k :: 0 <= k < |v| ==>
      list[k] < |nodes| && nodes[list[k]].parent == Some(parent) && Shows(cells, nodes, props, list[k], v[k])
  }

  /** The tree with both lists in reverse document order. */
  function Mirror(t: Tree): View
    decreases t, |t.items| + 1
  {
    View(t.name, MirrorProps(t, |t.items|), MirrorChildren(t, |t.items|))
  }

  function MirrorProps(t: Tree, k: nat): seq<(Cell, seq<Byte>)>
    requires k <= |t.items|
  {
    if k == 0 then [] else
      (if t.items[k - 1].Prop? then [(t.items[k - 1].nameOffset, t.items[k - 1].data)] else []) + MirrorProps(t, k - 1)
  }

  function MirrorChildren(t: Tree, k: nat): seq<View>
    requires k <= |t.items|
    decreases t, k
  {
    if k == 0 then [] else
      (if t.items[k - 1].Child? then [Mirror(t.items[k - 1].node)] else []) + MirrorChildren(t, k - 1)
  }

  /** Records agree with what the parser computed, except that the first may have a parent and a sibling. */
  predicate Segment(nodes: seq<NodeRec>, n: nat, recs: seq<NodeRec>) {
    n + |recs| <= |nodes| && recs != []
    && nodes[n].(parent := None, sibling := None) == recs[0].(parent := None, sibling := None)
    && forall j :: 0 < j < |recs| ==> nodes[n + j] == recs[j]
  }

  predicate PropSegment(props: seq<PropRec>, p: nat, recs: seq<PropRec>) {
    p + |recs| <= |props| && forall j :: 0 <= j < |recs| ==> props[p + j] == recs[j]
  }

  /** The parsed records show exactly the encoded tree, lists reversed. */
  lemma {:induction false} ParsedTreeShows(cells: seq<Cell>, nodes: seq<NodeRec>, props: seq<PropRec>, t: Tree, n: nat, p: nat, off: nat)
    requires Holds(cells, off, t)
    requires Segment(nodes, n, NodeRecs(t, n, p, off)) && PropSegment(props, p, PropRecs(t, p, off))
    ensures Shows(cells, nodes, props, n, Mirror(t))
    decreases t, |t.items| + 1
  {
    RecordCounts(t, n, p, off);
    NameAt(cells, off, t);
    var all := |t.items|;
    ItemsShow(cells, nodes, props, t, all, n, p, off);
    PropsShow(cells, props, t, all, p, off);
  }

  lemma {:induction false} ItemsShow(cells: seq<Cell>, nodes: seq<NodeRec>, props: seq<PropRec>, t: Tree, k: nat, n: nat, p: nat, off: nat)
    requires Holds(cells, off, t) && k <= |t.items|
    requires Segment(nodes, n, NodeRecs(t, n, p, off)) && PropSegment(props, p, PropRecs(t, p, off))
    ensures ShowsChildren(cells, nodes, props, n, Siblings(nodes, LastChild(t, k, n)), MirrorChildren(t, k))
    ensures ChildrenEnd(nodes, LastChild(t, k, n))
    decreases t, k
  {
    hide Holds, NodeRecs, PropRecs, Segment, PropSegment, ItemStart, NodesIn, PropsIn, Mirror;
    if k > 0 {
      ItemsShow(cells, nodes, props, t, k - 1, n, p, off);
      if t.items[k - 1].Child? {
        var c, i := t.items[k - 1].node, ChildIndex(t, k - 1, n);
        ChildSegment(cells, nodes, props, t, k - 1, n, p, off);
        ParsedTreeShows(cells, nodes, props, c, i, p + PropsIn(t, k - 1), ItemStart(t, k - 1, off));
        LastChildBelow(t, k - 1, n);
        AddShown(cells, nodes, props, n, i, Siblings(nodes, LastChild(t, k - 1, n)), Mirror(c), MirrorChildren(t, k - 1));
        assert Siblings(nodes, Some(i)) == [i] + Siblings(nodes, LastChild(t, k - 1, n));
      } else {
        assert MirrorChildren(t, k) == MirrorChildren(t, k - 1);
      }
    }
  }

  lemma AddShown(cells: seq<Cell>, nodes: seq<NodeRec>, props: seq<PropRec>, parent: nat, i: nat, list: seq<nat>, first: View, rest: seq<View>)
    requires ShowsChildren(cells, nodes, props, parent, list, rest)
    requires i < |nodes| && nodes[i].parent == Some(parent) && Shows(cells, nodes, props, i, first)
    ensures ShowsChildren(cells, nodes, props, parent, [i] + list, [first] + rest)
  {
    hide Shows;
    forall k | 0 <= k < |rest| + 1
      ensures ([i] + list)[k] < |nodes| && nodes[([i] + list)[k]].parent == Some(parent)
      ensures Shows(cells, nodes, props, ([i] + list)[k], ([first] + rest)[k])
    {
      if k > 0 {
        assert ([i] + list)[k] == list[k - 1] && ([first] + rest)[k] == rest[k - 1];
      }
    }
  }

  lemma LastChildBelow(t: Tree, k: nat, n: nat)
    requires k <= |t.items|
    ensures LastChild(t, k, n).Some? ==> n < LastChild(t, k, n).value < ChildIndex(t, k, n)
  {
  }

  lemma LastPropBelow(t: Tree, k: nat, p: nat)
    requires k <= |t.items|
    ensures LastProp(t, k, p).Some? ==> p <= LastProp(t, k, p).value < p + PropsIn(t, k)
  {
  }

  /** Where the records of a child are. */
  lemma ChildSegment(cells: seq<Cell>, nodes: seq<NodeRec>, props: seq<PropRec>, t: Tree, k: nat, n: nat, p: nat, off: nat)
    requires Holds(cells, off, t) && k < |t.items| && t.items[k].Child?
    requires Segment(nodes, n, NodeRecs(t, n, p, off)) && PropSegment(props, p, PropRecs(t, p, off))
    ensures var c, i, q, start := t.items[k].node, ChildIndex(t, k, n), p + PropsIn(t, k), ItemStart(t, k, off);
            Holds(cells, start, c) && Segment(nodes, i, NodeRecs(c, i, q, start)) && PropSegment(props, q, PropRecs(c, q, start)) &&
            nodes[i].parent == Some(n) && nodes[i].sibling == LastChild(t, k, n)
  {
    ItemPart(cells, off, t, k);
    ChildNodes(nodes, t, k, n, p, off);
    ChildProps(props, t, k, n, p, off);
  }

  lemma ChildNodes(nodes: seq<NodeRec>, t: Tree, k: nat, n: nat, p: nat, off: nat)
    requires k < |t.items| && t.items[k].Child? && Segment(nodes, n, NodeRecs(t, n, p, off))
    ensures var i := ChildIndex(t, k, n);
            Segment(nodes, i, NodeRecs(t.items[k].node, i, p + PropsIn(t, k), ItemStart(t, k, off))) &&
            nodes[i].parent == Some(n) && nodes[i].sibling == LastChild(t, k, n)
  {
    var i := ChildIndex(t, k, n);
    var recs, tail := NodeRecs(t.items[k].node, i, p + PropsIn(t, k), ItemStart(t, k, off)), ItemNodes(t, |t.items|, n, p, off);
    var root, before, hooked := RootRec(t, |t.items|, n, p, off), NodesIn(t, k), ItemNodeRecs(t, k, n, p, off);
    NodeRecsTail(t, n, p, off);
    NodesInside(t, |t.items|, k, n, p, off);
    assert hooked == Hooked(recs, n, LastChild(t, k, n)) && recs != [];
    hide NodeRecs, ItemNodeRecs, ItemNodes, NodesIn, PropsIn, ItemStart, LastChild, RootRec;
    assert i + |recs| <= |nodes|;
    forall j | 0 <= j < |recs| ensures nodes[i + j] == hooked[j] {
      assert hooked[j] == tail[before..before + |recs|][j] == tail[before + j] == ([root] + tail)[1 + before + j];
      assert i + j == n + (1 + before + j);
    }
    HookedSegment(nodes, i, recs, n, LastChild(t, k, n));
  }

  lemma HookedSegment(nodes: seq<NodeRec>, i: nat, recs: seq<NodeRec>, parent: nat, sibling: Link)
    requires recs != [] && i + |recs| <= |nodes|
    requires forall j :: 0 <= j < |recs| ==> nodes[i + j] == Hooked(recs, parent, sibling)[j]
    ensures Segment(nodes, i, recs) && nodes[i].parent == Some(parent) && nodes[i].sibling == sibling
  {
    assert nodes[i + 0] == Hooked(recs, parent, sibling)[0];
    forall j | 0 < j < |recs| ensures nodes[i + j] == recs[j] {
      assert Hooked(recs, parent, sibling)[j] == recs[j];
    }
  }

  lemma ChildProps(props: seq<PropRec>, t: Tree, k: nat, n: nat, p: nat, off: nat)
    requires k < |t.items| && t.items[k].Child? && PropSegment(props, p, PropRecs(t, p, off))
    ensures PropSegment(props, p + PropsIn(t, k), PropRecs(t.items[k].node, p + PropsIn(t, k), ItemStart(t, k, off)))
  {
    var q := p + PropsIn(t, k);
    var all, part := PropRecs(t, p, off), PropRecs(t.items[k].node, q, ItemStart(t, k, off));
    NodeRecsTail(t, n, p, off);
    PropsInside(t, |t.items|, k, n, p, off);
    hide PropRecs, PropsIn, ItemStart;
    forall j | 0 <= j < |part| ensures q + j < |props| && props[q + j] == part[j] {
      assert part[j] == all[PropsIn(t, k)..PropsIn(t, k) + |part|][j] == all[PropsIn(t, k) + j];
      assert q + j == p + (PropsIn(t, k) + j);
    }
  }

  lemma NodeRecsTail(t: Tree, n: nat, p: nat, off: nat)
    ensures NodeRecs(t, n, p, off) == [RootRec(t, |t.items|, n, p, off)] + ItemNodes(t, |t.items|, n, p, off)
    ensures PropRecs(t, p, off) == ItemProps(t, |t.items|, p, off)
  {
  }

  lemma {:induction false} NodesInside(t: Tree, last: nat, k: nat, n: nat, p: nat, off: nat)
    requires k < last <= |t.items|
    ensures var part := ItemNodeRecs(t, k, n, p, off);
            NodesIn(t, k) + |part| <= |ItemNodes(t, last, n, p, off)| &&
            ItemNodes(t, last, n, p, off)[NodesIn(t, k)..NodesIn(t, k) + |part|] == part
    decreases last
  {
    hide ItemNodeRecs;
    ItemRecordCounts(t, last - 1, n, p, off);
    if k < last - 1 {
      NodesInside(t, last - 1, k, n, p, off);
    }
  }

  lemma {:induction false} PropsInside(t: Tree, last: nat, k: nat, n: nat, p: nat, off: nat)
    requires k < last <= |t.items|
    ensures var part := ItemPropRecs(t, k, p, off);
            PropsIn(t, k) + |part| <= |ItemProps(t, last, p, off)| &&
            ItemProps(t, last, p, off)[PropsIn(t, k)..PropsIn(t, k) + |part|] == part
    decreases last
  {
    hide ItemPropRecs;
    ItemRecordCounts(t, last - 1, n, p, off);
    if k < last - 1 {
      PropsInside(t, last - 1, k, n, p, off);
    }
  }

  lemma {:induction false} PropsShow(cells: seq<Cell>, props: seq<PropRec>, t: Tree, k: nat, p: nat, off: nat)
    requires Holds(cells, off, t) && k <= |t.items|
    requires PropSegment(props, p, PropRecs(t, p, off))
    ensures ShowsProps(cells, props, PropList(props, LastProp(t, k, p)), MirrorProps(t, k))
    ensures PropsEnd(props, LastProp(t, k, p))
    decreases k
  {
    hide Holds, PropRecs, ItemStart, PropsIn, DataAt;
    if k > 0 {
      PropsShow(cells, props, t, k - 1, p, off);
      if t.items[k - 1].Prop? {
        var i, list, data := p + PropsIn(t, k - 1), PropList(props, LastProp(t, k - 1, p)), t.items[k - 1].data;
        OwnProp(props, t, k - 1, p, off);
        PackedData(cells, off, t, k - 1);
        LastPropBelow(t, k - 1, p);
        assert PropList(props, Some(i)) == [i] + list;
        AddProp(cells, props, i, list, (t.items[k - 1].nameOffset, data), MirrorProps(t, k - 1));
      } else {
        assert MirrorProps(t, k) == MirrorProps(t, k - 1);
      }
    }
  }

  lemma AddProp(cells: seq<Cell>, props: seq<PropRec>, i: nat, list: seq<nat>, first: (Cell, seq<Byte>), rest: seq<(Cell, seq<Byte>)>)
    requires ShowsProps(cells, props, list, rest)
    requires i < |props| && props[i].name == first.0 && props[i].length == |first.1| && DataAt(cells, props[i].first, first.1)
    ensures ShowsProps(cells, props, [i] + list, [first] + rest)
  {
    hide DataAt;
  }

  lemma OwnProp(props: seq<PropRec>, t: Tree, k: nat, p: nat, off: nat)
    requires k < |t.items| && t.items[k].Prop? && PropSegment(props, p, PropRecs(t, p, off))
    ensures var i := p + PropsIn(t, k);
            i < |props| &&
            props[i] == PropRec(t.items[k].nameOffset, 4 * (ItemStart(t, k, off) + 3), |t.items[k].data|, LastProp(t, k, p))
  {
    var all, part := PropRecs(t, p, off), ItemPropRecs(t, k, p, off);
    PropsInside(t, |t.items|, k, 0, p, off);
    NodeRecsTail(t, 0, p, off);
    hide PropRecs, PropsIn, ItemStart, LastProp;
    assert part[0] == all[PropsIn(t, k)..PropsIn(t, k) + 1][0] == all[PropsIn(t, k)];
  }

  lemma PackedData(cells: seq<Cell>, off: nat, t: Tree, k: nat)
    requires Holds(cells, off, t) && k < |t.items| && t.items[k].Prop?
    ensures DataAt(cells, 4 * (ItemStart(t, k, off) + 3), t.items[k].data)
  {
    hide Holds, Pack, ByteAt;
    var at, data := ItemStart(t, k, off) + 3, t.items[k].data;
    ItemPart(cells, off, t, k);
    forall i | 0 <= i < |data| ensures 4 * at + i < 4 * |cells| && ByteAt(cells, 4 * at + i) == data[i] {
      PackedByte(cells, at, data, i);
    }
  }

  // ===== a view is determined by the records =====

  lemma {:induction false} SameString(cells: seq<Cell>, b: nat, s: seq<Byte>, u: seq<Byte>)
    requires StringAt(cells, b, s) && StringAt(cells, b, u)
    ensures s == u
  {
    NotLonger(cells, b, s, u);
    NotLonger(cells, b, u, s);
  }

  lemma NotLonger(cells: seq<Cell>, b: nat, s: seq<Byte>, u: seq<Byte>)
    requires StringAt(cells, b, s) && StringAt(cells, b, u)
    ensures |u| <= |s|
  {
    hide StringAt;
    EndsAt(cells, b, s);
    if |s| < |u| {
      GoesOnAt(cells, b, u, |s|);
    }
  }

  lemma EndsAt(cells: seq<Cell>, b: nat, s: seq<Byte>)
    requires StringAt(cells, b, s)
    ensures b + |s| < 4 * |cells| && ByteAt(cells, b + |s|) == 0
  {
  }

  lemma GoesOnAt(cells: seq<Cell>, b: nat, s: seq<Byte>, k: nat)
    requires StringAt(cells, b, s) && k < |s|
    ensures b + k < 4 * |cells| && ByteAt(cells, b + k) != 0
  {
    hide ByteAt;
    assert s[k] in s;
  }

  /** A record shows at most one tree, so what the parser leaves behind determines the tree. */
  lemma {:induction false} ShowsOnlyOne(cells: seq<Cell>, nodes: seq<NodeRec>, props: seq<PropRec>, i: nat, v: View, w: View)
    requires Shows(cells, nodes, props, i, v) && Shows(cells, nodes, props, i, w)
    ensures v == w
    decreases v
  {
    SameString(cells, nodes[i].name, v.name, w.name);
    forall k | 0 <= k < |v.props| ensures v.props[k] == w.props[k] {
      SameData(cells, props[PropList(props, nodes[i].props)[k]].first, v.props[k].1, w.props[k].1);
    }
    assert v.props == w.props;
    forall k | 0 <= k < |v.children| ensures v.children[k] == w.children[k] {
      ShowsOnlyOne(cells, nodes, props, Siblings(nodes, nodes[i].child)[k], v.children[k], w.children[k]);
    }
    assert v.children == w.children;
  }

  lemma SameData(cells: seq<Cell>, first: nat, a: seq<Byte>, b: seq<Byte>)
    requires DataAt(cells, first, a) && DataAt(cells, first, b) && |a| == |b|
    ensures a == b
  {
  }

  // ===== the lists are reversed =====

  function ChildrenOf(t: Tree, k: nat): seq<Tree>
    requires k <= |t.items|
  {
    if k == 0 then [] else ChildrenOf(t, k - 1) + if t.items[k - 1].Child? then [t.items[k - 1].node] else []
  }

  lemma {:induction false} ChildrenReversed(t: Tree, k: nat, i: nat)
    requires k <= |t.items| && i < |ChildrenOf(t, k)|
    ensures |MirrorChildren(t, k)| == |ChildrenOf(t, k)|
    ensures MirrorChildren(t, k)[|ChildrenOf(t, k)| - 1 - i] == Mirror(ChildrenOf(t, k)[i])
  {
    hide Mirror;
    ChildrenCounted(t, k);
    if i < |ChildrenOf(t, k - 1)| {
      ChildrenReversed(t, k - 1, i);
    } else {
      ChildrenCounted(t, k - 1);
    }
  }

  lemma {:induction false} ChildrenCounted(t: Tree, k: nat)
    requires k <= |t.items|
    ensures |MirrorChildren(t, k)| == |ChildrenOf(t, k)|
  {
    hide Mirror;
    if k > 0 {
      ChildrenCounted(t, k - 1);
    }
  }
}
