/**
 * Model states: graphs of nodes and edges that are kept either on the heap or, to be sent to
 * another process, in one block of memory; and the merging of one model state into another.
 */
module ModelGraph {
  import opened Common
  import opened Resources

  /** The C code keys nodes by strings that it formats from these. */
  datatype NodeId = PdNode(pd: PdId) | ResourceNode(res: ResId) | SpaceNode(kind: Kind, space: SpaceId)

  datatype NodeKind = PD | RESOURCE | SPACE

  datatype EdgeKind = SUBSET | MAP | REQUEST | HOLD

  datatype Edge = Edge(kind: EdgeKind, request: Kind, from: NodeId, to: NodeId)

  datatype Node = Node(kind: NodeKind, data: string, extra: string, extracted: bool)

  /** One allocated structure: in the block of a portable state, or on the heap. */
  datatype Component = NodeItem(id: NodeId, node: Node) | EdgeItem(edge: Edge)

  const CSV_MAX_STRING_SIZE: nat := 100

  /** What a copy into a fixed buffer keeps. */
  function Clip(s: string): (c: string)
    ensures c <= s && |c| == if |s| > 100 then 100 else |s|
  {
    if |s| > CSV_MAX_STRING_SIZE then s[..CSV_MAX_STRING_SIZE] else s
  }

  function DataOf(data: Option<string>): string {
    if data.Some? then Clip(data.value) else ""
  }

  // ===== graphs =====

  datatype Graph = Graph(nodes: map<NodeId, Node>, edges: set<Edge>)

  const EMPTY := Graph(map[], {})

  /** An existing node is kept, but data fills in for empty data. */
  function NodeAdded(nodes: map<NodeId, Node>, kind: NodeKind, id: NodeId, data: Option<string>, extracted: bool): map<NodeId, Node> {
    if id !in nodes then nodes[id := Node(kind, DataOf(data), "", extracted)]
    else if nodes[id].data == "" then nodes[id := nodes[id].(data := DataOf(data))]
    else nodes
  }

  /**
   * The merge of two graphs: all node IDs and all edges; the destination's nodes win, and so does
   * its data where it is not empty.  Nodes that come from the source lose their extra data.
   */
  function Merge(d: Graph, s: Graph): Graph {
    Graph(MergedNodes(d.nodes, s.nodes), d.edges + s.edges)
  }

  function MergedNodes(d: map<NodeId, Node>, s: map<NodeId, Node>): map<NodeId, Node> {
    map id | id in d.Keys + s.Keys :: if id !in s then d[id] else MergedNode(if id in d then Some(d[id]) else None, s[id])
  }

  function MergedNode(mine: Option<Node>, other: Node): Node {
    if mine.None? then Node(other.kind, Clip(other.data), "", true)
    else if mine.value.data == "" then mine.value.(data := Clip(other.data))
    else mine.value
  }

  predicate Clipped(g: Graph) {
    forall id :: id in g.nodes ==> |g.nodes[id].data| <= CSV_MAX_STRING_SIZE
  }

  lemma MergeIsIdempotent(d: Graph, s: Graph)
    ensures Merge(Merge(d, s), s) == Merge(d, s)
    ensures Clipped(d) ==> Merge(d, d) == d
  {
    assert Merge(Merge(d, s), s).nodes == Merge(d, s).nodes;
    assert Clipped(d) ==> Merge(d, d).nodes == d.nodes;
  }

  lemma MergeIsAssociative(a: Graph, b: Graph, c: Graph)
    ensures Merge(Merge(a, b), c) == Merge(a, Merge(b, c))
  {
    hide MergedNodes, MergedNode;
    forall id
      ensures At(Merge(Merge(a, b), c).nodes, id) == At(Merge(a, Merge(b, c)).nodes, id)
    {
      MergedAt(a.nodes, b.nodes, id);
      MergedAt(b.nodes, c.nodes, id);
      MergedAt(MergedNodes(a.nodes, b.nodes), c.nodes, id);
      MergedAt(a.nodes, MergedNodes(b.nodes, c.nodes), id);
      MergedTwice(At(a.nodes, id), At(b.nodes, id), At(c.nodes, id));
    }
    SameEverywhere(Merge(Merge(a, b), c).nodes, Merge(a, Merge(b, c)).nodes);
  }

  function At(nodes: map<NodeId, Node>, id: NodeId): Option<Node> {
    if id in nodes then Some(nodes[id]) else None
  }

  function Merged(mine: Option<Node>, other: Option<Node>): Option<Node> {
    if other.None? then mine else Some(MergedNode(mine, other.value))
  }

  lemma MergedAt(d: map<NodeId, Node>, s: map<NodeId, Node>, id: NodeId)
    ensures At(MergedNodes(d, s), id) == Merged(At(d, id), At(s, id))
  {
  }

  lemma MergedTwice(a: Option<Node>, b: Option<Node>, c: Option<Node>)
    ensures Merged(Merged(a, b), c) == Merged(a, Merged(b, c))
  {
  }

  lemma SameEverywhere(m: map<NodeId, Node>, n: map<NodeId, Node>)
    requires forall id :: At(m, id) == At(n, id)
    ensures m == n
  {
    assert forall id :: id in m <==> At(m, id).Some?;
    assert forall id :: id in n <==> At(n, id).Some?;
    assert forall id :: id in m ==> m[id] == At(m, id).value && n[id] == At(n, id).value;
  }

  /** A node that only the source has keeps its extra data exactly if it has none. */
  lemma ExtraKeptIff(d: Graph, s: Graph, id: NodeId)
    requires id in s.nodes && id !in d.nodes
    ensures id in Merge(d, s).nodes && (Merge(d, s).nodes[id].extra == s.nodes[id].extra <==> s.nodes[id].extra == "")
  {
  }

  /** A VMR whose type and size are lost in the merge. */
  lemma ExtraIsLost()
    ensures var vmr := Node(RESOURCE, "VMR", "CODE_1_12", true);
            var id := ResourceNode(ResId(KIND_VMR, 9, 1));
            Merge(EMPTY, Graph(map[id := vmr], {})).nodes == map[id := vmr.(extra := "")]
  {
    var id := ResourceNode(ResId(KIND_VMR, 9, 1));
    var merged := Merge(EMPTY, Graph(map[id := Node(RESOURCE, "VMR", "CODE_1_12", true)], {})).nodes;
    assert merged.Keys == {id};
    assert Clip("VMR") == "VMR";
  }

  /** What merging keeps of either side. */
  lemma MergeIsUnion(d: Graph, s: Graph)
    ensures var m := Merge(d, s);
            m.nodes.Keys == d.nodes.Keys + s.nodes.Keys && m.edges == d.edges + s.edges &&
            (forall id :: id in d.nodes && d.nodes[id].data != "" ==> m.nodes[id] == d.nodes[id]) &&
            (forall id :: id in m.nodes && m.nodes[id].data == "" ==>
               (id in d.nodes ==> d.nodes[id].data == "") && (id in s.nodes ==> s.nodes[id].data == ""))
  {
  }

  // ===== the graph that a sequence of components spells out =====

  function NodesOf(items: seq<Component>, onto: map<NodeId, Node>): map<NodeId, Node> {
    if items == [] then onto else
      var before := NodesOf(items[..|items| - 1], onto);
      match items[|items| - 1]
      case NodeItem(id, node) => NodeAdded(before, node.kind, id, Some(node.data), true)
      case EdgeItem(_) => before
  }

  function EdgesOf(items: seq<Component>): set<Edge> {
    set i | 0 <= i < |items| && items[i].EdgeItem? :: items[i].edge
  }

  /** Adding the components one by one to a graph merges it with the graph that they spell out. */
  lemma {:induction false} AddingIsMerging(d: map<NodeId, Node>, items: seq<Component>)
    ensures NodesOf(items, d) == MergedNodes(d, NodesOf(items, map[]))
  {
    if items == [] {
      assert MergedNodes(d, map[]) == d;
    } else {
      var init := items[..|items| - 1];
      AddingIsMerging(d, init);
      match items[|items| - 1]
      case NodeItem(id, node) => MergeThenAdd(d, NodesOf(init, map[]), node.kind, id, node.data);
      case EdgeItem(_) =>
    }
  }

  lemma MergeThenAdd(d: map<NodeId, Node>, s: map<NodeId, Node>, kind: NodeKind, id: NodeId, data: string)
    ensures NodeAdded(MergedNodes(d, s), kind, id, Some(data), true) == MergedNodes(d, NodeAdded(s, kind, id, Some(data), true))
  {
    var left := NodeAdded(MergedNodes(d, s), kind, id, Some(data), true);
    var right := MergedNodes(d, NodeAdded(s, kind, id, Some(data), true));
    assert left.Keys == right.Keys;
    forall x | x in left ensures left[x] == right[x] {
    }
  }

  /** Every ID and every edge occurs once, and the indexes say where. */
  ghost predicate Indexed(items: seq<Component>, nodes: map<NodeId, nat>, edges: map<Edge, nat>) {
    && (forall id :: id in nodes ==> nodes[id] < |items| && items[nodes[id]].NodeItem? && items[nodes[id]].id == id)
    && (forall i :: 0 <= i < |items| && items[i].NodeItem? ==> items[i].id in nodes && nodes[items[i].id] == i)
    && (forall e :: e in edges ==> edges[e] < |items| && items[edges[e]] == EdgeItem(e))
    && (forall i :: 0 <= i < |items| && items[i].EdgeItem? ==> items[i].edge in edges)
    && (forall i :: 0 <= i < |items| && items[i].NodeItem? ==> |items[i].node.data| <= CSV_MAX_STRING_SIZE)
  }

  function GraphOf(items: seq<Component>): Graph {
    Graph(NodesOf(items, map[]), EdgesOf(items))
  }

  /** The graph as the hash tables show it. */
  ghost function Shown(items: seq<Component>, nodes: map<NodeId, nat>, edges: map<Edge, nat>): Graph
    requires Indexed(items, nodes, edges)
  {
    Graph(map id | id in nodes :: items[nodes[id]].node, edges.Keys)
  }

  lemma {:induction false} SpelledNode(items: seq<Component>, nodes: map<NodeId, nat>, edges: map<Edge, nat>, k: nat, id: NodeId)
    requires Indexed(items, nodes, edges) && k <= |items|
    ensures var spelled := NodesOf(items[..k], map[]);
            (id in spelled <==> id in nodes && nodes[id] < k) &&
            (id in spelled ==> spelled[id] == MergedNode(None, items[nodes[id]].node))
  {
    if k > 0 {
      SpelledNode(items, nodes, edges, k - 1, id);
      assert items[..k][..k - 1] == items[..k - 1];
    }
  }

  /** Merging the components and merging the graph of the hash tables come to the same. */
  lemma MergeComponents(d: Graph, items: seq<Component>, nodes: map<NodeId, nat>, edges: map<Edge, nat>)
    requires Indexed(items, nodes, edges)
    ensures Merge(d, GraphOf(items)) == Merge(d, Shown(items, nodes, edges))
  {
    var s, t := GraphOf(items), Shown(items, nodes, edges);
    assert items[..|items|] == items;
    forall id ensures At(MergedNodes(d.nodes, s.nodes), id) == At(MergedNodes(d.nodes, t.nodes), id) {
      SpelledNode(items, nodes, edges, |items|, id);
      MergedAt(d.nodes, s.nodes, id);
      MergedAt(d.nodes, t.nodes, id);
    }
    SameEverywhere(MergedNodes(d.nodes, s.nodes), MergedNodes(d.nodes, t.nodes));
    assert s.edges == t.edges;
  }

  lemma NodeAppended(items: seq<Component>, nodes: map<NodeId, nat>, edges: map<Edge, nat>, id: NodeId, node: Node)
    requires Indexed(items, nodes, edges) && id !in nodes && |node.data| <= CSV_MAX_STRING_SIZE
    ensures var more := items + [NodeItem(id, node)];
            Indexed(more, nodes[id := |items|], edges) &&
            Shown(more, nodes[id := |items|], edges) == Shown(items, nodes, edges).(nodes := Shown(items, nodes, edges).nodes[id := node])
  {
  }

  lemma EdgeAppended(items: seq<Component>, nodes: map<NodeId, nat>, edges: map<Edge, nat>, e: Edge)
    requires Indexed(items, nodes, edges) && e !in edges
    ensures var more := items + [EdgeItem(e)];
            Indexed(more, nodes, edges[e := |items|]) &&
            Shown(more, nodes, edges[e := |items|]) == Shown(items, nodes, edges).(edges := Shown(items, nodes, edges).edges + {e})
  {
    var more := items + [EdgeItem(e)];
    assert Shown(more, nodes, edges[e := |items|]).nodes == Shown(items, nodes, edges).nodes;
  }

  lemma NodeReplaced(items: seq<Component>, nodes: map<NodeId, nat>, edges: map<Edge, nat>, id: NodeId, node: Node)
    requires Indexed(items, nodes, edges) && id in nodes && |node.data| <= CSV_MAX_STRING_SIZE
    ensures var more := items[nodes[id] := NodeItem(id, node)];
            Indexed(more, nodes, edges) &&
            Shown(more, nodes, edges) == Shown(items, nodes, edges).(nodes := Shown(items, nodes, edges).nodes[id := node])
  {
    var more := items[nodes[id] := NodeItem(id, node)];
    assert Indexed(more, nodes, edges);
    assert Shown(more, nodes, edges).nodes == Shown(items, nodes, edges).nodes[id := node];
  }

  lemma PrefixStep(items: seq<Component>, k: nat, onto: map<NodeId, Node>)
    requires k < |items|
    ensures NodesOf(items[..k + 1], onto) ==
            if items[k].NodeItem?
            then NodeAdded(NodesOf(items[..k], onto), items[k].node.kind, items[k].id, Some(items[k].node.data), true)
            else NodesOf(items[..k], onto)
    ensures EdgesOf(items[..k + 1]) == EdgesOf(items[..k]) + if items[k].EdgeItem? then {items[k].edge} else {}
  {
    assert items[..k + 1][..k] == items[..k];
  }

  // ===== the model state =====

  /**
   * `memStart` is 0 for a state on the heap.  Otherwise component `i` of a portable state lies
   * `i` components after it, and `memPtr` is where the next one goes.
   */
  class ModelState {
    var items: seq<Component>
    var nodes: map<NodeId, nat>
    var edges: map<Edge, nat>
    var memStart: nat
    var memPtr: nat
    var memEnd: nat

    ghost predicate Laid()
      reads this
    {
      memStart != 0 ==> memPtr == memStart + |items|
    }

    ghost predicate Valid()
      reads this
    {
      Indexed(items, nodes, edges) && Laid()
    }

    ghost function Abs(): Graph
      reads this
      requires Valid()
    {
      Shown(items, nodes, edges)
    }

    /** A portable state never uses its last component. */
    predicate HasRoom(n: nat)
      reads this
    {
      memStart != 0 ==> memPtr + n < memEnd
    }

    /** With address 0 the state allocates its components on the heap. */
    constructor (start: nat, size: nat)
      ensures Valid() && Abs() == EMPTY && memStart == memPtr == start && memEnd == start + size && items == []
    {
      items, nodes, edges := [], map[], map[];
      memStart, memPtr, memEnd := start, start, start + size;
    }

    method Append(component: Component)
      requires Laid() && HasRoom(1)
      modifies this`items, this`memPtr
      ensures Laid() && items == old(items) + [component]
      ensures memPtr == if memStart == 0 then old(memPtr) else old(memPtr) + 1
    {
      items := items + [component];
      if memStart != 0 {
        memPtr := memPtr + 1;
      }
    }

    method AddNode(kind: NodeKind, id: NodeId, data: Option<string>, extracted: bool) returns (slot: nat)
      requires Valid() && HasRoom(1)
      modifies this`items, this`nodes, this`memPtr
      ensures Valid() && Abs() == Graph(NodeAdded(old(Abs()).nodes, kind, id, data, extracted), old(Abs()).edges)
      ensures id in nodes && slot == nodes[id]
      ensures old(memPtr) <= memPtr <= old(memPtr) + 1
    {
      hide Indexed, Shown;
      NodeShown(items, nodes, edges, id);
      if id in nodes {
        slot := nodes[id];
        if items[slot].node.data == "" && data.Some? {
          NodeReplaced(items, nodes, edges, id, items[slot].node.(data := Clip(data.value)));
          items := items[slot := NodeItem(id, items[slot].node.(data := Clip(data.value)))];
        }
      } else {
        NodeAppended(items, nodes, edges, id, Node(kind, DataOf(data), "", extracted));
        slot := |items|;
        Append(NodeItem(id, Node(kind, DataOf(data), "", extracted)));
        nodes := nodes[id := slot];
      }
    }

    method AddEdge(e: Edge)
      requires Valid() && HasRoom(1)
      modifies this`items, this`edges, this`memPtr
      ensures Valid() && Abs() == Graph(old(Abs()).nodes, old(Abs()).edges + {e})
      ensures old(memPtr) <= memPtr <= old(memPtr) + 1
    {
      hide Indexed, Shown;
      EdgeShown(items, nodes, edges, e);
      if e !in edges {
        EdgeAppended(items, nodes, edges, e);
        ghost var at := |items|;
        edges := edges[e := |items|];
        Append(EdgeItem(e));
      }
    }

    method GetNode(id: NodeId) returns (node: Option<Node>)
      requires Valid()
      ensures node == At(Abs().nodes, id)
    {
      NodeShown(items, nodes, edges, id);
      node := if id in nodes then Some(items[nodes[id]].node) else None;
    }

    method SetExtra(id: NodeId, extra: string)
      requires Valid() && id in Abs().nodes && |extra| < CSV_MAX_STRING_SIZE
      modifies this`items
      ensures Valid() && Abs() == Graph(old(Abs()).nodes[id := old(Abs()).nodes[id].(extra := extra)], old(Abs()).edges)
    {
      hide Indexed, Shown;
      NodeShown(items, nodes, edges, id);
      var node := items[nodes[id]].node.(extra := extra);
      NodeReplaced(items, nodes, edges, id, node);
      items := items[nodes[id] := NodeItem(id, node)];
    }

    method SetExtracted(id: NodeId)
      requires Valid() && id in Abs().nodes
      modifies this`items
      ensures Valid() && Abs() == Graph(old(Abs()).nodes[id := old(Abs()).nodes[id].(extracted := true)], old(Abs()).edges)
    {
      hide Indexed, Shown;
      NodeShown(items, nodes, edges, id);
      var node := items[nodes[id]].node.(extracted := true);
      NodeReplaced(items, nodes, edges, id, node);
      items := items[nodes[id] := NodeItem(id, node)];
    }

    /** Drop what makes no sense in another process: the hash tables. */
    method Clean()
      requires Valid()
      modifies this`nodes, this`edges
      ensures Laid() && nodes == map[] && edges == map[]
    {
      nodes, edges := map[], map[];
    }

    /** The block of a portable state is mapped at another address. */
    method Rebase(start: nat)
      requires Laid() && memStart != 0 && start != 0
      modifies this`memStart, this`memPtr
      ensures Laid() && memStart == start && memPtr - memStart == old(memPtr - memStart)
    {
      var oldStart := memStart;
      memStart := start;
      memPtr := memPtr - oldStart + memStart;
    }

    /** Merge a portable source, of which only the components are used, or a source on the same heap. */
    method Combine(src: ModelState)
      requires Valid() && src != this && HasRoom(|src.items|)
      requires src.Laid() && (src.memStart == 0 ==> src.Valid())
      modifies this
      ensures Valid() && Abs() == Merge(old(Abs()), GraphOf(src.items))
      ensures memStart == old(memStart) && memEnd == old(memEnd)
    {
      hide Indexed, Shown, Merge, GraphOf;
      ghost var d := Abs();
      if src.memStart != 0 {
        CombineBlock(src);
      } else {
        CombineHeap(src);
      }
      ComponentsMerged(d, src.items);
    }

    method CombineBlock(src: ModelState)
      requires Valid() && src != this && HasRoom(|src.items|) && src.Laid() && src.memStart != 0
      modifies this
      ensures Valid() && Abs() == Graph(NodesOf(src.items, old(Abs()).nodes), old(Abs()).edges + EdgesOf(src.items))
      ensures memStart == old(memStart) && memEnd == old(memEnd)
    {
      hide Indexed, Shown;
      ghost var d := Abs();
      var item := src.memStart;
      while item < src.memPtr
        invariant Valid() && src.memStart <= item <= src.memPtr && HasRoom(src.memPtr - item)
        invariant Abs() == Graph(NodesOf(src.items[..item - src.memStart], d.nodes), d.edges + EdgesOf(src.items[..item - src.memStart]))
        invariant memStart == old(memStart) && memEnd == old(memEnd)
        decreases src.memPtr - item
      {
        PrefixStep(src.items, item - src.memStart, d.nodes);
        match src.items[item - src.memStart] {
          case NodeItem(id, node) =>
            var _ := AddNode(node.kind, id, Some(node.data), true);
          case EdgeItem(e) =>
            AddEdge(e);
        }
        item := item + 1;
      }
      assert src.items[..|src.items|] == src.items;
    }

    /** First the nodes of the source, then its edges, each in the order of insertion. */
    method CombineHeap(src: ModelState)
      requires Valid() && src != this && HasRoom(|src.items|)
      modifies this
      ensures Valid() && Abs() == Graph(NodesOf(src.items, old(Abs()).nodes), old(Abs()).edges + EdgesOf(src.items))
      ensures memStart == old(memStart) && memEnd == old(memEnd)
    {
      hide Indexed, Shown;
      ghost var d := Abs();
      for i := 0 to |src.items|
        invariant Valid() && memPtr <= old(memPtr) + CountNodes(src.items[..i])
        invariant Abs() == Graph(NodesOf(src.items[..i], d.nodes), d.edges)
        invariant memStart == old(memStart) && memEnd == old(memEnd)
      {
        PrefixStep(src.items, i, d.nodes);
        CountStep(src.items, i);
        if src.items[i].NodeItem? {
          var _ := AddNode(src.items[i].node.kind, src.items[i].id, Some(src.items[i].node.data), true);
        }
      }
      assert src.items[..|src.items|] == src.items;
      ghost var n := CountNodes(src.items);
      for i := 0 to |src.items|
        invariant Valid() && memPtr <= old(memPtr) + n + i - CountNodes(src.items[..i])
        invariant Abs() == Graph(NodesOf(src.items, d.nodes), d.edges + EdgesOf(src.items[..i]))
        invariant memStart == old(memStart) && memEnd == old(memEnd)
      {
        PrefixStep(src.items, i, d.nodes);
        CountStep(src.items, i);
        if src.items[i].EdgeItem? {
          AddEdge(src.items[i].edge);
        }
      }
    }
  }

  function CountNodes(items: seq<Component>): (n: nat)
    ensures n <= |items|
  {
    if items == [] then 0
    else CountNodes(items[..|items| - 1]) + if items[|items| - 1].NodeItem? then 1 else 0
  }

  lemma CountStep(items: seq<Component>, k: nat)
    requires k < |items|
    ensures CountNodes(items[..k + 1]) == CountNodes(items[..k]) + if items[k].NodeItem? then 1 else 0
    ensures CountNodes(items[..k + 1]) <= CountNodes(items)
    ensures k + 1 - CountNodes(items[..k + 1]) <= |items| - CountNodes(items)
  {
    assert items[..k + 1][..k] == items[..k];
    CountPrefix(items, k + 1);
  }

  lemma {:induction false} CountPrefix(items: seq<Component>, k: nat)
    requires k <= |items|
    ensures CountNodes(items[..k]) <= CountNodes(items) <= CountNodes(items[..k]) + (|items| - k)
    decreases |items|
  {
    if k < |items| {
      CountPrefix(items[..|items| - 1], k);
      assert items[..|items| - 1][..k] == items[..k];
    } else {
      assert items[..k] == items;
    }
  }

  lemma ComponentsMerged(d: Graph, items: seq<Component>)
    ensures Merge(d, GraphOf(items)) == Graph(NodesOf(items, d.nodes), d.edges + EdgesOf(items))
  {
    AddingIsMerging(d.nodes, items);
  }

  /**
   * Two states, one in a block of memory that was cleaned, sent and mapped elsewhere, one on the
   * heap, that show the same graph, have the same effect on the state they are merged into.
   */
  method MergeEitherForm(dest: ModelState, other: ModelState, portable: ModelState, heap: ModelState, start: nat)
    requires dest != other && dest.Valid() && other.Valid() && dest.Abs() == other.Abs()
    requires dest.memStart == other.memStart == 0 && portable !in {dest, other, heap} && heap !in {dest, other}
    requires portable.Valid() && heap.Valid() && portable.memStart != 0 && heap.memStart == 0 && start != 0
    requires portable.Abs() == heap.Abs()
    modifies dest, other, portable
    ensures dest.Valid() && other.Valid()
    ensures dest.Abs() == other.Abs() == Merge(old(dest.Abs()), old(heap.Abs()))
  {
    hide Indexed, Shown, Merge, GraphOf;
    MergeComponents(dest.Abs(), portable.items, portable.nodes, portable.edges);
    MergeComponents(dest.Abs(), heap.items, heap.nodes, heap.edges);
    portable.Clean();
    portable.Rebase(start);
    dest.Combine(portable);
    other.Combine(heap);
  }

  lemma NodeShown(items: seq<Component>, nodes: map<NodeId, nat>, edges: map<Edge, nat>, id: NodeId)
    requires Indexed(items, nodes, edges)
    ensures id in Shown(items, nodes, edges).nodes <==> id in nodes
    ensures id in nodes ==>
              nodes[id] < |items| && items[nodes[id]].NodeItem? && Shown(items, nodes, edges).nodes[id] == items[nodes[id]].node &&
              |items[nodes[id]].node.data| <= CSV_MAX_STRING_SIZE
  {
  }

  lemma EdgeShown(items: seq<Component>, nodes: map<NodeId, nat>, edges: map<Edge, nat>, e: Edge)
    requires Indexed(items, nodes, edges)
    ensures e in Shown(items, nodes, edges).edges <==> e in edges
  {
  }
}
