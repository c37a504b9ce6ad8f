/** Extracting the model state of a PD: a depth-first walk over the PDs that it and the root task hold. */
module Extraction {
  import opened Common
  import opened Resources
  import opened ModelGraph

  datatype Rde = Rde(kind: Kind, space: SpaceId)

  datatype PdRecord = PdRecord(name: Option<string>, holds: seq<ResId>, rdes: seq<Rde>)

  datatype SpaceRecord = SpaceRecord(kind: Kind, manager: PdId)

  /**
   * The registries that the walk reads.  `objects` are the entries of the ADS, MO and CPU registries,
   * and `below` is what their components add besides, when a PD's hold of one is dumped.
   */
  datatype System = System(
    pds: map<PdId, PdRecord>, spaces: map<SpaceId, SpaceRecord>, objects: set<ResId>, kindNames: map<Kind, string>,
    below: map<(PdId, ResId), seq<Component>>)

  /** Edges that the ADS, MO and CPU components add by themselves. */
  predicate Foreign(e: Edge) {
    match e.kind
    case MAP => true
    case SUBSET => e.from.ResourceNode? && e.from.res.kind in {KIND_VMR, KIND_MO, KIND_CPU, KIND_PCPU}
    case HOLD => (e.to.ResourceNode? && e.to.res.kind in {KIND_VMR, KIND_PCPU}) || (e.from == PdNode(RT_PD_ID) && e.to.SpaceNode?)
    case REQUEST => false
  }

  /** The components add no PDs, no generic resources, and only edges of their own. */
  ghost predicate BelowOk(sys: System) {
    forall k, i :: k in sys.below && 0 <= i < |sys.below[k]| ==> ItemOk(sys.below[k][i])
  }

  predicate ItemOk(item: Component) {
    match item
    case NodeItem(id, node) => !id.PdNode? && (id.ResourceNode? ==> !HasSubset(id.res.kind))
    case EdgeItem(e) => Foreign(e)
  }

  // ===== what is dumped for one hold =====

  predicate Skipped(k: Kind) {
    k in {KIND_NONE, KIND_SEL4, KIND_VMR, KIND_EP}
  }

  predicate ByComponent(k: Kind) {
    k in {KIND_ADS, KIND_MO, KIND_CPU}
  }

  /** Kinds whose nodes also get an edge to their space. */
  predicate Generic(k: Kind) {
    !Skipped(k) && !ByComponent(k) && k != KIND_PD && k != KIND_RESSPC
  }

  /** Physical CPUs are dumped by the CPU component, which links them to a space of its own. */
  predicate HasSubset(k: Kind) {
    Generic(k) && k != KIND_PCPU
  }

  function SpaceKindOf(sys: System, s: SpaceId): Kind {
    if s in sys.spaces then sys.spaces[s].kind else KIND_NONE
  }

  function HoldTarget(sys: System, res: ResId): (id: NodeId)
    ensures !id.PdNode?
  {
    if res.kind == KIND_ADS then SpaceNode(KIND_ADS, res.obj)
    else if res.kind == KIND_RESSPC then SpaceNode(SpaceKindOf(sys, res.obj), res.obj)
    else ResourceNode(res)
  }

  lemma NotGeneric(sys: System, res: ResId)
    requires ByComponent(res.kind) || res.kind == KIND_RESSPC
    ensures HoldTarget(sys, res).ResourceNode? ==> !HasSubset(HoldTarget(sys, res).res.kind)
  {
  }

  function HoldEdge(sys: System, p: PdId, res: ResId): Edge {
    Edge(HOLD, KIND_NONE, PdNode(p), HoldTarget(sys, res))
  }

  function SubsetEdge(sys: System, res: ResId): Edge {
    Edge(SUBSET, KIND_NONE, ResourceNode(res), SpaceNode(SpaceKindOf(sys, res.space), res.space))
  }

  function RequestEdge(sys: System, p: PdId, rde: Rde): Edge {
    Edge(REQUEST, rde.kind, PdNode(p), PdNode(if rde.space in sys.spaces then sys.spaces[rde.space].manager else RT_PD_ID))
  }

  /** An edge that dumping `p` accounts for. */
  ghost predicate IsOwn(sys: System, p: PdId, e: Edge) {
    p in sys.pds &&
    ((exists res :: res in sys.pds[p].holds && !Skipped(res.kind) && res.kind != KIND_PD && e == HoldEdge(sys, p, res)) ||
     (exists res :: res in sys.pds[p].holds && HasSubset(res.kind) && e == SubsetEdge(sys, res)) ||
     (p != RT_PD_ID && exists rde :: rde in sys.pds[p].rdes && rde.kind != KIND_NONE && e == RequestEdge(sys, p, rde)))
  }

  // ===== when lookups succeed =====

  predicate Found(sys: System, p: PdId, res: ResId) {
    if Skipped(res.kind) then true
    else if ByComponent(res.kind) then res in sys.objects
    else if res.kind == KIND_PD then res.obj == p || res.obj in sys.pds
    else if res.kind == KIND_RESSPC then res.obj in sys.spaces
    else res.space in sys.spaces && sys.spaces[res.space].manager in sys.pds
  }

  predicate AllFound(sys: System, p: PdId) {
    && p in sys.pds
    && (forall i :: 0 <= i < |sys.pds[p].holds| ==> Found(sys, p, sys.pds[p].holds[i]))
    && (forall i :: 0 <= i < |sys.pds[p].rdes| ==> sys.pds[p].rdes[i].kind != KIND_NONE ==> sys.pds[p].rdes[i].space in sys.spaces)
  }

  /** Everything that dumping `p` looks up is registered. */
  ghost predicate LookupsSucceed(sys: System, p: PdId) {
    && p in sys.pds
    && (forall res :: res in sys.pds[p].holds ==>
          && (res.kind in {KIND_ADS, KIND_MO, KIND_CPU} ==> res in sys.objects)
          && (res.kind == KIND_PD && res.obj != p ==> res.obj in sys.pds)
          && (res.kind == KIND_RESSPC ==> res.obj in sys.spaces)
          && (res.kind !in {KIND_NONE, KIND_ADS, KIND_VMR, KIND_MO, KIND_CPU, KIND_PD, KIND_EP, KIND_RESSPC, KIND_SEL4} ==>
                res.space in sys.spaces && sys.spaces[res.space].manager in sys.pds))
    && (forall rde :: rde in sys.pds[p].rdes && rde.kind != KIND_NONE ==> rde.space in sys.spaces)
  }

  lemma LookupsAreFound(sys: System, p: PdId)
    ensures LookupsSucceed(sys, p) <==> AllFound(sys, p)
  {
    if LookupsSucceed(sys, p) {
      forall i | 0 <= i < |sys.pds[p].holds| ensures Found(sys, p, sys.pds[p].holds[i]) {
        assert sys.pds[p].holds[i] in sys.pds[p].holds;
      }
      forall i | 0 <= i < |sys.pds[p].rdes| && sys.pds[p].rdes[i].kind != KIND_NONE ensures sys.pds[p].rdes[i].space in sys.spaces {
        assert sys.pds[p].rdes[i] in sys.pds[p].rdes;
      }
    }
    if AllFound(sys, p) {
      forall res | res in sys.pds[p].holds ensures Found(sys, p, res) {
        var i :| 0 <= i < |sys.pds[p].holds| && sys.pds[p].holds[i] == res;
      }
    }
  }

  // ===== the edges of a dump, field by field =====

  /** Each directory entry of a PD other than the root task's gives a request edge to the PD that manages the entry's space. */
  ghost predicate RequestsShown(sys: System, edges: set<Edge>, p: PdId) {
    p in sys.pds && p != RT_PD_ID ==>
      forall rde :: rde in sys.pds[p].rdes && rde.kind != KIND_NONE && rde.space in sys.spaces ==>
        Edge(REQUEST, rde.kind, PdNode(p), PdNode(sys.spaces[rde.space].manager)) in edges
  }

  /** Each hold gives a hold edge, to the VMR space of an ADS, to a space, or to the resource itself. */
  ghost predicate HoldsShown(sys: System, edges: set<Edge>, p: PdId) {
    p in sys.pds ==>
      forall res :: res in sys.pds[p].holds ==>
        && (res.kind == KIND_ADS ==> Edge(HOLD, KIND_NONE, PdNode(p), SpaceNode(KIND_ADS, res.obj)) in edges)
        && (res.kind == KIND_RESSPC && res.obj in sys.spaces ==>
              Edge(HOLD, KIND_NONE, PdNode(p), SpaceNode(sys.spaces[res.obj].kind, res.obj)) in edges)
        && (res.kind !in {KIND_NONE, KIND_ADS, KIND_VMR, KIND_PD, KIND_EP, KIND_RESSPC, KIND_SEL4} ==>
              Edge(HOLD, KIND_NONE, PdNode(p), ResourceNode(res)) in edges)
  }

  /** Each held resource of a dynamic type gives an edge to its space. */
  ghost predicate SubsetsShown(sys: System, edges: set<Edge>, p: PdId) {
    p in sys.pds ==>
      forall res :: res in sys.pds[p].holds && res.space in sys.spaces &&
                    res.kind !in {KIND_NONE, KIND_ADS, KIND_VMR, KIND_MO, KIND_CPU, KIND_PCPU, KIND_PD, KIND_EP, KIND_RESSPC, KIND_SEL4} ==>
        Edge(SUBSET, KIND_NONE, ResourceNode(res), SpaceNode(sys.spaces[res.space].kind, res.space)) in edges
  }

  /** The edge arises from PD `p` in one of these ways. */
  ghost predicate ArisesFrom(sys: System, e: Edge, p: PdId) {
    p in sys.pds &&
    match e.kind
    case MAP => false
    case REQUEST =>
      p != RT_PD_ID && e.from == PdNode(p) &&
      exists rde :: rde in sys.pds[p].rdes && rde.kind != KIND_NONE && e.request == rde.kind &&
                    (rde.space in sys.spaces ==> e.to == PdNode(sys.spaces[rde.space].manager))
    case HOLD =>
      e.from == PdNode(p) && e.request == KIND_NONE &&
      exists res :: res in sys.pds[p].holds && res.kind !in {KIND_NONE, KIND_VMR, KIND_PD, KIND_EP, KIND_SEL4} &&
        (if res.kind == KIND_ADS then e.to == SpaceNode(KIND_ADS, res.obj)
         else if res.kind == KIND_RESSPC then e.to.SpaceNode? && (res.obj in sys.spaces ==> e.to == SpaceNode(sys.spaces[res.obj].kind, res.obj))
         else e.to == ResourceNode(res))
    case SUBSET =>
      e.request == KIND_NONE &&
      exists res :: res in sys.pds[p].holds && e.from == ResourceNode(res) && (res.space in sys.spaces ==> e.to == SpaceNode(sys.spaces[res.space].kind, res.space))
  }

  /** The node of a resource of a dynamic type carries the name of the type, if it has one. */
  ghost predicate NodesNamed(sys: System, nodes: map<NodeId, Node>) {
    forall res: ResId ::
      ResourceNode(res) in nodes &&
      res.kind !in {KIND_NONE, KIND_ADS, KIND_VMR, KIND_MO, KIND_CPU, KIND_PCPU, KIND_PD, KIND_EP, KIND_RESSPC, KIND_SEL4} ==>
      nodes[ResourceNode(res)].kind == RESOURCE &&
      nodes[ResourceNode(res)].data == if res.kind in sys.kindNames then Clip(sys.kindNames[res.kind]) else ""
  }

  lemma SoundNames(sys: System, g: Graph)
    requires Sound(sys, g)
    ensures NodesNamed(sys, g.nodes)
  {
    hide IsOwn, SubsetEdge, Foreign, Clip;
  }

  lemma OwnEdgesShown(sys: System, edges: set<Edge>, p: PdId)
    requires forall e :: IsOwn(sys, p, e) ==> e in edges
    ensures RequestsShown(sys, edges, p) && HoldsShown(sys, edges, p) && SubsetsShown(sys, edges, p)
  {
    if p in sys.pds {
      forall rde | rde in sys.pds[p].rdes && rde.kind != KIND_NONE && p != RT_PD_ID ensures RequestEdge(sys, p, rde) in edges {
        assert IsOwn(sys, p, RequestEdge(sys, p, rde));
      }
      forall res | res in sys.pds[p].holds && !Skipped(res.kind) && res.kind != KIND_PD
        ensures HoldEdge(sys, p, res) in edges && (HasSubset(res.kind) ==> SubsetEdge(sys, res) in edges)
      {
        assert IsOwn(sys, p, HoldEdge(sys, p, res));
        assert HasSubset(res.kind) ==> IsOwn(sys, p, SubsetEdge(sys, res));
      }
    }
  }

  lemma OwnEdgeArises(sys: System, p: PdId, e: Edge)
    requires IsOwn(sys, p, e)
    ensures ArisesFrom(sys, e, p)
  {
  }

  // ===== reachability =====

  predicate HoldsPd(sys: System, p: PdId, q: PdId) {
    p in sys.pds && q in sys.pds && exists res :: res in sys.pds[p].holds && res.kind == KIND_PD && res.obj == q
  }

  ghost predicate IsPath(sys: System, path: seq<PdId>) {
    |path| > 0 && (forall i :: 0 <= i < |path| ==> path[i] in sys.pds) &&
    forall i :: 0 <= i < |path| - 1 ==> HoldsPd(sys, path[i], path[i + 1])
  }

  /** A registered PD that the root task or `target` leads to by holds of PDs. */
  ghost predicate Reached(sys: System, target: PdId, q: PdId) {
    exists path :: IsPath(sys, path) && path[0] in {RT_PD_ID, target} && path[|path| - 1] == q
  }

  ghost function Reachable(sys: System, target: PdId): set<PdId> {
    set q | q in sys.pds && Reached(sys, target, q)
  }

  ghost predicate Closed(sys: System, zone: set<PdId>) {
    forall p: PdId, q: PdId :: p in zone && HoldsPd(sys, p, q) ==> q in zone
  }

  lemma ReachableIsClosed(sys: System, target: PdId)
    requires RT_PD_ID in sys.pds && target in sys.pds
    ensures Closed(sys, Reachable(sys, target)) && RT_PD_ID in Reachable(sys, target) && target in Reachable(sys, target)
  {
    assert IsPath(sys, [RT_PD_ID]) && IsPath(sys, [target]);
    assert [RT_PD_ID][|[RT_PD_ID]| - 1] == RT_PD_ID && [target][|[target]| - 1] == target;
    var zone := Reachable(sys, target);
    forall p: PdId, q: PdId | p in zone && HoldsPd(sys, p, q) ensures q in zone {
      var path :| IsPath(sys, path) && path[0] in {RT_PD_ID, target} && path[|path| - 1] == p;
      var longer := path + [q];
      forall i | 0 <= i < |longer| - 1 ensures HoldsPd(sys, longer[i], longer[i + 1]) {
        if i < |path| - 1 {
          assert longer[i] == path[i] && longer[i + 1] == path[i + 1];
        }
      }
      assert IsPath(sys, longer) && longer[|longer| - 1] == q;
    }
  }

  /** A closed set that contains the starting points contains everything that they lead to. */
  lemma {:induction false} ClosedHoldsPath(sys: System, zone: set<PdId>, path: seq<PdId>, k: nat)
    requires Closed(sys, zone) && IsPath(sys, path) && path[0] in zone && k < |path|
    ensures path[k] in zone
  {
    if k > 0 {
      ClosedHoldsPath(sys, zone, path, k - 1);
      assert HoldsPd(sys, path[k - 1], path[k - 1 + 1]);
    }
  }

  lemma ReachableIsLeast(sys: System, target: PdId, zone: set<PdId>)
    requires Closed(sys, zone) && RT_PD_ID in zone && target in zone
    ensures Reachable(sys, target) <= zone
  {
    forall q | q in Reachable(sys, target) ensures q in zone {
      var path :| IsPath(sys, path) && path[0] in {RT_PD_ID, target} && path[|path| - 1] == q;
      ClosedHoldsPath(sys, zone, path, |path| - 1);
    }
  }

  // ===== the state of a walk =====

  function Dumped(g: Graph): set<PdId> {
    set id | id in g.nodes && id.PdNode? :: id.pd
  }

  function PdName(sys: System, p: PdId): Option<string>
    requires p in sys.pds
  {
    if p == RT_PD_ID then Some("ROOT_TASK") else sys.pds[p].name
  }

  /** Dumped PDs are registered and named, every edge belongs to a dumped PD, and an extracted resource has its edge to its space. */
  ghost predicate Sound(sys: System, g: Graph) {
    && Dumped(g) <= sys.pds.Keys
    && (forall p: PdId :: PdNode(p) in g.nodes ==>
          p in sys.pds && g.nodes[PdNode(p)] == Node(PD, DataOf(PdName(sys, p)), "", true))
    && (forall e :: e in g.edges && !Foreign(e) ==> exists q :: q in Dumped(g) && IsOwn(sys, q, e))
    && (forall res: ResId :: HasSubset(res.kind) && ResourceNode(res) in g.nodes && g.nodes[ResourceNode(res)].extracted ==>
          SubsetEdge(sys, res) in g.edges)
    && (forall res: ResId :: HasSubset(res.kind) && ResourceNode(res) in g.nodes ==>
          g.nodes[ResourceNode(res)].kind == RESOURCE && g.nodes[ResourceNode(res)].data == DataOf(NameOfKind(sys, res.kind)))
  }

  function NameOfKind(sys: System, k: Kind): Option<string> {
    if k in sys.kindNames then Some(sys.kindNames[k]) else None
  }

  predicate Done(sys: System, g: Graph, p: PdId, res: ResId) {
    if Skipped(res.kind) then true
    else if res.kind == KIND_PD then res.obj in Dumped(g)
    else HoldEdge(sys, p, res) in g.edges && (HasSubset(res.kind) ==> SubsetEdge(sys, res) in g.edges)
  }

  /** Everything that dumping `p` adds is there. */
  ghost predicate Finished(sys: System, g: Graph, p: PdId)
    requires p in sys.pds
  {
    && (forall i :: 0 <= i < |sys.pds[p].holds| ==> Done(sys, g, p, sys.pds[p].holds[i]))
    && (p != RT_PD_ID ==> forall i :: 0 <= i < |sys.pds[p].rdes| ==>
          sys.pds[p].rdes[i].kind != KIND_NONE ==> RequestEdge(sys, p, sys.pds[p].rdes[i]) in g.edges)
  }

  /** The walk got from `g` to `h`, within `zone`; if all goes well, every PD it entered is finished. */
  ghost predicate Walked(sys: System, g: Graph, h: Graph, zone: set<PdId>, ok: bool) {
    && Sound(sys, h) && Dumped(g) <= Dumped(h) <= Dumped(g) + zone && g.edges <= h.edges
    && (ok ==> forall q :: q in Dumped(h) && q !in Dumped(g) ==> Finished(sys, h, q))
  }

  lemma FinishedStays(sys: System, g: Graph, h: Graph, p: PdId)
    requires p in sys.pds && Finished(sys, g, p) && Dumped(g) <= Dumped(h) && g.edges <= h.edges
    ensures Finished(sys, h, p)
  {
    hide HoldEdge, SubsetEdge, RequestEdge, Dumped;
  }

  lemma WalkedOn(sys: System, f: Graph, g: Graph, h: Graph, zone: set<PdId>, ok: bool)
    requires Walked(sys, f, g, zone, ok) && Walked(sys, g, h, zone, ok)
    ensures Walked(sys, f, h, zone, ok)
  {
    hide Finished, Dumped;
    if ok {
      forall q | q in Dumped(h) && q !in Dumped(f) ensures Finished(sys, h, q) {
        if q in Dumped(g) {
          FinishedStays(sys, g, h, q);
        }
      }
    }
  }

  // ===== single additions =====

  lemma PdAdded(sys: System, g: Graph, p: PdId)
    requires Sound(sys, g) && p in sys.pds
    ensures var h := Graph(NodeAdded(g.nodes, PD, PdNode(p), PdName(sys, p), true), g.edges);
            Sound(sys, h) && Dumped(h) == Dumped(g) + {p}
  {
    hide IsOwn, SubsetEdge, Generic, HasSubset, Foreign;
    var h := Graph(NodeAdded(g.nodes, PD, PdNode(p), PdName(sys, p), true), g.edges);
    assert h.nodes.Keys == g.nodes.Keys + {PdNode(p)};
    assert forall res: ResId :: ResourceNode(res) in h.nodes ==>
        ResourceNode(res) in g.nodes && h.nodes[ResourceNode(res)] == g.nodes[ResourceNode(res)];
  }

  lemma OtherAdded(sys: System, g: Graph, kind: NodeKind, id: NodeId, name: Option<string>, extracted: bool)
    requires Sound(sys, g) && !id.PdNode? && (extracted && id.ResourceNode? ==> !HasSubset(id.res.kind))
    requires id.ResourceNode? && HasSubset(id.res.kind) ==> kind == RESOURCE && name == NameOfKind(sys, id.res.kind)
    ensures var h := Graph(NodeAdded(g.nodes, kind, id, name, extracted), g.edges);
            Sound(sys, h) && Dumped(h) == Dumped(g)
  {
    hide IsOwn, SubsetEdge, Generic, HasSubset, Foreign;
    var h := Graph(NodeAdded(g.nodes, kind, id, name, extracted), g.edges);
    assert h.nodes.Keys == g.nodes.Keys + {id};
  }

  lemma EdgeAdded(sys: System, g: Graph, p: PdId, e: Edge)
    requires Sound(sys, g) && ((p in Dumped(g) && IsOwn(sys, p, e)) || Foreign(e))
    ensures var h := Graph(g.nodes, g.edges + {e}); Sound(sys, h) && Dumped(h) == Dumped(g)
  {
    hide IsOwn, SubsetEdge, Generic, HasSubset, Foreign;
  }

  lemma Extracted(sys: System, g: Graph, res: ResId)
    requires Sound(sys, g) && ResourceNode(res) in g.nodes && SubsetEdge(sys, res) in g.edges
    ensures var h := Graph(g.nodes[ResourceNode(res) := g.nodes[ResourceNode(res)].(extracted := true)], g.edges);
            Sound(sys, h) && Dumped(h) == Dumped(g)
  {
    hide IsOwn, SubsetEdge, Generic, HasSubset, Foreign;
    var h := Graph(g.nodes[ResourceNode(res) := g.nodes[ResourceNode(res)].(extracted := true)], g.edges);
    assert h.nodes.Keys == g.nodes.Keys;
  }

  lemma OwnHold(sys: System, p: PdId, i: nat)
    requires p in sys.pds && i < |sys.pds[p].holds| && !Skipped(sys.pds[p].holds[i].kind) && sys.pds[p].holds[i].kind != KIND_PD
    ensures IsOwn(sys, p, HoldEdge(sys, p, sys.pds[p].holds[i]))
    ensures HasSubset(sys.pds[p].holds[i].kind) ==> IsOwn(sys, p, SubsetEdge(sys, sys.pds[p].holds[i]))
    ensures sys.pds[p].holds[i].kind == KIND_PCPU ==> Foreign(SubsetEdge(sys, sys.pds[p].holds[i]))
  {
    hide HoldEdge, RequestEdge;
  }

  lemma RequestEdgeIs(sys: System, p: PdId, rde: Rde)
    requires rde.space in sys.spaces
    ensures RequestEdge(sys, p, rde) == Edge(REQUEST, rde.kind, PdNode(p), PdNode(sys.spaces[rde.space].manager))
  {
  }

  lemma OwnRequest(sys: System, p: PdId, i: nat)
    requires p in sys.pds && p != RT_PD_ID && i < |sys.pds[p].rdes| && sys.pds[p].rdes[i].kind != KIND_NONE
    ensures IsOwn(sys, p, RequestEdge(sys, p, sys.pds[p].rdes[i]))
  {
    hide HoldEdge, SubsetEdge, RequestEdge;
  }

  // ===== the walk =====

  class Extractor {
    const sys: System
    const ms: ModelState

    constructor (sys: System)
      requires BelowOk(sys)
      ensures Valid()
      ensures this.sys == sys && fresh(ms) && ms.Valid() && ms.memStart == 0 && ms.Abs() == EMPTY
    {
      this.sys := sys;
      ms := new ModelState(0, 0);
    }

    ghost predicate Valid()
      reads this, ms
    {
      ms.Valid() && ms.memStart == 0 && Sound(sys, ms.Abs()) && BelowOk(sys)
    }

    /** One hold of a dumped PD. */
    method ResDump(p: PdId, i: nat, ghost zone: set<PdId>, ghost ok: bool) returns (error: bool)
      requires Valid() && p in Dumped(ms.Abs()) && RT_PD_ID in Dumped(ms.Abs()) && p in sys.pds && i < |sys.pds[p].holds|
      requires Closed(sys, zone) && p in zone && (ok ==> forall q :: q in zone ==> AllFound(sys, q))
      modifies ms
      ensures Valid() && Walked(sys, old(ms.Abs()), ms.Abs(), zone, ok)
      ensures ok ==> !error && Done(sys, ms.Abs(), p, sys.pds[p].holds[i])
      decreases |sys.pds.Keys - Dumped(ms.Abs())|, 1
    {
      hide Sound, Walked, Closed, AllFound, Dumped, Finished, HoldEdge, SubsetEdge, HoldTarget;
      var res := sys.pds[p].holds[i];
      error := false;
      HoldFound(sys, p, i, zone, ok);
      NowhereWalked(sys, ms.Abs(), zone, ok);
      if Skipped(res.kind) {
      } else if ByComponent(res.kind) {
        if res !in sys.objects {
          return true;
        }
        NotGeneric(sys, res);
        AddNode(if res.kind == KIND_ADS then SPACE else RESOURCE, HoldTarget(sys, res), res.kind, zone, ok);
        AddHold(p, i, zone, ok, old(ms.Abs()));
        AddBelow(p, i, zone, ok, old(ms.Abs()));
      } else if res.kind == KIND_PD {
        if res.obj != p {
          if res.obj !in sys.pds {
            return true;
          }
          var _ := PdDumpInternal(res.obj, zone, ok);
        }
      } else if res.kind == KIND_RESSPC {
        if res.obj !in sys.spaces {
          return true;
        }
        NotGeneric(sys, res);
        AddNode(SPACE, HoldTarget(sys, res), SpaceKindOf(sys, res.obj), zone, ok);
        AddHold(p, i, zone, ok, old(ms.Abs()));
      } else {
        error := DumpGeneric(p, i, zone, ok);
      }
    }

    /** A resource node, with the edge to its space the first time it is met. */
    method DumpGeneric(p: PdId, i: nat, ghost zone: set<PdId>, ghost ok: bool) returns (error: bool)
      requires Valid() && p in Dumped(ms.Abs()) && p in sys.pds && i < |sys.pds[p].holds|
      requires Generic(sys.pds[p].holds[i].kind) && (ok ==> Found(sys, p, sys.pds[p].holds[i]))
      modifies ms
      ensures Valid() && Walked(sys, old(ms.Abs()), ms.Abs(), zone, ok) && Dumped(ms.Abs()) == Dumped(old(ms.Abs()))
      ensures ok ==> !error && Done(sys, ms.Abs(), p, sys.pds[p].holds[i])
    {
      hide Sound, Walked, Dumped, Finished, HoldEdge, SubsetEdge;
      var res := sys.pds[p].holds[i];
      error := false;
      ghost var g := ms.Abs();
      NowhereWalked(sys, g, zone, ok);
      var node := ms.GetNode(ResourceNode(res));
      if node == None {
        AddNode(RESOURCE, ResourceNode(res), res.kind, zone, ok);
        node := ms.GetNode(ResourceNode(res));
      }
      if HasSubset(res.kind) { IfExtracted(sys, ms.Abs(), res); }
      if !node.value.extracted {
        if res.space !in sys.spaces {
          return true;
        }
        AddSubset(p, i, zone, ok, g);
        if sys.spaces[res.space].manager !in sys.pds {
          return true;
        }
        Extracted(sys, ms.Abs(), res);
        ghost var before := ms.Abs();
        ms.SetExtracted(ResourceNode(res));
        QuietStep(sys, before, ms.Abs(), zone, ok);
        WalkedOn(sys, g, before, ms.Abs(), zone, ok);
      }
      AddHold(p, i, zone, ok, g);
    }

    method AddNode(kind: NodeKind, id: NodeId, nameOf: Kind, ghost zone: set<PdId>, ghost ok: bool)
      requires Valid() && !id.PdNode?
      requires id.ResourceNode? && HasSubset(id.res.kind) ==> kind == RESOURCE && nameOf == id.res.kind
      modifies ms
      ensures Valid() && Walked(sys, old(ms.Abs()), ms.Abs(), zone, ok)
      ensures Dumped(ms.Abs()) == Dumped(old(ms.Abs())) && id in ms.Abs().nodes
    {
      hide Sound, Walked, Dumped;
      OtherAdded(sys, ms.Abs(), kind, id, NameOfKind(sys, nameOf), false);
      ghost var g := ms.Abs();
      var _ := ms.AddNode(kind, id, NameOfKind(sys, nameOf), false);
      QuietStep(sys, g, ms.Abs(), zone, ok);
    }

    method AddHold(p: PdId, i: nat, ghost zone: set<PdId>, ghost ok: bool, ghost from: Graph)
      requires Valid() && p in Dumped(ms.Abs()) && p in sys.pds && i < |sys.pds[p].holds|
      requires !Skipped(sys.pds[p].holds[i].kind) && sys.pds[p].holds[i].kind != KIND_PD
      requires Walked(sys, from, ms.Abs(), zone, ok)
      modifies ms
      ensures Valid() && Walked(sys, from, ms.Abs(), zone, ok) && Dumped(ms.Abs()) == Dumped(old(ms.Abs()))
      ensures ms.Abs().edges == old(ms.Abs()).edges + {HoldEdge(sys, p, sys.pds[p].holds[i])}
      ensures ms.Abs().nodes == old(ms.Abs()).nodes
    {
      hide Sound, Walked, Dumped, HoldEdge, IsOwn, SubsetEdge;
      OwnHold(sys, p, i);
      EdgeAdded(sys, ms.Abs(), p, HoldEdge(sys, p, sys.pds[p].holds[i]));
      ghost var g := ms.Abs();
      ms.AddEdge(HoldEdge(sys, p, sys.pds[p].holds[i]));
      QuietStep(sys, g, ms.Abs(), zone, ok);
      WalkedOn(sys, from, g, ms.Abs(), zone, ok);
    }

    /** What the component of an ADS, MO or CPU adds besides the resource's own node. */
    method AddBelow(p: PdId, i: nat, ghost zone: set<PdId>, ghost ok: bool, ghost from: Graph)
      requires Valid() && p in Dumped(ms.Abs()) && p in sys.pds && i < |sys.pds[p].holds| && ByComponent(sys.pds[p].holds[i].kind)
      requires Walked(sys, from, ms.Abs(), zone, ok) && Done(sys, ms.Abs(), p, sys.pds[p].holds[i])
      modifies ms
      ensures Valid() && Walked(sys, from, ms.Abs(), zone, ok) && Dumped(ms.Abs()) == Dumped(old(ms.Abs()))
      ensures Done(sys, ms.Abs(), p, sys.pds[p].holds[i])
    {
      hide Sound, Walked, Dumped, HoldEdge, SubsetEdge, HoldTarget, Foreign, BelowOk, ItemOk;
      var res := sys.pds[p].holds[i];
      var items := if (p, res) in sys.below then sys.below[(p, res)] else [];
      for k := 0 to |items|
        invariant Valid() && Walked(sys, from, ms.Abs(), zone, ok) && Dumped(ms.Abs()) == Dumped(old(ms.Abs()))
        invariant HoldEdge(sys, p, res) in ms.Abs().edges
      {
        ItemIsOk(sys, p, res, k);
        ghost var g := ms.Abs();
        match items[k] {
          case NodeItem(id, node) =>
            OtherAdded(sys, g, node.kind, id, Some(node.data), node.extracted);
            var _ := ms.AddNode(node.kind, id, Some(node.data), node.extracted);
          case EdgeItem(e) =>
            EdgeAdded(sys, g, p, e);
            ms.AddEdge(e);
        }
        QuietStep(sys, g, ms.Abs(), zone, ok);
        WalkedOn(sys, from, g, ms.Abs(), zone, ok);
      }
    }

    method AddSubset(p: PdId, i: nat, ghost zone: set<PdId>, ghost ok: bool, ghost from: Graph)
      requires Valid() && p in Dumped(ms.Abs()) && p in sys.pds && i < |sys.pds[p].holds| && Generic(sys.pds[p].holds[i].kind)
      requires Walked(sys, from, ms.Abs(), zone, ok)
      modifies ms
      ensures Valid() && Walked(sys, from, ms.Abs(), zone, ok) && Dumped(ms.Abs()) == Dumped(old(ms.Abs()))
      ensures ms.Abs().edges == old(ms.Abs()).edges + {SubsetEdge(sys, sys.pds[p].holds[i])}
      ensures ms.Abs().nodes == old(ms.Abs()).nodes
    {
      hide Sound, Walked, Dumped, HoldEdge, IsOwn, SubsetEdge;
      OwnHold(sys, p, i);
      EdgeAdded(sys, ms.Abs(), p, SubsetEdge(sys, sys.pds[p].holds[i]));
      ghost var g := ms.Abs();
      ms.AddEdge(SubsetEdge(sys, sys.pds[p].holds[i]));
      QuietStep(sys, g, ms.Abs(), zone, ok);
      WalkedOn(sys, from, g, ms.Abs(), zone, ok);
    }

    /** A PD, its request edges, and everything that it holds; PDs that it holds are walked in turn. */
    method PdDumpInternal(p: PdId, ghost zone: set<PdId>, ghost ok: bool) returns (error: bool)
      requires Valid() && p in sys.pds && RT_PD_ID in Dumped(ms.Abs())
      requires Closed(sys, zone) && p in zone && (ok ==> forall q :: q in zone ==> AllFound(sys, q))
      modifies ms
      ensures Valid() && Walked(sys, old(ms.Abs()), ms.Abs(), zone, ok)
      ensures p in Dumped(ms.Abs()) && (ok ==> !error)
      decreases |sys.pds.Keys - Dumped(ms.Abs())|, 0
    {
      hide Sound, Walked, Closed, AllFound, Dumped, Finished, RequestsDone, HoldsDone;
      ghost var g := ms.Abs();
      NowhereWalked(sys, g, zone, ok);
      PdIsDumped(g, p);
      var node := ms.GetNode(PdNode(p));
      if node.Some? {
        return false;
      }
      PdAdded(sys, g, p);
      var _ := ms.AddNode(PD, PdNode(p), sys.pds[p].name, true);
      ghost var entered := ms.Abs();
      error := DumpRequests(p, zone, ok);
      if error {
        WalkedInto(sys, g, entered, ms.Abs(), zone, ok, p);
        return;
      }
      error := DumpHolds(p, zone, ok, g, entered);
      WalkedInto(sys, g, entered, ms.Abs(), zone, ok, p);
    }

    method DumpRequests(p: PdId, ghost zone: set<PdId>, ghost ok: bool) returns (error: bool)
      requires Valid() && p in sys.pds && p in Dumped(ms.Abs()) && p != RT_PD_ID && (ok ==> AllFound(sys, p))
      modifies ms
      ensures Valid() && Walked(sys, old(ms.Abs()), ms.Abs(), zone, ok) && Dumped(ms.Abs()) == Dumped(old(ms.Abs()))
      ensures ok ==> !error
      ensures !error ==> RequestsDone(sys, ms.Abs(), p, |sys.pds[p].rdes|)
    {
      hide Sound, Walked, Dumped, RequestEdge, IsOwn;
      ghost var g := ms.Abs();
      NowhereWalked(sys, g, zone, ok);
      var rdes := sys.pds[p].rdes;
      for i := 0 to |rdes|
        invariant Valid() && Walked(sys, g, ms.Abs(), zone, ok) && Dumped(ms.Abs()) == Dumped(g)
        invariant RequestsDone(sys, ms.Abs(), p, i)
      {
        if rdes[i].kind != KIND_NONE {
          if rdes[i].space !in sys.spaces {
            return true;
          }
          OwnRequest(sys, p, i);
          EdgeAdded(sys, ms.Abs(), p, RequestEdge(sys, p, rdes[i]));
          ghost var before := ms.Abs();
          RequestEdgeIs(sys, p, rdes[i]);
          ms.AddEdge(Edge(REQUEST, rdes[i].kind, PdNode(p), PdNode(sys.spaces[rdes[i].space].manager)));
          QuietStep(sys, before, ms.Abs(), zone, ok);
          WalkedOn(sys, g, before, ms.Abs(), zone, ok);
        }
      }
      error := false;
    }

    method DumpHolds(p: PdId, ghost zone: set<PdId>, ghost ok: bool, ghost before: Graph, ghost entered: Graph) returns (error: bool)
      requires Valid() && p in sys.pds && p in Dumped(ms.Abs()) && RT_PD_ID in Dumped(ms.Abs())
      requires Closed(sys, zone) && p in zone && (ok ==> forall q :: q in zone ==> AllFound(sys, q))
      requires p !in Dumped(before) && Dumped(before) <= Dumped(entered) && Walked(sys, entered, ms.Abs(), zone, ok)
      requires p != RT_PD_ID ==> RequestsDone(sys, ms.Abs(), p, |sys.pds[p].rdes|)
      modifies ms
      ensures Valid() && Walked(sys, entered, ms.Abs(), zone, ok) && p in Dumped(ms.Abs())
      ensures ok ==> !error && Finished(sys, ms.Abs(), p)
      decreases |sys.pds.Keys - Dumped(before)|, 0, 0
    {
      hide Sound, Walked, Closed, AllFound, Dumped, Finished, Done, RequestEdge;
      var holds := sys.pds[p].holds;
      WalkedWithin(sys, entered, ms.Abs(), zone, ok);
      for i := 0 to |holds|
        invariant Valid() && Walked(sys, entered, ms.Abs(), zone, ok)
        invariant p in Dumped(ms.Abs()) && RT_PD_ID in Dumped(ms.Abs()) && Dumped(before) <= Dumped(ms.Abs())
        invariant ok ==> HoldsDone(sys, ms.Abs(), p, i)
        invariant p != RT_PD_ID ==> RequestsDone(sys, ms.Abs(), p, |sys.pds[p].rdes|)
      {
        ghost var g := ms.Abs();
        FewerLeft(sys, before, g, p);
        error := ResDump(p, i, zone, ok);
        WalkedKeeps(sys, g, ms.Abs(), zone, ok, p, i);
        WalkedOn(sys, entered, g, ms.Abs(), zone, ok);
        if error {
          return;
        }
      }
      error := false;
      if ok {
        AllDone(sys, ms.Abs(), p);
      }
    }

    /** Extract the state of `target`, starting from an empty model state. */
    method PdDump(target: PdId) returns (error: bool)
      requires Valid() && ms.Abs() == EMPTY && RT_PD_ID in sys.pds && target in sys.pds
      modifies ms
      ensures Valid() && Dumped(ms.Abs()) <= Reachable(sys, target)
      ensures forall p :: p in Dumped(ms.Abs()) ==>
                p in sys.pds && PdNode(p) in ms.Abs().nodes &&
                ms.Abs().nodes[PdNode(p)] == Node(PD, if p == RT_PD_ID then "ROOT_TASK" else DataOf(sys.pds[p].name), "", true)
      ensures NodesNamed(sys, ms.Abs().nodes)
      ensures forall e :: e in ms.Abs().edges && !Foreign(e) ==> exists p :: p in Dumped(ms.Abs()) && ArisesFrom(sys, e, p)
      ensures (forall p :: p in Reachable(sys, target) ==> LookupsSucceed(sys, p)) ==>
                !error && Dumped(ms.Abs()) == Reachable(sys, target) &&
                forall p :: p in Reachable(sys, target) ==>
                  RequestsShown(sys, ms.Abs().edges, p) && HoldsShown(sys, ms.Abs().edges, p) && SubsetsShown(sys, ms.Abs().edges, p)
    {
      hide Sound, AllFound, Dumped, IsOwn, Reachable, EMPTY;
      hide RequestsShown, HoldsShown, SubsetsShown, ArisesFrom, LookupsSucceed, Foreign, NodesNamed;
      forall p { LookupsAreFound(sys, p); }
      forall p, e | IsOwn(sys, p, e) { OwnEdgeArises(sys, p, e); }
      error := WalkBoth(target);
      SoundNames(sys, ms.Abs());
      ghost var edges := ms.Abs().edges;
      if forall p :: p in Reachable(sys, target) ==> AllFound(sys, p) {
        forall p | p in Reachable(sys, target) { OwnEdgesShown(sys, edges, p); }
      }
    }

    /** The walk from the root task, then the one from `target`. */
    method WalkBoth(target: PdId) returns (error: bool)
      requires Valid() && ms.Abs() == EMPTY && RT_PD_ID in sys.pds && target in sys.pds
      modifies ms
      ensures Valid() && Dumped(ms.Abs()) <= Reachable(sys, target)
      ensures forall p :: p in Dumped(ms.Abs()) ==>
                p in sys.pds && At(ms.Abs().nodes, PdNode(p)) == Some(Node(PD, DataOf(PdName(sys, p)), "", true))
      ensures forall e :: e in ms.Abs().edges && !Foreign(e) ==> exists p :: p in Dumped(ms.Abs()) && IsOwn(sys, p, e)
      ensures (forall p :: p in Reachable(sys, target) ==> AllFound(sys, p)) ==>
                !error && Dumped(ms.Abs()) == Reachable(sys, target) &&
                (forall p, e :: p in Reachable(sys, target) && IsOwn(sys, p, e) ==> e in ms.Abs().edges)
    {
      hide Sound, Walked, Closed, AllFound, Dumped, Finished, IsOwn, Reachable, EMPTY;
      ghost var zone := Reachable(sys, target);
      ghost var ok := forall p :: p in zone ==> AllFound(sys, p);
      ReachableIsClosed(sys, target);
      ghost var g := ms.Abs();
      NothingDumped(g);
      PdAdded(sys, g, RT_PD_ID);
      var _ := ms.AddNode(PD, PdNode(RT_PD_ID), Some("ROOT_TASK"), true);
      ghost var entered := ms.Abs();
      NowhereWalked(sys, entered, zone, ok);
      error := DumpHolds(RT_PD_ID, zone, ok, g, entered);
      WalkedInto(sys, g, entered, ms.Abs(), zone, ok, RT_PD_ID);
      SoundMeans(sys, ms.Abs());
      WalkedWithin(sys, g, ms.Abs(), zone, ok);
      if error {
        return;
      }
      ghost var afterRoot := ms.Abs();
      WalkedWithin(sys, entered, afterRoot, zone, ok);
      error := PdDumpInternal(target, zone, ok);
      WalkedOn(sys, g, afterRoot, ms.Abs(), zone, ok);
      SoundMeans(sys, ms.Abs());
      WalkedWithin(sys, g, ms.Abs(), zone, ok);
      if ok {
        WalkedWithin(sys, afterRoot, ms.Abs(), zone, ok);
        EverythingDumped(sys, ms.Abs(), target);
      }
    }
  }

  /** The request edges of the first `k` directory entries are there. */
  ghost predicate RequestsDone(sys: System, g: Graph, p: PdId, k: nat)
    requires p in sys.pds && k <= |sys.pds[p].rdes|
  {
    forall i :: 0 <= i < k ==> sys.pds[p].rdes[i].kind != KIND_NONE ==> RequestEdge(sys, p, sys.pds[p].rdes[i]) in g.edges
  }

  ghost predicate HoldsDone(sys: System, g: Graph, p: PdId, k: nat)
    requires p in sys.pds && k <= |sys.pds[p].holds|
  {
    forall i :: 0 <= i < k ==> Done(sys, g, p, sys.pds[p].holds[i])
  }

  // ===== steps of a walk =====

  lemma NowhereWalked(sys: System, g: Graph, zone: set<PdId>, ok: bool)
    requires Sound(sys, g)
    ensures Walked(sys, g, g, zone, ok)
  {
    hide Sound, Finished, Dumped;
  }

  lemma QuietStep(sys: System, g: Graph, h: Graph, zone: set<PdId>, ok: bool)
    requires Sound(sys, h) && Dumped(h) == Dumped(g) && g.edges <= h.edges
    ensures Walked(sys, g, h, zone, ok)
  {
    hide Sound, Finished, Dumped;
  }

  lemma ItemIsOk(sys: System, p: PdId, res: ResId, k: nat)
    requires BelowOk(sys) && (p, res) in sys.below && k < |sys.below[(p, res)]|
    ensures match sys.below[(p, res)][k]
            case NodeItem(id, node) => !id.PdNode? && (id.ResourceNode? ==> !HasSubset(id.res.kind))
            case EdgeItem(e) => Foreign(e)
  {
    assert ItemOk(sys.below[(p, res)][k]);
  }

  lemma PdIsDumped(g: Graph, p: PdId)
    ensures p in Dumped(g) <==> PdNode(p) in g.nodes
  {
  }

  lemma WalkedInto(sys: System, g: Graph, entered: Graph, h: Graph, zone: set<PdId>, ok: bool, p: PdId)
    requires p in sys.pds && p in zone && Dumped(entered) == Dumped(g) + {p} && entered.edges == g.edges
    requires Walked(sys, entered, h, zone, ok) && (ok ==> Finished(sys, h, p))
    ensures Walked(sys, g, h, zone, ok) && p in Dumped(h)
  {
    hide Sound, Finished, Dumped;
  }

  lemma NothingDumped(g: Graph)
    ensures g == EMPTY ==> Dumped(g) == {}
  {
  }

  lemma FewerLeft(sys: System, before: Graph, g: Graph, p: PdId)
    requires p in sys.pds && p !in Dumped(before) && p in Dumped(g) && Dumped(before) <= Dumped(g)
    ensures |sys.pds.Keys - Dumped(g)| < |sys.pds.Keys - Dumped(before)|
  {
    hide Dumped;
    var less, more := sys.pds.Keys - Dumped(g), sys.pds.Keys - Dumped(before);
    assert less <= more - {p};
    SubsetSize(less, more - {p});
  }

  lemma WalkedWithin(sys: System, g: Graph, h: Graph, zone: set<PdId>, ok: bool)
    requires Walked(sys, g, h, zone, ok)
    ensures Dumped(g) <= Dumped(h) <= Dumped(g) + zone && g.edges <= h.edges
    ensures ok ==> forall q :: q in Dumped(h) && q !in Dumped(g) ==> q in sys.pds && Finished(sys, h, q)
  {
    hide Finished, Dumped;
  }

  lemma SoundMeans(sys: System, g: Graph)
    requires Sound(sys, g)
    ensures forall e :: e in g.edges && !Foreign(e) ==> exists p :: p in Dumped(g) && IsOwn(sys, p, e)
    ensures forall p :: p in Dumped(g) ==>
              p in sys.pds && At(g.nodes, PdNode(p)) == Some(Node(PD, DataOf(PdName(sys, p)), "", true))
  {
    hide IsOwn;
  }

  /** What is done stays done, and hold `i` is done now. */
  lemma WalkedKeeps(sys: System, g: Graph, h: Graph, zone: set<PdId>, ok: bool, p: PdId, i: nat)
    requires p in sys.pds && i < |sys.pds[p].holds| && Walked(sys, g, h, zone, ok)
    ensures Dumped(g) <= Dumped(h)
    ensures HoldsDone(sys, g, p, i) && Done(sys, h, p, sys.pds[p].holds[i]) ==> HoldsDone(sys, h, p, i + 1)
    ensures RequestsDone(sys, g, p, |sys.pds[p].rdes|) ==> RequestsDone(sys, h, p, |sys.pds[p].rdes|)
  {
    hide HoldEdge, SubsetEdge, RequestEdge, Dumped, Sound, Finished;
  }

  lemma AllDone(sys: System, g: Graph, p: PdId)
    requires p in sys.pds && HoldsDone(sys, g, p, |sys.pds[p].holds|)
    requires p != RT_PD_ID ==> RequestsDone(sys, g, p, |sys.pds[p].rdes|)
    ensures Finished(sys, g, p)
  {
    hide Done, RequestEdge;
  }

  /** When every dumped PD is finished, everything reachable is dumped, with all its edges. */
  lemma EverythingDumped(sys: System, g: Graph, target: PdId)
    requires Dumped(g) <= sys.pds.Keys && RT_PD_ID in Dumped(g) && target in Dumped(g)
    requires forall q :: q in Dumped(g) ==> q in sys.pds && Finished(sys, g, q)
    ensures Reachable(sys, target) <= Dumped(g)
    ensures forall p, e :: p in Dumped(g) && IsOwn(sys, p, e) ==> e in g.edges
  {
    hide Dumped, HoldEdge, SubsetEdge, RequestEdge;
    forall p: PdId, q: PdId | p in Dumped(g) && HoldsPd(sys, p, q) ensures q in Dumped(g) {
      var res :| res in sys.pds[p].holds && res.kind == KIND_PD && res.obj == q;
      var i :| 0 <= i < |sys.pds[p].holds| && sys.pds[p].holds[i] == res;
      assert Done(sys, g, p, sys.pds[p].holds[i]);
    }
    ReachableIsLeast(sys, target, Dumped(g));
    forall p, e | p in Dumped(g) && IsOwn(sys, p, e) ensures e in g.edges {
      OwnIsThere(sys, g, p, e);
    }
  }

  lemma OwnIsThere(sys: System, g: Graph, p: PdId, e: Edge)
    requires p in sys.pds && Finished(sys, g, p) && IsOwn(sys, p, e)
    ensures e in g.edges
  {
    hide Dumped, HoldEdge, SubsetEdge, RequestEdge;
    if res :| res in sys.pds[p].holds && !Skipped(res.kind) && res.kind != KIND_PD && e == HoldEdge(sys, p, res) {
      var i :| 0 <= i < |sys.pds[p].holds| && sys.pds[p].holds[i] == res;
      assert Done(sys, g, p, sys.pds[p].holds[i]);
    } else if res :| res in sys.pds[p].holds && HasSubset(res.kind) && e == SubsetEdge(sys, res) {
      var i :| 0 <= i < |sys.pds[p].holds| && sys.pds[p].holds[i] == res;
      assert Done(sys, g, p, sys.pds[p].holds[i]);
    } else {
      var rde :| rde in sys.pds[p].rdes && rde.kind != KIND_NONE && e == RequestEdge(sys, p, rde);
      var i :| 0 <= i < |sys.pds[p].rdes| && sys.pds[p].rdes[i] == rde;
    }
  }

  lemma IfExtracted(sys: System, g: Graph, res: ResId)
    requires Sound(sys, g) && HasSubset(res.kind)
    ensures ResourceNode(res) in g.nodes && g.nodes[ResourceNode(res)].extracted ==> SubsetEdge(sys, res) in g.edges
  {
    hide SubsetEdge, IsOwn;
  }

  lemma HoldFound(sys: System, p: PdId, i: nat, zone: set<PdId>, ok: bool)
    requires p in sys.pds && i < |sys.pds[p].holds| && p in zone && Closed(sys, zone)
    requires ok ==> forall q :: q in zone ==> AllFound(sys, q)
    ensures ok ==> Found(sys, p, sys.pds[p].holds[i])
    ensures sys.pds[p].holds[i].kind == KIND_PD && sys.pds[p].holds[i].obj in sys.pds ==> sys.pds[p].holds[i].obj in zone
  {
    var res := sys.pds[p].holds[i];
    if res.kind == KIND_PD && res.obj in sys.pds {
      assert HoldsPd(sys, p, res.obj);
    }
  }
}
