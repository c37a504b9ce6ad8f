/**
 * Resource spaces, the map edges between them, and what one sweep over the space registry
 * deletes.  The sweep visits spaces in registration order and deletes each one marked
 * when it is reached; deleting a space whose cleanup policy is on first marks every live
 * space with a map edge to it, up to the configured depth.
 */
module SpaceGraph {
  import opened Common
  import opened Resources

  datatype Space = Space(
    kind: Kind, manager: PdId, maps: seq<SpaceId>,
    toDelete: bool, policy: bool, deleting: bool, depth: int, dontNotify: bool)

  type Spaces = map<SpaceId, Space>

  /** The configured depth -1 means unbounded. */
  const UNBOUNDED: int := -1

  predicate WithinDepth(depth: int, limit: int) {
    limit == UNBOUNDED || depth + 1 <= limit
  }

  predicate MarkedBy(sp: Spaces, s: SpaceId, x: SpaceId, limit: int)
    requires s in sp && x in sp
  {
    !sp[x].toDelete && WithinDepth(sp[s].depth, limit) && s in sp[x].maps
  }

  function WithMark(space: Space, depth: int): Space {
    space.(depth := depth, toDelete := true, policy := true)
  }

  /** The cleanup policy of space `s`: mark every live space that maps to it. */
  function MarkDependents(sp: Spaces, s: SpaceId, limit: int): (r: Spaces)
    requires s in sp
    ensures r.Keys == sp.Keys
  {
    map x | x in sp :: if MarkedBy(sp, s, x, limit)
                       then WithMark(sp[x], sp[s].depth + 1)
                       else sp[x]
  }

  lemma MarkedAt(sp: Spaces, s: SpaceId, limit: int)
    requires s in sp
    ensures forall x :: x in sp ==>
              MarkDependents(sp, s, limit)[x] ==
              if MarkedBy(sp, s, x, limit) then WithMark(sp[x], sp[s].depth + 1) else sp[x]
  {
  }

  /** The registry after deleting space `s`. */
  function Kill(sp: Spaces, s: SpaceId, limit: int): (r: Spaces)
    requires s in sp
    ensures r.Keys == sp.Keys - {s}
  {
    (if sp[s].policy then MarkDependents(sp, s, limit) else sp) - {s}
  }

  /**
   * Deleting a space removes it and, if its policy is on, marks exactly the live spaces that map to it,
   * within the depth: they are one level deeper, and their own policy is on.  All else stays.
   */
  lemma KillIs(sp: Spaces, s: SpaceId, limit: int)
    requires s in sp
    ensures Kill(sp, s, limit).Keys == sp.Keys - {s}
    ensures forall x :: x in sp && x != s ==>
              var hit := sp[s].policy && !sp[x].toDelete && (limit == -1 || sp[s].depth + 1 <= limit) && s in sp[x].maps;
              Kill(sp, s, limit)[x] == if hit then sp[x].(toDelete := true, policy := true, depth := sp[s].depth + 1) else sp[x]
  {
  }

  /** One sweep over the spaces listed in `order`. */
  function Sweep(sp: Spaces, order: seq<SpaceId>, limit: int): (r: Spaces)
    ensures r.Keys <= sp.Keys
    decreases |order|
  {
    if order == [] then sp
    else if order[0] in sp && sp[order[0]].toDelete && !sp[order[0]].deleting
    then Sweep(Kill(sp, order[0], limit), order[1..], limit)
    else Sweep(sp, order[1..], limit)
  }

  ghost predicate NoneDeleting(sp: Spaces) {
    forall x :: x in sp ==> !sp[x].deleting
  }

  /** `later` has fewer spaces than `sp`, whose identity fields are untouched and whose marks only grow. */
  ghost predicate Thinned(sp: Spaces, later: Spaces) {
    && later.Keys <= sp.Keys
    && forall x :: x in later ==>
         && later[x].kind == sp[x].kind && later[x].manager == sp[x].manager && later[x].maps == sp[x].maps
         && later[x].deleting == sp[x].deleting && later[x].dontNotify == sp[x].dontNotify
         && (sp[x].toDelete ==> later[x] == sp[x])
  }

  lemma KillThins(sp: Spaces, s: SpaceId, limit: int)
    requires s in sp
    ensures Thinned(sp, Kill(sp, s, limit))
  {
  }

  /** Spaces that are not marked when the sweep starts with them are passed over. */
  lemma {:induction false} SweepPasses(sp: Spaces, first: seq<SpaceId>, rest: seq<SpaceId>, limit: int)
    requires forall x :: x in first && x in sp ==> !sp[x].toDelete
    ensures Sweep(sp, first + rest, limit) == Sweep(sp, rest, limit)
  {
    if first == [] {
      assert first + rest == rest;
    } else {
      assert (first + rest)[1..] == first[1..] + rest;
      SweepPasses(sp, first[1..], rest, limit);
    }
  }

  /** Whatever the edges, a sweep deletes every listed space that was already marked. */
  lemma {:induction false} SweepDeletesMarked(sp: Spaces, order: seq<SpaceId>, limit: int)
    requires NoneDeleting(sp)
    ensures Thinned(sp, Sweep(sp, order, limit))
    ensures NoneDeleting(Sweep(sp, order, limit))
    ensures forall x :: x in order && x in sp && sp[x].toDelete ==> x !in Sweep(sp, order, limit)
    decreases |order|
  {
    if order != [] {
      var s := order[0];
      var next := if s in sp && sp[s].toDelete then Kill(sp, s, limit) else sp;
      if s in sp {
        KillThins(sp, s, limit);
      }
      SweepDeletesMarked(next, order[1..], limit);
      assert forall x :: x in order ==> x == s || x in order[1..];
    }
  }

  // ----- what a sweep deletes, in terms of the map graph it starts from -----

  ghost predicate PolicySource(sp: Spaces, y: SpaceId) {
    y in sp && sp[y].toDelete && sp[y].policy
  }

  /** A map path through unmarked spaces that ends in a space marked with its policy on. */
  ghost predicate Chain(sp: Spaces, path: seq<SpaceId>) {
    && |path| > 0
    && PolicySource(sp, path[|path| - 1])
    && forall i :: 0 <= i < |path| - 1 ==>
         path[i] in sp && !sp[path[i]].toDelete && path[i + 1] in sp[path[i]].maps
  }

  ghost predicate Spreads(sp: Spaces, x: SpaceId) {
    exists path :: Chain(sp, path) && path[0] == x
  }

  ghost predicate Doomed(sp: Spaces, x: SpaceId) {
    x in sp && (sp[x].toDelete || Spreads(sp, x))
  }

  ghost predicate Edge(sp: Spaces, x: SpaceId, z: SpaceId) {
    x in sp && z in sp && z in sp[x].maps
  }

  lemma SpreadsUnfolds(sp: Spaces, x: SpaceId)
    requires x in sp
    ensures Spreads(sp, x) <==>
            PolicySource(sp, x) || (!sp[x].toDelete && exists z :: Edge(sp, x, z) && Spreads(sp, z))
  {
    if Spreads(sp, x) {
      var path :| Chain(sp, path) && path[0] == x;
      if |path| > 1 {
        assert Chain(sp, path[1..]) && path[1..][0] == path[1];
        assert path[1] in sp[path[0]].maps;
        assert Edge(sp, x, path[1]) && Spreads(sp, path[1]);
      }
    }
    if PolicySource(sp, x) {
      assert Chain(sp, [x]);
    }
    if !sp[x].toDelete {
      if z :| Edge(sp, x, z) && Spreads(sp, z) {
        var path :| Chain(sp, path) && path[0] == z;
        assert Chain(sp, [x] + path);
      }
    }
  }

  ghost predicate Enumerates(order: seq<SpaceId>, sp: Spaces) {
    (forall x :: x in order <==> x in sp) && Distinct(order)
  }

  /** Every map edge leads from a later-registered space to an earlier one. */
  ghost predicate EdgesPointBack(order: seq<SpaceId>, sp: Spaces) {
    forall i, j :: 0 <= i < |order| && 0 <= j < |order| && Edge(sp, order[i], order[j]) ==> j < i
  }

  /** The sweep visits a deleted space with its policy on before it visits space `k`, which maps to it. */
  ghost predicate Hit(sp: Spaces, order: seq<SpaceId>, k: nat)
    requires k < |order|
    decreases k, 1
  {
    PolicySource(sp, order[k]) || (order[k] in sp && !sp[order[k]].toDelete && HitBefore(sp, order, k, order[k]))
  }

  ghost predicate HitBefore(sp: Spaces, order: seq<SpaceId>, k: nat, x: SpaceId)
    requires k <= |order|
    decreases k, 0
  {
    exists j :: 0 <= j < k && Edge(sp, x, order[j]) && Hit(sp, order, j)
  }

  /** `cur` is the registry once the first `k` spaces of the sweep have been visited. */
  ghost predicate SweptTo(sp: Spaces, order: seq<SpaceId>, k: nat, cur: Spaces) {
    && k <= |order|
    && (forall x :: x in cur ==> x in sp && cur[x].maps == sp[x].maps && !cur[x].deleting)
    && (forall i :: 0 <= i < k ==> (order[i] in cur <==> !Taken(sp, order, i)))
    && (forall i :: k <= i < |order| ==> order[i] in cur && MarkedSoFar(sp, order, k, cur, order[i]))
  }

  /** Space `i` was marked from the start, or the sweep marks it in time. */
  ghost predicate Taken(sp: Spaces, order: seq<SpaceId>, i: nat)
    requires i < |order|
  {
    order[i] in sp && (sp[order[i]].toDelete || Hit(sp, order, i))
  }

  ghost predicate MarkedSoFar(sp: Spaces, order: seq<SpaceId>, k: nat, cur: Spaces, x: SpaceId)
    requires k <= |order| && x in cur
  {
    && x in sp && (cur[x].toDelete <==> sp[x].toDelete || HitBefore(sp, order, k, x))
    && (PolicySource(cur, x) <==> PolicySource(sp, x) || (!sp[x].toDelete && HitBefore(sp, order, k, x)))
  }

  lemma HitNext(sp: Spaces, order: seq<SpaceId>, k: nat, x: SpaceId)
    requires k < |order|
    ensures HitBefore(sp, order, k + 1, x) <==> HitBefore(sp, order, k, x) || (Edge(sp, x, order[k]) && Hit(sp, order, k))
  {
  }

  lemma VisitStep(sp: Spaces, order: seq<SpaceId>, k: nat, cur: Spaces, next: Spaces)
    requires SweptTo(sp, order, k, cur) && k < |order| && Enumerates(order, sp)
    requires next == if cur[order[k]].toDelete then Kill(cur, order[k], UNBOUNDED) else cur
    ensures SweptTo(sp, order, k + 1, next)
  {
    hide Hit, HitBefore;
    var s := order[k];
    HitIs(sp, order, k);
    assert cur[s].toDelete <==> Taken(sp, order, k);
    assert PolicySource(cur, s) <==> Hit(sp, order, k);
    forall i | k + 1 <= i < |order|
      ensures order[i] in next && MarkedSoFar(sp, order, k + 1, next, order[i])
    {
      HitNext(sp, order, k, order[i]);
      assert Edge(sp, order[i], s) <==> s in cur[order[i]].maps;
    }
  }

  lemma HitIs(sp: Spaces, order: seq<SpaceId>, k: nat)
    requires k < |order|
    ensures Hit(sp, order, k) <==>
            PolicySource(sp, order[k]) || (order[k] in sp && !sp[order[k]].toDelete && HitBefore(sp, order, k, order[k]))
  {
  }

  lemma {:induction false} SweepFromInvariant(sp: Spaces, order: seq<SpaceId>, k: nat, cur: Spaces)
    requires SweptTo(sp, order, k, cur) && Enumerates(order, sp)
    ensures SweptTo(sp, order, |order|, Sweep(cur, order[k..], UNBOUNDED))
    decreases |order| - k
  {
    if k < |order| {
      var next := if cur[order[k]].toDelete then Kill(cur, order[k], UNBOUNDED) else cur;
      VisitStep(sp, order, k, cur, next);
      SweepFromInvariant(sp, order, k + 1, next);
      assert order[k..][0] == order[k] && order[k..][1..] == order[k + 1..];
    }
  }

  /** Whatever the edges, a sweep with unbounded depth deletes exactly the spaces that are marked or hit. */
  lemma SweepTakes(sp: Spaces, order: seq<SpaceId>)
    requires Enumerates(order, sp) && NoneDeleting(sp)
    ensures forall i :: 0 <= i < |order| ==> (order[i] in Sweep(sp, order, UNBOUNDED) <==> !Taken(sp, order, i))
    ensures Sweep(sp, order, UNBOUNDED).Keys <= sp.Keys
  {
    hide Hit;
    assert order[0..] == order;
    SweepFromInvariant(sp, order, 0, sp);
  }

  lemma {:induction false} HitSpreads(sp: Spaces, order: seq<SpaceId>, k: nat)
    requires k < |order| && Hit(sp, order, k)
    ensures Spreads(sp, order[k])
  {
    if PolicySource(sp, order[k]) {
      SpreadsUnfolds(sp, order[k]);
    } else {
      var j :| 0 <= j < k && Edge(sp, order[k], order[j]) && Hit(sp, order, j);
      HitSpreads(sp, order, j);
      SpreadsUnfolds(sp, order[k]);
    }
  }

  /** The sweep deletes everything that the policies reach exactly if it visits all of that in time. */
  lemma SweepIsExactIff(sp: Spaces, order: seq<SpaceId>)
    requires Enumerates(order, sp) && NoneDeleting(sp)
    ensures (forall x :: x in Sweep(sp, order, UNBOUNDED) <==> x in sp && !Doomed(sp, x)) <==>
            (forall i :: 0 <= i < |order| && Spreads(sp, order[i]) ==> Taken(sp, order, i))
  {
    hide Spreads, Hit;
    var r := Sweep(sp, order, UNBOUNDED);
    SweepTakes(sp, order);
    forall i | 0 <= i < |order| && Taken(sp, order, i) ensures Doomed(sp, order[i]) {
      if !sp[order[i]].toDelete {
        HitSpreads(sp, order, i);
      }
    }
    if forall x :: x in r <==> x in sp && !Doomed(sp, x) {
      forall i | 0 <= i < |order| && Spreads(sp, order[i]) ensures Taken(sp, order, i) {
        assert order[i] in sp && Doomed(sp, order[i]);
      }
    }
    if forall i :: 0 <= i < |order| && Spreads(sp, order[i]) ==> Taken(sp, order, i) {
      forall x ensures x in r <==> x in sp && !Doomed(sp, x) {
        if x in sp {
          var i :| 0 <= i < |order| && order[i] == x;
        }
      }
    }
  }

  lemma {:induction false} PointingBackHits(sp: Spaces, order: seq<SpaceId>, k: nat)
    requires Enumerates(order, sp) && EdgesPointBack(order, sp) && k < |order| && Spreads(sp, order[k])
    ensures Hit(sp, order, k)
  {
    SpreadsUnfolds(sp, order[k]);
    if !PolicySource(sp, order[k]) {
      var z :| Edge(sp, order[k], z) && Spreads(sp, z);
      var j :| 0 <= j < |order| && order[j] == z;
      assert Edge(sp, order[k], order[j]);
      PointingBackHits(sp, order, j);
    }
  }

  /**
   * With unbounded depth and edges that point back, one sweep deletes exactly the marked
   * spaces and the spaces with a map path, through unmarked spaces, to a space marked with
   * its cleanup policy on.
   */
  lemma SweepIsExact(sp: Spaces, order: seq<SpaceId>)
    requires Enumerates(order, sp) && EdgesPointBack(order, sp) && NoneDeleting(sp)
    ensures forall x :: x in Sweep(sp, order, UNBOUNDED) <==> x in sp && !Doomed(sp, x)
  {
    hide Spreads, Hit;
    forall i | 0 <= i < |order| && Spreads(sp, order[i]) ensures Taken(sp, order, i) {
      PointingBackHits(sp, order, i);
    }
    SweepIsExactIff(sp, order);
  }

  /** Without that edge direction one sweep can miss a doomed space that it visited too early. */
  lemma SweepMissesForwardEdge() returns (sp: Spaces, order: seq<SpaceId>)
    ensures Enumerates(order, sp) && NoneDeleting(sp) && !EdgesPointBack(order, sp)
    ensures exists x :: x in Sweep(sp, order, UNBOUNDED) && Doomed(sp, x)
  {
    var marked := Space(KIND_MAX, 2, [], true, true, false, 0, false);
    var user := Space(KIND_MAX, 3, [8], false, false, false, 0, false);
    sp, order := map[7 := user, 8 := marked], [7, 8];
    assert Edge(sp, order[0], order[1]);
    assert Chain(sp, [7, 8]) && [7, 8][0] == 7;
    assert order[1..] == [8] && order[1..][1..] == [];
    assert Sweep(sp, order, UNBOUNDED) == Sweep(sp, [8], UNBOUNDED) == Sweep(Kill(sp, 8, UNBOUNDED), [], UNBOUNDED);
    assert 7 in Sweep(sp, order, UNBOUNDED);
  }

  // ----- bounded depth -----

  ghost predicate ShortChain(sp: Spaces, x: SpaceId, bound: int) {
    exists path :: Chain(sp, path) && path[0] == x && |path| - 1 <= bound
  }

  /** Marks made during the sweep are within the limit and witnessed by a short map path. */
  ghost predicate MarksWitnessed(sp: Spaces, cur: Spaces, limit: nat) {
    forall x :: x in cur ==>
      && x in sp && cur[x].maps == sp[x].maps
      && (sp[x].toDelete ==> cur[x] == sp[x])
      && (cur[x].toDelete && !sp[x].toDelete ==> cur[x].depth <= limit && ShortChain(sp, x, cur[x].depth))
  }

  lemma KillKeepsWitnesses(sp: Spaces, cur: Spaces, s: SpaceId, limit: nat)
    requires MarksWitnessed(sp, cur, limit) && s in cur && cur[s].toDelete
    requires forall x :: PolicySource(sp, x) ==> sp[x].depth >= 0
    ensures MarksWitnessed(sp, Kill(cur, s, limit), limit)
  {
    if cur[s].policy {
      var path: seq<SpaceId>;
      if sp[s].toDelete {
        path := [s];
        assert Chain(sp, path);
      } else {
        path :| Chain(sp, path) && path[0] == s && |path| - 1 <= cur[s].depth;
      }
      forall x | x in cur && MarkedBy(cur, s, x, limit) && !sp[x].toDelete
        ensures ShortChain(sp, x, cur[s].depth + 1)
      {
        assert Chain(sp, [x] + path) && ([x] + path)[0] == x;
      }
    }
  }

  lemma {:induction false} SweepWitnesses(sp: Spaces, cur: Spaces, order: seq<SpaceId>, limit: nat)
    requires MarksWitnessed(sp, cur, limit)
    requires forall x :: PolicySource(sp, x) ==> sp[x].depth >= 0
    ensures forall x :: x in cur && x !in Sweep(cur, order, limit) ==>
              sp[x].toDelete || ShortChain(sp, x, limit)
    decreases |order|
  {
    if order != [] {
      var s := order[0];
      if s in cur && cur[s].toDelete && !cur[s].deleting {
        KillKeepsWitnesses(sp, cur, s, limit);
        SweepWitnesses(sp, Kill(cur, s, limit), order[1..], limit);
      } else {
        SweepWitnesses(sp, cur, order[1..], limit);
      }
    }
  }

  /** With a depth limit N, every extra space deleted has a map path of length at most N to a marked one. */
  lemma SweepWithinDepth(sp: Spaces, order: seq<SpaceId>, limit: nat)
    requires forall x :: PolicySource(sp, x) ==> sp[x].depth >= 0
    ensures forall x :: x in sp && x !in Sweep(sp, order, limit) && !sp[x].toDelete ==> ShortChain(sp, x, limit)
  {
    SweepWitnesses(sp, sp, order, limit);
  }
}
