/**
 * Protection domains as the root task records them, and the pure effect on them of
 * deleting a resource space.
 */
module ProtectionDomains {
  import opened Common
  import opened Resources
  import opened RequestDirectory
  import opened SpaceGraph

  datatype Pd = Pd(
    holds: map<ResId, Count>, rde: seq<Row>, links: seq<PdId>,
    toDelete: bool, deleting: bool, depth: nat)

  type Pds = map<PdId, Pd>

  function SpaceRes(s: SpaceId): ResId { ResId(KIND_RESSPC, RESSPC_SPACE_ID, s) }
  function PdRes(p: PdId): ResId { ResId(KIND_PD, PD_SPACE_ID, p) }

  // ----- holding resources -----

  function Acquire(pd: Pd, r: ResId): Pd {
    pd.(holds := pd.holds[r := if r in pd.holds then pd.holds[r] + 1 else 1])
  }

  function Release(pd: Pd, r: ResId): Pd {
    if r !in pd.holds then pd
    else if pd.holds[r] == 1 then Unlink(pd, r)
    else pd.(holds := pd.holds[r := pd.holds[r] - 1])
  }

  function Unlink(pd: Pd, r: ResId): Pd {
    pd.(holds := pd.holds - {r})
  }

  /** How many references a PD has to `r`. */
  function Refs(pd: Pd, r: ResId): nat {
    if r in pd.holds then pd.holds[r] else 0
  }

  /** `b` is `a`, except that it has `n` references to `r`; with none, the hold is gone. */
  ghost predicate Counts(a: Pd, b: Pd, r: ResId, n: nat) {
    && b == a.(holds := b.holds)
    && (r in b.holds <==> n > 0) && (n > 0 ==> b.holds[r] == n)
    && forall x :: x != r ==> (x in b.holds <==> x in a.holds) && (x in b.holds ==> b.holds[x] == a.holds[x])
  }

  /** The references of `p` to `r` are all that changes: there are `n` now. */
  ghost predicate Recounted(a: Pds, b: Pds, p: PdId, r: ResId, n: nat) {
    b.Keys == a.Keys && p in a && Counts(a[p], b[p], r, n) && forall q :: q in a && q != p ==> b[q] == a[q]
  }

  lemma AcquireCounts(pd: Pd, r: ResId)
    ensures Counts(pd, Acquire(pd, r), r, Refs(pd, r) + 1)
  {
  }

  lemma ReleaseCounts(pd: Pd, r: ResId)
    ensures Counts(pd, Release(pd, r), r, if Refs(pd, r) > 0 then Refs(pd, r) - 1 else 0)
    ensures Counts(pd, Unlink(pd, r), r, 0)
  {
  }

  predicate HasResourcesIn(pd: Pd, s: SpaceId) {
    exists r :: r in pd.holds && r.space == s
  }

  function DropHolds(pd: Pd, s: SpaceId): Pd {
    pd.(holds := map r | r in pd.holds && r.space != s :: pd.holds[r])
  }

  /** `pd` part-way through dropping its holds in space `s`: those in `todo` remain. */
  function DropHoldsBut(pd: Pd, s: SpaceId, todo: set<ResId>): Pd {
    pd.(holds := map r | r in pd.holds && (r.space != s || r in todo) :: pd.holds[r])
  }

  lemma DropHoldsSteps(pd: Pd, s: SpaceId, todo: set<ResId>, r: ResId)
    requires r in todo && r.space == s
    ensures Unlink(DropHoldsBut(pd, s, todo), r) == DropHoldsBut(pd, s, todo - {r})
    ensures r in pd.holds ==> r in DropHoldsBut(pd, s, todo).holds
    ensures DropHoldsBut(pd, s, todo).toDelete == pd.toDelete
  {
  }

  lemma DropHoldsEnds(pd: Pd, s: SpaceId)
    ensures DropHoldsBut(pd, s, {}) == DropHolds(pd, s)
    ensures DropHoldsBut(pd, s, set r | r in pd.holds && r.space == s) == pd
  {
    assert DropHoldsBut(pd, s, {}).holds == DropHolds(pd, s).holds;
    assert DropHoldsBut(pd, s, set r | r in pd.holds && r.space == s).holds == pd.holds;
  }

  function DropRde(pd: Pd, kind: Kind, s: SpaceId): Pd {
    if kind != KIND_NONE && kind < |pd.rde|
    then pd.(rde := pd.rde[kind := Remove(pd.rde[kind], kind, s)])
    else pd
  }

  function Clean(pd: Pd, kind: Kind, s: SpaceId): Pd {
    DropHolds(DropRde(pd, kind, s), s)
  }

  predicate Depends(pd: Pd, kind: Kind, s: SpaceId) {
    (kind < |pd.rde| && Found(pd.rde[kind], kind, s)) || HasResourcesIn(pd, s)
  }

  // ----- the effect of deleting space `s` of type `kind`, managed by `m` -----

  predicate Exempt(q: PdId, pd: Pd) {
    q == RT_PD_ID || pd.toDelete
  }

  function MarkDependent(q: PdId, pd: Pd, kind: Kind, s: SpaceId, depth: nat, limit: int): Pd {
    if !Exempt(q, pd) && WithinDepth(depth, limit) && Depends(pd, kind, s)
    then pd.(depth := depth + 1, toDelete := true)
    else pd
  }

  function CleanLive(q: PdId, pd: Pd, kind: Kind, s: SpaceId): Pd {
    if Exempt(q, pd) then pd else Clean(pd, kind, s)
  }

  function ReleaseIfManager(q: PdId, pd: Pd, s: SpaceId, m: PdId): Pd {
    if q == m && !Exempt(q, pd) then Release(pd, SpaceRes(s)) else pd
  }

  /** What happens to PD `q`; `depth` is the manager's deletion depth. */
  function CleanupPd(q: PdId, pd: Pd, s: SpaceId, space: Space, depth: nat, limit: int): Pd {
    var released := ReleaseIfManager(q, pd, s, space.manager);
    var marked := if space.policy then MarkDependent(q, released, space.kind, s, depth, limit) else released;
    CleanLive(q, marked, space.kind, s)
  }

  function CleanupSpace(pds: Pds, s: SpaceId, space: Space, limit: int): (r: Pds)
    requires space.manager in pds
    ensures r.Keys == pds.Keys
  {
    map q | q in pds :: CleanupPd(q, pds[q], s, space, pds[space.manager].depth, limit)
  }

  function UnlinkFromRoot(pds: Pds, r: ResId): (res: Pds)
    requires RT_PD_ID in pds
    ensures res.Keys == pds.Keys
  {
    pds[RT_PD_ID := Unlink(pds[RT_PD_ID], r)]
  }

  /** The PDs after a sweep over the spaces in `order`. */
  function SweepPds(pds: Pds, spaces: Spaces, order: seq<SpaceId>, pdLimit: int, spaceLimit: int): (r: Pds)
    ensures r.Keys == pds.Keys
    decreases |order|
  {
    if order == [] then pds
    else
      var s := order[0];
      if s in spaces && spaces[s].toDelete && !spaces[s].deleting && RT_PD_ID in pds && spaces[s].manager in pds
      then SweepPds(CleanupSpace(UnlinkFromRoot(pds, SpaceRes(s)), s, spaces[s], pdLimit),
                    Kill(spaces, s, spaceLimit), order[1..], pdLimit, spaceLimit)
      else SweepPds(pds, spaces, order[1..], pdLimit, spaceLimit)
  }

  /** Spaces that are not marked when the sweep starts with them change nothing. */
  lemma {:induction false} SweepPdsPasses(pds: Pds, spaces: Spaces, first: seq<SpaceId>, rest: seq<SpaceId>, pdLimit: int, spaceLimit: int)
    requires forall x :: x in first && x in spaces ==> !spaces[x].toDelete
    ensures SweepPds(pds, spaces, first + rest, pdLimit, spaceLimit) == SweepPds(pds, spaces, rest, pdLimit, spaceLimit)
  {
    if first == [] {
      assert first + rest == rest;
    } else {
      assert (first + rest)[1..] == first[1..] + rest;
      SweepPdsPasses(pds, spaces, first[1..], rest, pdLimit, spaceLimit);
    }
  }

  // ----- invariant -----

  ghost predicate HoldsOk(pd: Pd, spaces: Spaces) {
    forall r :: r in pd.holds ==> r.space in spaces && (CoreKind(r.kind) ==> r.space in CORE_SPACES)
  }

  ghost predicate RowOk(row: Row, t: Kind, spaces: Spaces) {
    && RowOf(row, t) && UniqueEntries(row)
    && forall s: SpaceId :: t != KIND_NONE && Lists(row, t, s) ==> s in spaces && spaces[s].kind == t
  }

  /** Every row holds entries of its own type only. */
  ghost predicate RowsOf(pd: Pd) {
    |pd.rde| == KIND_MAX && forall t :: 0 <= t < KIND_MAX ==> RowOf(pd.rde[t], t)
  }

  ghost predicate RdeOk(pd: Pd, spaces: Spaces) {
    && |pd.rde| == KIND_MAX
    && forall t :: 0 <= t < KIND_MAX ==> RowOk(pd.rde[t], t, spaces)
  }

  /** Every hold and every request edge names a registered space. */
  ghost predicate Grounded(pd: Pd, spaces: Spaces) {
    HoldsOk(pd, spaces) && RdeOk(pd, spaces)
  }

  ghost predicate SafeTargets(pd: Pd) {
    forall r :: r in pd.holds ==>
      && (r.kind == KIND_ADS || r.kind == KIND_RESSPC ==> r.obj !in CORE_SPACES)
      && (CoreKind(r.kind) ==> r.space in CORE_SPACES)
  }

  ghost predicate PdOk(pd: Pd, spaces: Spaces) {
    && SafeTargets(pd) && RowsOf(pd)
    && RT_PD_ID !in pd.links
    && (pd.deleting ==> pd.toDelete)
    && (!pd.toDelete ==> Grounded(pd, spaces))
  }

  ghost predicate CoreSpace(space: Space) {
    space.manager == RT_PD_ID && !space.toDelete && !space.deleting && space.maps == []
  }

  /** A space stays bound to its manager: the manager holds it, or it is due for deletion. */
  ghost predicate Anchored(pds: Pds, s: SpaceId, space: Space) {
    && space.manager in pds
    && (space.manager != RT_PD_ID ==> SpaceRes(s) in pds[space.manager].holds || space.toDelete)
  }

  ghost predicate SpaceOk(pds: Pds, s: SpaceId, space: Space) {
    && Anchored(pds, s, space)
    && 0 < s < SPACE_ID_NULL
    && (if s in CORE_SPACES then CoreSpace(space) else SpaceKind(space.kind))
  }

  ghost predicate Inv(pds: Pds, spaces: Spaces, order: seq<SpaceId>) {
    && RT_PD_ID in pds && !pds[RT_PD_ID].toDelete && !pds[RT_PD_ID].deleting
    && CORE_SPACES <= spaces.Keys
    && (forall p :: p in pds && p != RT_PD_ID ==> PdOk(pds[p], spaces))
    && (forall s :: s in spaces ==> SpaceOk(pds, s, spaces[s]))
    && Enumerates(order, spaces)
  }

  // ----- how the PD registry changes -----

  /** Deleting spaces edits live PDs only, and never touches links or the deleting flag. */
  ghost predicate PdsCleaned(a: Pds, b: Pds) {
    && b.Keys == a.Keys
    && forall q :: q in a ==>
         && b[q].links == a[q].links && b[q].deleting == a[q].deleting
         && (a[q].toDelete ==> b[q] == a[q])
  }

  /** Any part of a destruction: PDs disappear, but none that is already being destroyed. */
  ghost predicate PdsEvolve(a: Pds, b: Pds) {
    && b.Keys <= a.Keys
    && (forall q :: q in b ==>
          && (b[q].links == a[q].links || b[q].links == [])
          && b[q].deleting == a[q].deleting
          && (a[q].toDelete ==> b[q].toDelete && b[q].depth <= a[q].depth))
    && (forall q :: q in a && a[q].deleting ==> q in b)
    && (forall q :: q in a ==> LinksHonoured(a[q].links, q, b))
  }

  /** Of the PDs that `q` was linked to, those that are registered and unmarked are still linked to it. */
  ghost predicate LinksHonoured(links: seq<PdId>, q: PdId, b: Pds) {
    forall r :: r in links && r in b && !b[r].toDelete ==> q in b && r in b[q].links
  }

  /** The same PDs with the same links; marks only grow. */
  ghost predicate PdsKept(a: Pds, b: Pds) {
    && b.Keys == a.Keys
    && forall q :: q in a ==>
         && b[q].links == a[q].links && b[q].deleting == a[q].deleting
         && (a[q].toDelete ==> b[q].toDelete && b[q].depth <= a[q].depth)
  }

  ghost predicate SameMarks(a: Pds, b: Pds) {
    b.Keys == a.Keys && forall q :: q in a ==> b[q].toDelete == a[q].toDelete
  }

  ghost function AliveSet(pds: Pds): set<PdId> {
    set q | q in pds && !pds[q].deleting
  }

  ghost function Alive(pds: Pds): nat {
    |AliveSet(pds)|
  }

  lemma EvolveAlive(a: Pds, b: Pds)
    requires PdsEvolve(a, b)
    ensures Alive(b) <= Alive(a)
  {
    SubsetSize(AliveSet(b), AliveSet(a));
  }

  ghost function UndeletedSet(spaces: Spaces): set<SpaceId> {
    set s | s in spaces && !spaces[s].deleting
  }

  ghost function Undeleted(spaces: Spaces): nat {
    |UndeletedSet(spaces)|
  }

  lemma FlagUndeleted(a: Spaces, b: Spaces, s: SpaceId)
    requires s in a && !a[s].deleting && b == a[s := a[s].(deleting := true)]
    ensures Undeleted(b) < Undeleted(a)
  {
    assert s !in UndeletedSet(b) && UndeletedSet(a) == UndeletedSet(b) + {s};
  }

  lemma SameUndeleted(a: Spaces, b: Spaces)
    requires a.Keys == b.Keys && forall x :: x in a ==> a[x].deleting == b[x].deleting
    ensures Undeleted(a) == Undeleted(b)
  {
    assert UndeletedSet(a) == UndeletedSet(b);
  }

  // ----- deleting a space keeps the invariant -----

  function Without(order: seq<SpaceId>, s: SpaceId): (r: seq<SpaceId>)
    ensures forall x :: x in r <==> x in order && x != s
    ensures |r| <= |order|
  {
    if order == [] then []
    else (if order[0] == s then [] else [order[0]]) + Without(order[1..], s)
  }

  lemma {:induction false} WithoutKeepsDistinct(order: seq<SpaceId>, s: SpaceId)
    requires Distinct(order)
    ensures Distinct(Without(order, s))
  {
    if order != [] {
      var tail, rest := order[1..], Without(order[1..], s);
      WithoutKeepsDistinct(tail, s);
      assert order[0] !in tail && order[0] !in rest;
      assert Without(order, s) == if order[0] == s then rest else [order[0]] + rest;
    }
  }

  lemma CleanGrounds(pd: Pd, spaces: Spaces, s: SpaceId, kept: Spaces)
    requires Grounded(pd, spaces) && s in spaces && s != SPACE_ID_NULL && SpaceKind(spaces[s].kind)
    requires kept.Keys == spaces.Keys - {s}
    requires forall x :: x in kept ==> kept[x].kind == spaces[x].kind
    ensures Grounded(Clean(pd, spaces[s].kind, s), kept)
  {
    var kind := spaces[s].kind;
    var c := Clean(pd, kind, s);
    RemoveIsExact(pd.rde[kind], kind, s);
    forall t | 0 <= t < KIND_MAX
      ensures RowOk(c.rde[t], t, kept)
    {
      assert RowOk(pd.rde[t], t, spaces);
    }
  }

  lemma CleanupPdFrame(q: PdId, pd: Pd, s: SpaceId, space: Space, depth: nat, limit: int)
    ensures var c := CleanupPd(q, pd, s, space, depth, limit);
            && c.links == pd.links && c.deleting == pd.deleting
            && (pd.toDelete ==> c == pd) && (q == RT_PD_ID ==> c == pd)
            && c.holds.Keys <= pd.holds.Keys
            && forall r :: r in pd.holds && r.space in CORE_SPACES && s !in CORE_SPACES && r != SpaceRes(s) ==> r in c.holds
  {
  }

  lemma CleanupFrame(pds: Pds, s: SpaceId, space: Space, limit: int)
    requires space.manager in pds
    ensures PdsCleaned(pds, CleanupSpace(pds, s, space, limit))
  {
    forall q | q in pds {
      CleanupPdFrame(q, pds[q], s, space, pds[space.manager].depth, limit);
    }
  }

  lemma CleanupMarksNone(pds: Pds, s: SpaceId, space: Space, limit: int)
    requires space.manager in pds
    ensures !space.policy || limit == 0 ==> SameMarks(pds, CleanupSpace(pds, s, space, limit))
  {
  }

  lemma CleanupPdOk(q: PdId, pd: Pd, spaces: Spaces, s: SpaceId, depth: nat, limit: int, kept: Spaces)
    requires PdOk(pd, spaces) && q != RT_PD_ID
    requires s in spaces && s != SPACE_ID_NULL && SpaceKind(spaces[s].kind)
    requires kept.Keys == spaces.Keys - {s}
    requires forall x :: x in kept ==> kept[x].kind == spaces[x].kind
    ensures PdOk(CleanupPd(q, pd, s, spaces[s], depth, limit), kept)
  {
    var space := spaces[s];
    var released := ReleaseIfManager(q, pd, s, space.manager);
    var marked := if space.policy then MarkDependent(q, released, space.kind, s, depth, limit) else released;
    CleanupPdFrame(q, pd, s, space, depth, limit);
    if !marked.toDelete {
      assert marked.holds.Keys <= pd.holds.Keys && marked.rde == pd.rde;
      assert HoldsOk(marked, spaces) && RdeOk(marked, spaces);
      CleanGrounds(marked, spaces, s, kept);
    }
  }

  lemma DeleteSpaceKeepsInv(pds: Pds, spaces: Spaces, order: seq<SpaceId>, s: SpaceId, pdLimit: int, spaceLimit: int)
    requires Inv(pds, spaces, order) && s in spaces && s !in CORE_SPACES
    ensures Inv(CleanupSpace(pds, s, spaces[s], pdLimit), Kill(spaces, s, spaceLimit), Without(order, s))
  {
    assert SpaceOk(pds, s, spaces[s]);
    var pds', kept := CleanupSpace(pds, s, spaces[s], pdLimit), Kill(spaces, s, spaceLimit);
    KillThins(spaces, s, spaceLimit);
    WithoutKeepsDistinct(order, s);
    var depth := pds[spaces[s].manager].depth;
    forall q | q in pds'
      ensures q != RT_PD_ID ==> PdOk(pds'[q], kept)
      ensures q == RT_PD_ID ==> pds'[q] == pds[q]
    {
      CleanupPdFrame(q, pds[q], s, spaces[s], depth, pdLimit);
      if q != RT_PD_ID {
        CleanupPdOk(q, pds[q], spaces, s, depth, pdLimit, kept);
      }
    }
    forall x | x in kept
      ensures SpaceOk(pds', x, kept[x])
    {
      assert SpaceOk(pds, x, spaces[x]);
      var m := spaces[x].manager;
      CleanupPdFrame(m, pds[m], s, spaces[s], depth, pdLimit);
    }
  }

  // ----- small steps that keep the invariant -----

  /** Replacing one PD is safe unless it lets go of a space it manages that is not due for deletion. */
  lemma ReplacePdKeepsInv(pds: Pds, spaces: Spaces, order: seq<SpaceId>, q: PdId, pd: Pd)
    requires Inv(pds, spaces, order) && q in pds && q != RT_PD_ID
    requires PdOk(pd, spaces)
    requires forall x :: x in spaces && spaces[x].manager == q && SpaceRes(x) in pds[q].holds ==>
                           SpaceRes(x) in pd.holds || spaces[x].toDelete
    ensures Inv(pds[q := pd], spaces, order)
  {
    forall x | x in spaces ensures SpaceOk(pds[q := pd], x, spaces[x]) {
      assert SpaceOk(pds, x, spaces[x]);
    }
  }

  /** The same spaces under the same managers, with more of them marked; component spaces untouched. */
  ghost predicate Remarked(a: Spaces, b: Spaces) {
    && b.Keys == a.Keys
    && forall x :: x in a ==>
         && b[x].kind == a[x].kind && b[x].manager == a[x].manager
         && (a[x].toDelete ==> b[x].toDelete)
         && (x in CORE_SPACES ==> b[x] == a[x])
  }

  lemma RemarkKeepsInv(pds: Pds, a: Spaces, b: Spaces, order: seq<SpaceId>)
    requires Inv(pds, a, order) && Remarked(a, b)
    ensures Inv(pds, b, order)
  {
    forall p | p in pds && p != RT_PD_ID ensures PdOk(pds[p], b) {
      assert PdOk(pds[p], a);
      if !pds[p].toDelete {
        forall t | 0 <= t < KIND_MAX ensures RowOk(pds[p].rde[t], t, b) {
          assert RowOk(pds[p].rde[t], t, a);
        }
      }
    }
    forall x | x in b ensures SpaceOk(pds, x, b[x]) {
      assert SpaceOk(pds, x, a[x]);
    }
  }

  lemma MarkDependentsRemarks(pds: Pds, spaces: Spaces, order: seq<SpaceId>, s: SpaceId, limit: int)
    requires Inv(pds, spaces, order) && s in spaces
    ensures Remarked(spaces, MarkDependents(spaces, s, limit))
  {
    forall x | x in spaces && x in CORE_SPACES ensures spaces[x].maps == [] {
      assert SpaceOk(pds, x, spaces[x]);
    }
  }

  /** Letting go of a hold is safe unless it is the last hold on a managed, unmarked space. */
  lemma ReleaseKeepsInv(pds: Pds, spaces: Spaces, order: seq<SpaceId>, p: PdId, r: ResId, pd: Pd)
    requires Inv(pds, spaces, order) && p in pds && p != RT_PD_ID && r in pds[p].holds
    requires pd == Release(pds[p], r) || pd == Unlink(pds[p], r)
    requires r.kind == KIND_RESSPC && r.obj in spaces && r !in pd.holds ==> spaces[r.obj].toDelete
    ensures Inv(pds[p := pd], spaces, order)
  {
    assert PdOk(pds[p], spaces);
    assert pd.holds.Keys <= pds[p].holds.Keys && pd.rde == pds[p].rde;
    ReplacePdKeepsInv(pds, spaces, order, p, pd);
  }

  lemma MarkPdKeepsInv(pds: Pds, spaces: Spaces, order: seq<SpaceId>, p: PdId, pd: Pd)
    requires Inv(pds, spaces, order) && p in pds && p != RT_PD_ID
    requires pd.toDelete && pd.holds == pds[p].holds && pd.rde == pds[p].rde && (forall x :: x in pd.links ==> x in pds[p].links)
    ensures Inv(pds[p := pd], spaces, order)
  {
    assert PdOk(pds[p], spaces);
    ReplacePdKeepsInv(pds, spaces, order, p, pd);
  }

  lemma DropRdeKeepsInv(pds: Pds, spaces: Spaces, order: seq<SpaceId>, p: PdId, kind: Kind, s: SpaceId)
    requires Inv(pds, spaces, order) && p in pds && p != RT_PD_ID && s != SPACE_ID_NULL
    ensures Inv(pds[p := DropRde(pds[p], kind, s)], spaces, order)
  {
    assert PdOk(pds[p], spaces);
    var pd := DropRde(pds[p], kind, s);
    if !pd.toDelete && kind != KIND_NONE && kind < KIND_MAX {
      assert RowOk(pds[p].rde[kind], kind, spaces);
      RemoveIsExact(pds[p].rde[kind], kind, s);
      forall t | 0 <= t < KIND_MAX ensures RowOk(pd.rde[t], t, spaces) {
        assert RowOk(pds[p].rde[t], t, spaces);
      }
    }
    ReplacePdKeepsInv(pds, spaces, order, p, pd);
  }

  // ----- the stages of deleting a space add up -----

  function ReleaseStage(pds: Pds, s: SpaceId, m: PdId): (r: Pds)
    ensures r.Keys == pds.Keys
  {
    map q | q in pds :: ReleaseIfManager(q, pds[q], s, m)
  }

  function MarkStage(pds: Pds, kind: Kind, s: SpaceId, depth: nat, limit: int): (r: Pds)
    ensures r.Keys == pds.Keys
  {
    map q | q in pds :: MarkDependent(q, pds[q], kind, s, depth, limit)
  }

  function CleanStage(pds: Pds, kind: Kind, s: SpaceId): (r: Pds)
    ensures r.Keys == pds.Keys
  {
    map q | q in pds :: CleanLive(q, pds[q], kind, s)
  }

  lemma ReleaseStageIs(pds: Pds, s: SpaceId, m: PdId)
    requires m in pds
    ensures ReleaseStage(pds, s, m) == if Exempt(m, pds[m]) then pds else pds[m := Release(pds[m], SpaceRes(s))]
  {
    hide Release;
  }

  lemma CleanupByStages(pds: Pds, s: SpaceId, space: Space, limit: int)
    requires space.manager in pds
    ensures var released := ReleaseStage(pds, s, space.manager);
            var marked := if space.policy
                          then MarkStage(released, space.kind, s, pds[space.manager].depth, limit)
                          else released;
            CleanStage(marked, space.kind, s) == CleanupSpace(pds, s, space, limit)
  {
    hide CleanLive, MarkDependent, ReleaseIfManager;
  }

  /** The registry once space `s` is flagged and its cleanup policy has run. */
  function Staged(spaces: Spaces, s: SpaceId, limit: int): (r: Spaces)
    requires s in spaces
    ensures r.Keys == spaces.Keys
  {
    var flagged := spaces[s := spaces[s].(deleting := true)];
    if spaces[s].policy then MarkDependents(flagged, s, limit) else flagged
  }

  lemma StagedKeepsInv(pds: Pds, spaces: Spaces, order: seq<SpaceId>, s: SpaceId, limit: int)
    requires Inv(pds, spaces, order) && s in spaces && s !in CORE_SPACES && !spaces[s].deleting
    ensures Inv(pds, Staged(spaces, s, limit), order)
    ensures Undeleted(Staged(spaces, s, limit)) < Undeleted(spaces)
  {
    var flagged := spaces[s := spaces[s].(deleting := true)];
    RemarkKeepsInv(pds, spaces, flagged, order);
    FlagUndeleted(spaces, flagged, s);
    if spaces[s].policy {
      MarkDependentsRemarks(pds, flagged, order, s, limit);
      RemarkKeepsInv(pds, flagged, MarkDependents(flagged, s, limit), order);
      SameUndeleted(flagged, MarkDependents(flagged, s, limit));
    }
  }

  lemma StagesAddUp(pds: Pds, spaces: Spaces, s: SpaceId, limit: int, pdLimit: int, last: Spaces)
    requires s in spaces && spaces[s].manager in pds
    requires s in last && last == Staged(spaces, s, limit)[s := last[s]]
    ensures last - {s} == Kill(spaces, s, limit)
    ensures CleanupSpace(pds, s, Staged(spaces, s, limit)[s], pdLimit) == CleanupSpace(pds, s, spaces[s], pdLimit)
    ensures Staged(spaces, s, limit)[s].dontNotify == spaces[s].dontNotify
    ensures Staged(spaces, s, limit)[s].kind == spaces[s].kind
    ensures Staged(spaces, s, limit)[s].manager == spaces[s].manager
  {
    hide CleanLive;
    hide MarkDependent;
    assert last - {s} == Kill(spaces, s, limit);
  }

  /** What deleting space `s` does to the registries, and that each stage keeps the invariant. */
  lemma DeletionOutcome(pds: Pds, spaces: Spaces, order: seq<SpaceId>, s: SpaceId, pdLimit: int, spaceLimit: int,
                        pds0: Pds, pds1: Pds, spaces1: Spaces)
    requires Inv(pds, spaces, order) && NoneDeleting(spaces) && s in spaces && s !in CORE_SPACES
    requires RT_PD_ID in pds && pds0 == UnlinkFromRoot(pds, SpaceRes(s))
    requires spaces[s].manager in pds0 && pds1 == CleanupSpace(pds0, s, spaces[s], pdLimit)
    requires spaces1 == Kill(spaces, s, spaceLimit)
    ensures Inv(pds0, Staged(spaces, s, spaceLimit), order)
    ensures Undeleted(Staged(spaces, s, spaceLimit)) < Undeleted(spaces)
    ensures Inv(pds1, spaces1, Without(order, s))
    ensures NoneDeleting(spaces1) && Thinned(spaces, spaces1)
    ensures PdsCleaned(pds, pds1)
    ensures !spaces[s].policy || pdLimit == 0 ==> SameMarks(pds, pds1)
  {
    assert SpaceOk(pds, s, spaces[s]);
    hide *;
    RootUnlinkKeepsInv(pds, spaces, order, s);
    DeleteSpaceKeepsInv(pds0, spaces, order, s, pdLimit, spaceLimit);
    StagedKeepsInv(pds0, spaces, order, s, spaceLimit);
    KillLeavesNoneDeleting(spaces, s, spaceLimit);
    CleanupFrame(pds0, s, spaces[s], pdLimit);
    CleanedAfterRootUnlink(pds, SpaceRes(s), pds1);
    CleanupMarksNone(pds0, s, spaces[s], pdLimit);
  }

  lemma KillLeavesNoneDeleting(spaces: Spaces, s: SpaceId, limit: int)
    requires NoneDeleting(spaces) && s in spaces
    ensures NoneDeleting(Kill(spaces, s, limit)) && Thinned(spaces, Kill(spaces, s, limit))
  {
    KillThins(spaces, s, limit);
  }

  lemma CleanedAfterRootUnlink(pds: Pds, r: ResId, pds1: Pds)
    requires RT_PD_ID in pds && !pds[RT_PD_ID].toDelete
    requires PdsCleaned(UnlinkFromRoot(pds, r), pds1)
    ensures PdsCleaned(pds, pds1)
    ensures SameMarks(UnlinkFromRoot(pds, r), pds1) ==> SameMarks(pds, pds1)
  {
  }

  lemma RootUnlinkKeepsInv(pds: Pds, spaces: Spaces, order: seq<SpaceId>, s: SpaceId)
    requires Inv(pds, spaces, order) && s in spaces
    ensures RT_PD_ID in pds && !pds[RT_PD_ID].toDelete && spaces[s].manager in pds
    ensures Inv(UnlinkFromRoot(pds, SpaceRes(s)), spaces, order)
    ensures 0 < s < SPACE_ID_NULL
  {
    var pds0 := UnlinkFromRoot(pds, SpaceRes(s));
    forall x | x in spaces ensures SpaceOk(pds0, x, spaces[x]) && spaces[x].manager in pds {
      assert SpaceOk(pds, x, spaces[x]);
    }
  }

  // ----- relations that a whole destruction keeps -----

  /** No PD is left waiting to be destroyed. */
  ghost predicate Settled(pds: Pds) {
    forall q :: q in pds && pds[q].toDelete ==> pds[q].deleting
  }

  ghost predicate SpacesFewer(a: Spaces, b: Spaces) {
    b.Keys <= a.Keys && forall x :: x in b ==> b[x].manager == a[x].manager && b[x].kind == a[x].kind && (a[x].toDelete ==> b[x].toDelete)
  }

  ghost predicate Unmanaged(spaces: Spaces, p: PdId) {
    forall s :: s in spaces ==> spaces[s].manager != p
  }

  /** `victims` lists, without repetition, exactly the PDs registered before but not after. */
  ghost predicate Victims(before: Pds, after: Pds, victims: seq<PdId>) {
    Distinct(victims) && forall x :: x in victims <==> x in before && x !in after
  }

  function Flagged(pds: Pds, p: PdId): (r: Pds)
    requires p in pds
    ensures r.Keys == pds.Keys
  {
    pds[p := pds[p].(toDelete := true, deleting := true)]
  }

  lemma FlagShrinksAlive(pds: Pds, p: PdId)
    requires p in pds && !pds[p].deleting
    ensures Alive(Flagged(pds, p)) < Alive(pds)
  {
    var rest := AliveSet(Flagged(pds, p));
    assert p !in rest && AliveSet(pds) == rest + {p};
  }

  lemma EvolveTrans(a: Pds, b: Pds, c: Pds)
    requires PdsEvolve(a, b) && PdsEvolve(b, c)
    ensures PdsEvolve(a, c)
  {
  }

  lemma KeptEvolves(a: Pds, b: Pds)
    requires PdsKept(a, b)
    ensures PdsEvolve(a, b)
    ensures Settled(a) && SameMarks(a, b) ==> Settled(b)
  {
  }

  lemma CleanedKept(a: Pds, b: Pds)
    requires PdsCleaned(a, b)
    ensures PdsKept(a, b)
  {
  }

  lemma KeptTrans(a: Pds, b: Pds, c: Pds)
    requires PdsKept(a, b) && PdsKept(b, c)
    ensures PdsKept(a, c)
    ensures SameMarks(a, b) && SameMarks(b, c) ==> SameMarks(a, c)
  {
  }

  lemma CleanedTrans(a: Pds, b: Pds, c: Pds)
    requires PdsCleaned(a, b) && PdsCleaned(b, c)
    ensures PdsCleaned(a, c)
    ensures SameMarks(a, b) && SameMarks(b, c) ==> SameMarks(a, c)
  {
  }

  lemma VictimsChain(a: Pds, b: Pds, c: Pds, v: seq<PdId>, w: seq<PdId>)
    requires PdsEvolve(a, b) && PdsEvolve(b, c)
    requires Victims(a, b, v) && Victims(b, c, w)
    ensures Victims(a, c, v + w)
  {
    forall i, j | 0 <= i < j < |v + w| ensures (v + w)[i] != (v + w)[j] {
      if i < |v| <= j {
        assert v[i] in v && w[j - |v|] in w;
      }
    }
  }

  /** Once a PD holds nothing, every space it manages is marked. */
  lemma EmptyHandedManager(pds: Pds, spaces: Spaces, order: seq<SpaceId>, p: PdId)
    requires Inv(pds, spaces, order) && p in pds && p != RT_PD_ID && pds[p].holds == map[]
    ensures forall s :: s in spaces && spaces[s].manager == p ==> spaces[s].toDelete
  {
    forall s | s in spaces && spaces[s].manager == p ensures spaces[s].toDelete {
      assert SpaceOk(pds, s, spaces[s]);
    }
  }

  lemma RemovePdKeepsInv(pds: Pds, spaces: Spaces, order: seq<SpaceId>, p: PdId)
    requires Inv(pds, spaces, order) && p in pds && p != RT_PD_ID && Unmanaged(spaces, p)
    ensures Inv(pds - {p}, spaces, order)
  {
    forall x | x in spaces ensures SpaceOk(pds - {p}, x, spaces[x]) {
      assert SpaceOk(pds, x, spaces[x]);
    }
  }

  lemma RemovePdEvolves(pds: Pds, p: PdId, b: Pds)
    requires p in pds && !pds[p].deleting && PdsEvolve(Flagged(pds, p), b) && p in b && b[p].links == []
    ensures PdsEvolve(pds, b - {p})
  {
  }

  lemma SweepableIsNotCore(pds: Pds, spaces: Spaces, order: seq<SpaceId>, s: SpaceId)
    requires Inv(pds, spaces, order) && s in spaces && spaces[s].toDelete
    ensures s !in CORE_SPACES
  {
    assert SpaceOk(pds, s, spaces[s]);
  }

  lemma LinkTargetIsNotRoot(pds: Pds, spaces: Spaces, order: seq<SpaceId>, p: PdId, c: PdId)
    requires Inv(pds, spaces, order) && p in pds && p != RT_PD_ID && c in pds[p].links
    ensures c != RT_PD_ID
  {
    assert PdOk(pds[p], spaces);
  }
}
