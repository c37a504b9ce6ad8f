/**
 * The VMR spaces of ADSs.  The root task manages them; a VMR space goes when the last reference
 * to its ADS is dropped, and if its cleanup policy is on at that moment, it takes PDs with it.
 */
module VmrSpaces {
  import opened Resources
  import opened RequestDirectory
  import opened SpaceGraph
  import opened ProtectionDomains

  /** Not due for deletion, and mapped to nothing that a sweep can delete. */
  predicate Unharmed(space: Space) {
    !space.toDelete && !space.policy && forall t :: t in space.maps ==> t in CORE_SPACES
  }

  /** `homes` are VMR spaces of ADSs that no PD other than the root task holds as a space. */
  ghost predicate HomesOk(pds: Pds, spaces: Spaces, homes: set<SpaceId>) {
    && (forall a :: a in homes ==> a in spaces && a !in CORE_SPACES && Unharmed(spaces[a]))
    && (forall p, r :: p in pds && p != RT_PD_ID && r in pds[p].holds && r.kind == KIND_RESSPC ==> r.obj !in homes)
  }

  /** No PD, other than the root task, gains a hold. */
  ghost predicate HoldsShrink(pds: Pds, next: Pds) {
    forall p :: p in next && p != RT_PD_ID ==> p in pds && next[p].holds.Keys <= pds[p].holds.Keys
  }

  lemma HomesAfterPds(pds: Pds, next: Pds, spaces: Spaces, homes: set<SpaceId>)
    requires HomesOk(pds, spaces, homes) && HoldsShrink(pds, next)
    ensures HomesOk(next, spaces, homes)
  {
  }

  lemma HomesAfterPd(pds: Pds, spaces: Spaces, homes: set<SpaceId>, p: PdId, pd: Pd)
    requires HomesOk(pds, spaces, homes) && p in pds && pd.holds.Keys <= pds[p].holds.Keys
    ensures HomesOk(pds[p := pd], spaces, homes)
  {
  }

  lemma HomesAfterGain(pds: Pds, spaces: Spaces, homes: set<SpaceId>, p: PdId, r: ResId)
    requires HomesOk(pds, spaces, homes) && p in pds
    requires p != RT_PD_ID && r.kind == KIND_RESSPC ==> r.obj !in homes
    ensures HomesOk(pds[p := Acquire(pds[p], r)], spaces, homes)
  {
  }

  lemma HeldIsNoHome(pds: Pds, spaces: Spaces, homes: set<SpaceId>, p: PdId, r: ResId)
    requires HomesOk(pds, spaces, homes) && p in pds && p != RT_PD_ID && r in pds[p].holds
    ensures r.kind == KIND_RESSPC ==> r.obj !in homes
  {
  }

  lemma HomesAfterSpace(pds: Pds, spaces: Spaces, homes: set<SpaceId>, s: SpaceId, space: Space)
    requires HomesOk(pds, spaces, homes) && s !in homes
    ensures HomesOk(pds, spaces[s := space], homes)
  {
  }

  /** Deleting another space, with or without its policy, spares every home. */
  lemma HomesAfterMarking(pds: Pds, spaces: Spaces, homes: set<SpaceId>, s: SpaceId, limit: int)
    requires HomesOk(pds, spaces, homes) && s in spaces && s !in CORE_SPACES
    ensures HomesOk(pds, MarkDependents(spaces, s, limit), homes)
  {
    forall a | a in homes ensures MarkDependents(spaces, s, limit)[a] == spaces[a] {
      assert s in spaces[a].maps ==> s in CORE_SPACES;
    }
  }

  lemma HomesAfterRemoval(pds: Pds, spaces: Spaces, homes: set<SpaceId>, s: SpaceId)
    requires HomesOk(pds, spaces, homes) && s !in homes
    ensures HomesOk(pds, spaces - {s}, homes)
  {
  }

  lemma FewerHomes(pds: Pds, spaces: Spaces, homes: set<SpaceId>, fewer: set<SpaceId>)
    requires HomesOk(pds, spaces, homes) && fewer <= homes
    ensures HomesOk(pds, spaces, fewer)
  {
  }

  lemma MarkedIsNoHome(pds: Pds, spaces: Spaces, homes: set<SpaceId>, s: SpaceId)
    requires HomesOk(pds, spaces, homes) && s in spaces && (spaces[s].toDelete || spaces[s].policy)
    ensures s !in homes
  {
  }

  // ----- when losing a space marks PDs -----

  /** Deleting space `s` marks some live PD: its policy is on, and a PD within the depth depends on it. */
  predicate LossMarks(pds: Pds, spaces: Spaces, s: SpaceId, limit: int) {
    s in spaces && spaces[s].policy && spaces[s].manager in pds && WithinDepth(pds[spaces[s].manager].depth, limit) &&
    exists q :: q in pds && !Exempt(q, pds[q]) && Depends(pds[q], spaces[s].kind, s)
  }

  /** Deleting a space marks further PDs exactly if its policy is on and some live PD within the depth depends on it. */
  lemma CleanupMarksIff(pds: Pds, s: SpaceId, spaces: Spaces, limit: int)
    requires RT_PD_ID in pds && s in spaces && s !in CORE_SPACES && spaces[s].manager in pds
    requires !pds[RT_PD_ID].toDelete
    ensures SameMarks(pds, CleanupSpace(UnlinkFromRoot(pds, SpaceRes(s)), s, spaces[s], limit)) <==>
            !LossMarks(pds, spaces, s, limit)
  {
    var start := UnlinkFromRoot(pds, SpaceRes(s));
    var after := CleanupSpace(start, s, spaces[s], limit);
    forall q | q in pds
      ensures after[q].toDelete <==>
              pds[q].toDelete ||
              (spaces[s].policy && WithinDepth(pds[spaces[s].manager].depth, limit) && q != RT_PD_ID &&
               Depends(pds[q], spaces[s].kind, s))
    {
      ReleasedDepends(q, start[q], s, spaces[s].manager, spaces[s].kind);
    }
  }

  lemma ReleasedDepends(q: PdId, pd: Pd, s: SpaceId, m: PdId, kind: Kind)
    requires s !in CORE_SPACES
    ensures Depends(ReleaseIfManager(q, pd, s, m), kind, s) <==> Depends(pd, kind, s)
    ensures ReleaseIfManager(q, pd, s, m).toDelete == pd.toDelete
  {
    var released := ReleaseIfManager(q, pd, s, m);
    assert forall r :: r in pd.holds && r.space == s ==> r in released.holds;
  }

  lemma NoLossFromHome(pds: Pds, spaces: Spaces, homes: set<SpaceId>, s: SpaceId, limit: int)
    requires HomesOk(pds, spaces, homes) && s in homes
    ensures !LossMarks(pds, spaces, s, limit)
  {
  }
}
