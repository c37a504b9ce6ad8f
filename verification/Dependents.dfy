/**
 * Which PDs go because a space goes.  Deleting a space with its cleanup policy on takes every live PD
 * that uses the space, within the depth; a whole destruction takes no PD without such a reason.
 */
module Dependents {
  import opened Common
  import opened Resources
  import opened RequestDirectory
  import opened SpaceGraph
  import opened ProtectionDomains
  import opened PdLinks
  import opened Notices

  /** The PD holds a resource of space `s`, or has a request edge for it. */
  predicate Uses(pd: Pd, kind: Kind, s: SpaceId) {
    || (exists r :: r in pd.holds && r.space == s)
    || (kind < |pd.rde| && exists i :: 0 <= i < |pd.rde[kind]| && pd.rde[kind][i].space == s)
  }

  /**
   * Deleting a space marks a live PD exactly if the policy is on, the depth allows it, and the PD holds a
   * resource of the space or has a slot for it in the row of its type.  The PD is then one level deeper
   * than the manager.
   */
  lemma PolicyTakes(pds: Pds, s: SpaceId, space: Space, limit: int, q: PdId)
    requires space.manager in pds && q in pds && q != RT_PD_ID && !pds[q].toDelete
    requires s !in CORE_SPACES && s != SPACE_ID_NULL
    ensures var pd, after := pds[q], CleanupSpace(pds, s, space, limit)[q];
            && (after.toDelete <==>
                  space.policy && (limit == -1 || pds[space.manager].depth + 1 <= limit) &&
                  ((exists r :: r in pd.holds && r.space == s) ||
                   (space.kind < |pd.rde| && exists i :: 0 <= i < |pd.rde[space.kind]| && pd.rde[space.kind][i].space == s)))
            && (after.toDelete ==> after.depth == pds[space.manager].depth + 1)
  {
    var pd := pds[q];
    var released := ReleaseIfManager(q, pd, s, space.manager);
    assert forall r :: r in pd.holds && r.space == s ==> r in released.holds;
    assert forall r :: r in released.holds && r.space == s ==> r in pd.holds;
    if space.kind < |pd.rde| {
      assert forall i :: 0 <= i < |pd.rde[space.kind]| ==>
        (LookupHit(pd.rde[space.kind][i], space.kind, s) <==> pd.rde[space.kind][i].space == s);
    }
  }

  /**
   * What deleting a space does to a PD.  The root task and PDs that are marked already are left alone.  A PD
   * that is marked now keeps its entries and holds, but a manager gives up one reference to the space.  Any other PD
   * also loses what it holds in the space, and the entry for it in the row of its type.
   */
  lemma CleanupIs(pds: Pds, s: SpaceId, space: Space, limit: int, q: PdId)
    requires space.manager in pds && q in pds && s !in CORE_SPACES && s != SPACE_ID_NULL
    ensures var pd, after := pds[q], CleanupSpace(pds, s, space, limit)[q];
            && (q == RT_PD_ID || pd.toDelete ==> after == pd)
            && (q != RT_PD_ID && !pd.toDelete ==>
                  var left := if q == space.manager && Refs(pd, SpaceRes(s)) > 0 then Refs(pd, SpaceRes(s)) - 1 else Refs(pd, SpaceRes(s));
                  && after.links == pd.links && after.deleting == pd.deleting && Refs(after, SpaceRes(s)) == left
                  && (forall r :: r != SpaceRes(s) ==> Refs(after, r) == if r.space == s && !after.toDelete then 0 else Refs(pd, r))
                  && (after.toDelete ==> after.rde == pd.rde) && (!after.toDelete ==> after.depth == pd.depth)
                  && (!after.toDelete ==> |after.rde| == |pd.rde| && forall t :: 0 <= t < |pd.rde| && t != space.kind ==> after.rde[t] == pd.rde[t])
                  && (!after.toDelete && KIND_NONE != space.kind < |pd.rde| && RowOf(pd.rde[space.kind], space.kind) &&
                      UniqueEntries(pd.rde[space.kind]) ==>
                        forall k: Kind, x: SpaceId :: k != KIND_NONE ==>
                          (Lists(after.rde[space.kind], k, x) <==> Lists(pd.rde[space.kind], k, x) && (k != space.kind || x != s))))
  {
    hide Release, DropHolds, DropRde, CleanupPd, Counts, RowOf, UniqueEntries, Lists;
    var pd := pds[q];
    CleanedFields(q, pd, s, space, pds[space.manager].depth, limit);
    if q != RT_PD_ID && !pd.toDelete {
      var left := if q == space.manager then Release(pd, SpaceRes(s)) else pd;
      LeftRefs(pd, q == space.manager, s);
      DroppedRows(pd, space.kind, s);
      var after := CleanupSpace(pds, s, space, limit)[q];
      assert after.toDelete ==> forall r :: Refs(after, r) == Refs(left, r);
      assert !after.toDelete ==> forall r :: Refs(after, r) == Refs(DropHolds(left, s), r);
    }
  }

  lemma CleanedFields(q: PdId, pd: Pd, s: SpaceId, space: Space, depth: nat, limit: int)
    ensures var left, after := if q == space.manager then Release(pd, SpaceRes(s)) else pd, CleanupPd(q, pd, s, space, depth, limit);
            after == if q == RT_PD_ID || pd.toDelete then pd
                     else if after.toDelete then pd.(holds := left.holds, toDelete := true, depth := depth + 1)
                     else pd.(holds := DropHolds(left, s).holds, rde := DropRde(pd, space.kind, s).rde)
  {
    hide Depends, Remove;
  }

  lemma LeftRefs(pd: Pd, manager: bool, s: SpaceId)
    requires s !in CORE_SPACES
    ensures var left, n := if manager then Release(pd, SpaceRes(s)) else pd, Refs(pd, SpaceRes(s));
            && Refs(left, SpaceRes(s)) == Refs(DropHolds(left, s), SpaceRes(s)) == (if manager && n > 0 then n - 1 else n)
            && forall r :: r != SpaceRes(s) ==> Refs(left, r) == Refs(pd, r) && Refs(DropHolds(left, s), r) == if r.space == s then 0 else Refs(pd, r)
  {
    ReleaseCounts(pd, SpaceRes(s));
    hide Release;
  }

  lemma DroppedRows(pd: Pd, kind: Kind, s: SpaceId)
    requires s != SPACE_ID_NULL
    ensures var rde := DropRde(pd, kind, s).rde;
            && |rde| == |pd.rde| && (forall t :: 0 <= t < |pd.rde| && t != kind ==> rde[t] == pd.rde[t])
            && (KIND_NONE != kind < |pd.rde| && RowOf(pd.rde[kind], kind) && UniqueEntries(pd.rde[kind]) ==>
                  forall k: Kind, x: SpaceId :: k != KIND_NONE ==>
                    (Lists(rde[kind], k, x) <==> Lists(pd.rde[kind], k, x) && (k != kind || x != s)))
  {
    hide RowOf, UniqueEntries, Lists, Remove;
    if KIND_NONE != kind < |pd.rde| && RowOf(pd.rde[kind], kind) && UniqueEntries(pd.rde[kind]) {
      RemoveIsExact(pd.rde[kind], kind, s);
    }
  }

  // ----- what a whole destruction does -----

  /** The registries at some point. */
  datatype Snap = Snap(pds: Pds, spaces: Spaces, adss: set<SpaceId>)

  ghost predicate Regular(a: Snap) {
    && CORE_SPACES <= a.spaces.Keys && SPACE_ID_NULL !in a.spaces
    && forall s :: s in a.spaces ==> a.spaces[s].manager in a.pds
  }

  /** Every space that is marked has its cleanup policy on. */
  ghost predicate PolicyOn(spaces: Spaces) {
    forall s :: s in spaces && spaces[s].toDelete ==> spaces[s].policy
  }

  /**
   * Space `s` takes its users along: no ADS has its ID, and PD cleanup is unbounded or its manager, which
   * is being destroyed, is within the depth.
   */
  ghost predicate Charged(a: Snap, s: SpaceId, limit: int) {
    s in a.spaces && s !in a.adss &&
    (limit == UNBOUNDED ||
     (a.spaces[s].manager in a.pds && a.pds[a.spaces[s].manager].toDelete && a.pds[a.spaces[s].manager].depth + 1 <= limit))
  }

  ghost predicate Gone(b: Snap, q: PdId) {
    q !in b.pds || b.pds[q].toDelete
  }

  /** Whoever used a charged space that is gone is gone or marked. */
  ghost predicate UsersGo(a: Snap, b: Snap, limit: int) {
    forall s, q :: Charged(a, s, limit) && s !in b.spaces && q in a.pds && q != RT_PD_ID && Uses(a.pds[q], a.spaces[s].kind, s) ==>
                     Gone(b, q)
  }

  /** A PD that is gone or marked was linked from such a PD or used a space that is gone. */
  ghost predicate HasReason(a: Snap, b: Snap, q: PdId)
    requires q in a.pds
  {
    || (exists v :: Step(a.pds, v, q) && Gone(b, v))
    || (exists s :: s in a.spaces && s !in b.spaces && Uses(a.pds[q], a.spaces[s].kind, s))
  }

  ghost predicate Justified(a: Snap, b: Snap) {
    forall q :: q in a.pds && !a.pds[q].toDelete && Gone(b, q) ==> HasReason(a, b, q)
  }

  ghost predicate PdLed(a: Pd, b: Pd, spaces: Spaces) {
    && (a.toDelete ==> b.toDelete && b.depth <= a.depth)
    && (b.links == a.links || b.links == [])
    && (b.toDelete || HoldsOfStay(a, b, spaces))
  }

  /** Some part of a destruction leads from `a` to `b`. */
  ghost predicate Led(a: Snap, b: Snap, limit: int) {
    Ledge(a, b) && UsersGo(a, b, limit) && Justified(a, b)
  }

  lemma UsesStays(a: Pd, b: Pd, kind: Kind, s: SpaceId, spaces: Spaces)
    requires HoldsOfStay(a, b, spaces) && s in spaces && s !in CORE_SPACES && Uses(a, kind, s)
    ensures Uses(b, kind, s)
  {
    if r :| r in a.holds && r.space == s {
      assert Lasting(spaces, r);
    } else {
      var i :| 0 <= i < |a.rde[kind]| && a.rde[kind][i].space == s;
      assert RowStays(a.rde[kind], b.rde[kind], spaces);
      assert b.rde[kind][i] == a.rde[kind][i];
    }
  }

  lemma UsesShrinks(a: Pd, b: Pd, kind: Kind, s: SpaceId, spaces: Spaces)
    requires HoldsOfStay(a, b, spaces) && s != SPACE_ID_NULL && Uses(b, kind, s)
    ensures Uses(a, kind, s)
  {
    if r :| r in b.holds && r.space == s {
      assert r in a.holds;
    } else {
      var i :| 0 <= i < |b.rde[kind]| && b.rde[kind][i].space == s;
      assert RowStays(a.rde[kind], b.rde[kind], spaces);
      assert b.rde[kind][i] == a.rde[kind][i];
    }
  }

  lemma GoneStays(b: Snap, c: Snap, q: PdId)
    requires Ledge(b, c) && Gone(b, q)
    ensures Gone(c, q)
  {
    hide HoldsOfStay;
  }

  /** What holds from one snapshot to the next, besides what becomes of the users of a space. */
  ghost predicate Ledge(a: Snap, b: Snap) {
    && b.pds.Keys <= a.pds.Keys && SpacesFewer(a.spaces, b.spaces) && b.adss <= a.adss
    && forall q :: q in b.pds ==> PdLed(a.pds[q], b.pds[q], b.spaces)
  }

  lemma ChargedStays(a: Snap, b: Snap, s: SpaceId, limit: int)
    requires Charged(a, s, limit) && s in b.spaces && Regular(b) && Ledge(a, b)
    ensures Charged(b, s, limit)
  {
    hide HoldsOfStay;
    assert b.spaces[s].manager in b.pds;
    assert PdLed(a.pds[b.spaces[s].manager], b.pds[b.spaces[s].manager], b.spaces);
  }

  /** A user of a charged space that is there in the middle is still a user then. */
  lemma StillUser(a: Snap, b: Snap, s: SpaceId, q: PdId, limit: int)
    requires Ledge(a, b) && Regular(b) && Charged(a, s, limit) && s in b.spaces && s !in CORE_SPACES
    requires q in a.pds && !Gone(b, q) && Uses(a.pds[q], a.spaces[s].kind, s)
    ensures q in b.pds && Charged(b, s, limit) && Uses(b.pds[q], b.spaces[s].kind, s)
  {
    ChargedStays(a, b, s, limit);
    assert PdLed(a.pds[q], b.pds[q], b.spaces);
    UsesStays(a.pds[q], b.pds[q], a.spaces[s].kind, s, b.spaces);
  }

  lemma UsersGoTogether(a: Snap, b: Snap, c: Snap, limit: int)
    requires Ledge(a, b) && Ledge(b, c) && UsersGo(a, b, limit) && UsersGo(b, c, limit) && Regular(b) && Regular(c)
    ensures UsersGo(a, c, limit)
  {
    forall s, q | Charged(a, s, limit) && s !in c.spaces && q in a.pds && q != RT_PD_ID && Uses(a.pds[q], a.spaces[s].kind, s)
      ensures Gone(c, q)
    {
      UserGoes(a, b, c, s, q, limit);
    }
  }

  lemma UserGoes(a: Snap, b: Snap, c: Snap, s: SpaceId, q: PdId, limit: int)
    requires Ledge(a, b) && Ledge(b, c) && UsersGo(a, b, limit) && UsersGo(b, c, limit) && Regular(b) && Regular(c)
    requires Charged(a, s, limit) && s !in c.spaces && q in a.pds && q != RT_PD_ID && Uses(a.pds[q], a.spaces[s].kind, s)
    ensures Gone(c, q)
  {
    assert s !in CORE_SPACES;
    hide Charged, Uses, Regular, Ledge;
    if s in b.spaces && !Gone(b, q) {
      StillUser(a, b, s, q, limit);
    } else {
      GoneStays(b, c, q);
    }
  }

  lemma JustifiedTogether(a: Snap, b: Snap, c: Snap)
    requires Ledge(a, b) && Ledge(b, c) && Justified(a, b) && Justified(b, c) && Regular(b)
    ensures Justified(a, c)
  {
    hide HoldsOfStay, Charged, Uses, UsersGo;
    forall q | q in a.pds && !a.pds[q].toDelete && Gone(c, q) ensures HasReason(a, c, q) {
      if Gone(b, q) {
        if v :| Step(a.pds, v, q) && Gone(b, v) {
          GoneStays(b, c, v);
        }
      } else {
        assert PdLed(a.pds[q], b.pds[q], b.spaces) && HasReason(b, c, q);
        if v :| Step(b.pds, v, q) && Gone(c, v) {
          assert PdLed(a.pds[v], b.pds[v], b.spaces);
          assert Step(a.pds, v, q);
        } else {
          var s :| s in b.spaces && s !in c.spaces && Uses(b.pds[q], b.spaces[s].kind, s);
          UsesShrinks(a.pds[q], b.pds[q], a.spaces[s].kind, s, b.spaces);
        }
      }
    }
  }

  lemma PdLedTogether(a: Pd, b: Pd, c: Pd, s1: Spaces, s2: Spaces)
    requires PdLed(a, b, s1) && PdLed(b, c, s2) && SpacesFewer(s1, s2)
    ensures PdLed(a, c, s2)
  {
    if !c.toDelete {
      StayOfTrans(a, b, c, s1, s2);
    }
  }

  lemma LedgeTogether(a: Snap, b: Snap, c: Snap)
    requires Ledge(a, b) && Ledge(b, c)
    ensures Ledge(a, c)
  {
    hide PdLed;
    forall q | q in c.pds ensures PdLed(a.pds[q], c.pds[q], c.spaces) {
      PdLedTogether(a.pds[q], b.pds[q], c.pds[q], b.spaces, c.spaces);
    }
  }

  /** One part of a destruction after another. */
  lemma LedTogether(a: Snap, b: Snap, c: Snap, limit: int)
    requires Led(a, b, limit) && Led(b, c, limit) && Regular(b) && Regular(c)
    ensures Led(a, c, limit)
  {
    hide UsersGo, Justified, Ledge, Regular;
    LedgeTogether(a, b, c);
    UsersGoTogether(a, b, c, limit);
    JustifiedTogether(a, b, c);
  }

  // ----- single steps -----

  /** A step after which every PD and space is still there, and no further PD is marked. */
  lemma QuietStep(a: Snap, b: Snap, limit: int)
    requires Ledge(a, b) && b.pds.Keys == a.pds.Keys && b.spaces.Keys == a.spaces.Keys
    requires forall q :: q in b.pds && b.pds[q].toDelete ==> a.pds[q].toDelete
    ensures Led(a, b, limit)
  {
    hide PdLed;
  }

  lemma SameHoldsLed(a: Pd, b: Pd, spaces: Spaces)
    requires b.holds == a.holds && b.rde == a.rde
    ensures HoldsOfStay(a, b, spaces)
  {
  }

  /** A space is deleted, with its policy on or because an ADS with its ID dies. */
  lemma SpaceDeleted(a: Snap, s: SpaceId, limit: int, spaceLimit: int, adss: set<SpaceId>, b: Snap)
    requires Regular(a) && RT_PD_ID in a.pds && !a.pds[RT_PD_ID].toDelete && s in a.spaces && s !in CORE_SPACES
    requires adss <= a.adss && (a.spaces[s].policy || s in a.adss)
    requires b == Snap(CleanupSpace(UnlinkFromRoot(a.pds, SpaceRes(s)), s, a.spaces[s], limit), Kill(a.spaces, s, spaceLimit), adss)
    ensures Led(a, b, limit)
  {
    UsersTaken(a, s, limit, b);
    hide UsersGo, Justified, CleanupSpace, Kill, HoldsStay, Ledge, UnlinkFromRoot, Regular;
    assert a.spaces[s].manager in a.pds && s != SPACE_ID_NULL by {
      RegularAt(a, s);
    }
    CleanupStays(a.pds, s, a.spaces[s], limit, b.spaces);
    CleanedFromRoot(a.pds, s, a.spaces[s], limit);
    KillFewer(a.spaces, s, spaceLimit);
    CleanedLedge(a, b);
  }

  lemma RegularAt(a: Snap, s: SpaceId)
    requires Regular(a) && s in a.spaces
    ensures a.spaces[s].manager in a.pds && s != SPACE_ID_NULL
  {
  }

  lemma CleanedFromRoot(pds: Pds, s: SpaceId, space: Space, limit: int)
    requires RT_PD_ID in pds && !pds[RT_PD_ID].toDelete && space.manager in pds
    ensures PdsCleaned(pds, CleanupSpace(UnlinkFromRoot(pds, SpaceRes(s)), s, space, limit))
  {
    CleanupFrame(UnlinkFromRoot(pds, SpaceRes(s)), s, space, limit);
    hide CleanupSpace;
    CleanedAfterRootUnlink(pds, SpaceRes(s), CleanupSpace(UnlinkFromRoot(pds, SpaceRes(s)), s, space, limit));
  }

  lemma KillFewer(spaces: Spaces, s: SpaceId, limit: int)
    requires s in spaces
    ensures SpacesFewer(spaces, Kill(spaces, s, limit))
  {
    KillThins(spaces, s, limit);
  }

  lemma CleanedLedge(a: Snap, b: Snap)
    requires PdsCleaned(a.pds, b.pds) && HoldsStay(a.pds, b.pds, b.spaces) && SpacesFewer(a.spaces, b.spaces) && b.adss <= a.adss
    ensures Ledge(a, b)
  {
    hide HoldsOfStay;
  }

  lemma UsersTaken(a: Snap, s: SpaceId, limit: int, b: Snap)
    requires Regular(a) && RT_PD_ID in a.pds && !a.pds[RT_PD_ID].toDelete && s in a.spaces && s !in CORE_SPACES
    requires a.spaces[s].policy || s in a.adss
    requires b.pds == CleanupSpace(UnlinkFromRoot(a.pds, SpaceRes(s)), s, a.spaces[s], limit) && b.spaces.Keys == a.spaces.Keys - {s}
    ensures UsersGo(a, b, limit) && Justified(a, b)
  {
    var start := UnlinkFromRoot(a.pds, SpaceRes(s));
    CleanupFrame(start, s, a.spaces[s], limit);
    RootSpared(start, s, a.spaces[s], limit);
    hide CleanupSpace;
    forall q | q in a.pds && q != RT_PD_ID && !a.pds[q].toDelete ensures Taken(a, s, limit, b, q) {
      PolicyTakes(start, s, a.spaces[s], limit, q);
    }
    hide Uses, Regular;
    AllTaken(a, s, limit, b);
  }

  lemma AllTaken(a: Snap, s: SpaceId, limit: int, b: Snap)
    requires s in a.spaces && a.spaces[s].manager in a.pds && RT_PD_ID in a.pds && (a.spaces[s].policy || s in a.adss)
    requires b.pds.Keys == a.pds.Keys && b.spaces.Keys == a.spaces.Keys - {s} && !b.pds[RT_PD_ID].toDelete
    requires forall q :: q in a.pds && q != RT_PD_ID && a.pds[q].toDelete ==> b.pds[q].toDelete
    requires forall q :: q in a.pds && q != RT_PD_ID && !a.pds[q].toDelete ==> Taken(a, s, limit, b, q)
    ensures UsersGo(a, b, limit) && Justified(a, b)
  {
    hide Uses;
  }

  ghost predicate Taken(a: Snap, s: SpaceId, limit: int, b: Snap, q: PdId)
    requires s in a.spaces && a.spaces[s].manager in a.pds && q in a.pds && q in b.pds
  {
    b.pds[q].toDelete <==>
      a.spaces[s].policy && (limit == UNBOUNDED || a.pds[a.spaces[s].manager].depth + 1 <= limit) &&
      Uses(a.pds[q], a.spaces[s].kind, s)
  }

  lemma RootSpared(pds: Pds, s: SpaceId, space: Space, limit: int)
    requires RT_PD_ID in pds && space.manager in pds
    ensures CleanupSpace(pds, s, space, limit)[RT_PD_ID] == pds[RT_PD_ID]
  {
  }

  /** The links of a marked PD are deleted. */
  lemma LinksMarked(a: Snap, p: PdId, limit: int)
    requires p in a.pds && a.pds[p].toDelete
    ensures Led(a, Snap(LinkClosure(a.pds, p), a.spaces, a.adss), limit)
  {
    var b := Snap(LinkClosure(a.pds, p), a.spaces, a.adss);
    forall q | q in b.pds ensures PdLed(a.pds[q], b.pds[q], b.spaces) {
      SameHoldsLed(a.pds[q], b.pds[q], b.spaces);
    }
    forall q | q in a.pds && !a.pds[q].toDelete && Gone(b, q) ensures HasReason(a, b, q) {
      var v := LastStep(a.pds, p, q);
      assert Step(a.pds, v, q) && Gone(b, v);
    }
    hide PdLed, HasReason, Charged, Uses;
  }

  /** Before its last PD, a path of links is at its first PD or leads there. */
  lemma LastStep(pds: Pds, p: PdId, q: PdId) returns (v: PdId)
    requires Linked(pds, p, q)
    ensures Step(pds, v, q) && (v == p || Linked(pds, p, v))
  {
    var path :| LinkPath(pds, path) && path[0] == p && path[|path| - 1] == q;
    v := path[|path| - 2];
    assert Step(pds, path[|path| - 2], path[|path| - 1]);
    if |path| > 2 {
      var init := path[..|path| - 1];
      assert LinkPath(pds, init) && init[0] == p && init[|init| - 1] == v;
    }
  }

  lemma PdRemoved(a: Snap, p: PdId, limit: int)
    requires p in a.pds && a.pds[p].toDelete
    ensures Led(a, Snap(a.pds - {p}, a.spaces, a.adss), limit)
  {
    var b := Snap(a.pds - {p}, a.spaces, a.adss);
    forall q | q in b.pds ensures PdLed(a.pds[q], b.pds[q], b.spaces) {
      SameHoldsLed(a.pds[q], b.pds[q], b.spaces);
    }
    hide PdLed, HasReason, Charged, Uses;
  }

  // ----- the sweep over the spaces -----

  ghost predicate CoreSafe(spaces: Spaces) {
    forall s :: s in spaces && s in CORE_SPACES ==> !spaces[s].toDelete && spaces[s].maps == []
  }

  lemma KillKeepsPolicy(spaces: Spaces, s: SpaceId, limit: int)
    requires s in spaces && PolicyOn(spaces)
    ensures PolicyOn(Kill(spaces, s, limit)) && (CoreSafe(spaces) ==> CoreSafe(Kill(spaces, s, limit)))
  {
  }

  /** Each PD that used a space deleted by the sweep is gone or marked, and no other PD is newly marked. */
  lemma {:induction false} SweepLed(a: Snap, order: seq<SpaceId>, limit: int, spaceLimit: int)
    requires Regular(a) && RT_PD_ID in a.pds && !a.pds[RT_PD_ID].toDelete && PolicyOn(a.spaces) && CoreSafe(a.spaces)
    ensures var b := Snap(SweepPds(a.pds, a.spaces, order, limit, spaceLimit), Sweep(a.spaces, order, spaceLimit), a.adss);
            Led(a, b, limit) && Regular(b) && PolicyOn(b.spaces)
    decreases |order|
  {
    hide Led, PolicyOn, Kill, CleanupSpace, UnlinkFromRoot, CoreSafe, Regular;
    if order == [] {
      LedRefl(a, limit);
    } else {
      var s := order[0];
      if s in a.spaces && a.spaces[s].toDelete && !a.spaces[s].deleting {
        MarkedFacts(a, s);
        RegularAt(a, s);
        var mid := Snap(CleanupSpace(UnlinkFromRoot(a.pds, SpaceRes(s)), s, a.spaces[s], limit), Kill(a.spaces, s, spaceLimit), a.adss);
        SpaceDeleted(a, s, limit, spaceLimit, a.adss, mid);
        KillKeepsPolicy(a.spaces, s, spaceLimit);
        StillRegular(a, s, limit, spaceLimit, mid);
        SweepLed(mid, order[1..], limit, spaceLimit);
        LedTogether(a, mid, Snap(SweepPds(a.pds, a.spaces, order, limit, spaceLimit), Sweep(a.spaces, order, spaceLimit), a.adss), limit);
      } else {
        SweepLed(a, order[1..], limit, spaceLimit);
      }
    }
  }

  lemma MarkedFacts(a: Snap, s: SpaceId)
    requires PolicyOn(a.spaces) && CoreSafe(a.spaces) && s in a.spaces && a.spaces[s].toDelete
    ensures a.spaces[s].policy && s !in CORE_SPACES
  {
  }

  lemma LedRefl(a: Snap, limit: int)
    ensures Led(a, a, limit)
  {
    forall q | q in a.pds ensures PdLed(a.pds[q], a.pds[q], a.spaces) {
      SameHoldsLed(a.pds[q], a.pds[q], a.spaces);
    }
    hide PdLed;
    QuietStep(a, a, limit);
  }

  lemma StillRegular(a: Snap, s: SpaceId, limit: int, spaceLimit: int, b: Snap)
    requires Regular(a) && RT_PD_ID in a.pds && !a.pds[RT_PD_ID].toDelete && s in a.spaces && s !in CORE_SPACES
    requires b == Snap(CleanupSpace(UnlinkFromRoot(a.pds, SpaceRes(s)), s, a.spaces[s], limit), Kill(a.spaces, s, spaceLimit), a.adss)
    ensures Regular(b) && RT_PD_ID in b.pds && !b.pds[RT_PD_ID].toDelete
  {
    RootSpared(UnlinkFromRoot(a.pds, SpaceRes(s)), s, a.spaces[s], limit);
    hide CleanupSpace;
    KillFewer(a.spaces, s, spaceLimit);
  }
}
