/**
 * The root task's registries of PDs and resource spaces, and the re-entrant callbacks that
 * run when an entry is deleted.  As in the registry code, a callback runs before its entry
 * is unlinked.
 *
 * ADS and CPU reference counts are not tracked: whether a dropped reference was the last one is
 * an argument, and every result below holds for both outcomes.
 */
module Lifetime {
  import opened Common
  import opened Resources
  import opened RequestDirectory
  import opened SpaceGraph
  import opened ProtectionDomains
  import opened VmrSpaces
  import opened PdLinks
  import opened Registration
  import opened Notices
  import opened Dependents

  /** Types whose sending waits for the resource server. */
  predicate SentByServer(k: Kind) {
    !CoreKind(k) || k == KIND_RESSPC
  }

  predicate DropsAds(k: Kind) {
    k == KIND_ADS || k == KIND_CPU
  }

  function MarkOne(spaces: Spaces, s: SpaceId, policy: bool): Spaces {
    if s in spaces then spaces[s := spaces[s].(toDelete := true, policy := policy)] else spaces
  }

  /** `dying` is the ADS, if any, that goes with a reference to the ADS or CPU `r`. */
  predicate CanDie(r: ResId, dying: Option<SpaceId>) {
    dying.Some? ==> DropsAds(r.kind) && dying.value !in CORE_SPACES && (r.kind == KIND_ADS ==> dying.value == r.obj)
  }

  /** The VMR space of the dying ADS is still registered, so it goes too. */
  predicate LosesSpace(spaces: Spaces, dying: Option<SpaceId>) {
    dying.Some? && dying.value in spaces
  }

  predicate Among(dying: Option<SpaceId>, adss: set<SpaceId>) {
    dying.Some? ==> dying.value in adss
  }

  function Without1(homes: set<SpaceId>, dying: Option<SpaceId>): set<SpaceId> {
    if dying.Some? then homes - {dying.value} else homes
  }

  /** The PDs after the VMR space of `ads` is deleted. */
  function AfterLoss(pds: Pds, spaces: Spaces, ads: SpaceId, limit: int): Pds
    requires RT_PD_ID in pds && ads in spaces && spaces[ads].manager in pds
  {
    CleanupSpace(UnlinkFromRoot(pds, SpaceRes(ads)), ads, spaces[ads], limit)
  }

  function Waiting(sender: Option<PdId>): seq<PdId> {
    if sender.Some? then [sender.value] else []
  }

  /** The core capabilities that a PD was given last; 0 stands for none. */
  datatype CoreCaps = CoreCaps(ads: ObjId, pd: ObjId, cpu: ObjId, fault: bool)

  function CoreOf(cores: map<PdId, CoreCaps>, p: PdId): CoreCaps {
    if p in cores then cores[p] else CoreCaps(0, 0, 0, false)
  }

  function WithCore(caps: CoreCaps, kind: Kind, obj: ObjId): CoreCaps {
    if kind == KIND_ADS then caps.(ads := obj)
    else if kind == KIND_PD then caps.(pd := obj)
    else if kind == KIND_CPU then caps.(cpu := obj)
    else caps.(fault := true)
  }

  /** A new ADS or CPU takes the place of an old one. */
  predicate Replaces(cores: map<PdId, CoreCaps>, p: PdId, kind: Kind) {
    (kind == KIND_ADS && CoreOf(cores, p).ads > 0) || (kind == KIND_CPU && CoreOf(cores, p).cpu > 0)
  }

  function ReplacedCap(cores: map<PdId, CoreCaps>, p: PdId, kind: Kind): ResId {
    if kind == KIND_ADS then ResId(KIND_ADS, ADS_SPACE_ID, CoreOf(cores, p).ads)
    else ResId(KIND_CPU, CPU_SPACE_ID, CoreOf(cores, p).cpu)
  }

  const FIRST_PDS: Pds := map[RT_PD_ID := NEW_PD]

  const FIRST_ORDER: seq<SpaceId> :=
    [RESSPC_SPACE_ID, PD_SPACE_ID, ADS_SPACE_ID, MO_SPACE_ID, CPU_SPACE_ID, EP_SPACE_ID]

  const FIRST_SPACES: Spaces := map[
    RESSPC_SPACE_ID := NewSpace(KIND_RESSPC, RT_PD_ID), PD_SPACE_ID := NewSpace(KIND_PD, RT_PD_ID),
    ADS_SPACE_ID := NewSpace(KIND_ADS, RT_PD_ID), MO_SPACE_ID := NewSpace(KIND_MO, RT_PD_ID),
    CPU_SPACE_ID := NewSpace(KIND_CPU, RT_PD_ID), EP_SPACE_ID := NewSpace(KIND_EP, RT_PD_ID)]

  lemma FirstStateIsValid()
    ensures Inv(FIRST_PDS, FIRST_SPACES, FIRST_ORDER) && HomesOk(FIRST_PDS, FIRST_SPACES, {})
    ensures NoneDeleting(FIRST_SPACES) && PolicyOn(FIRST_SPACES) && NoMarked(FIRST_PDS) && NoneDying(FIRST_PDS) && Acyclic(FIRST_PDS)
  {
    assert FIRST_SPACES.Keys == CORE_SPACES;
    hide Linked;
    forall p | p in FIRST_PDS ensures !Linked(FIRST_PDS, p, p) {
      NothingLinkedFrom(FIRST_PDS, p);
    }
  }

  lemma NothingLinkedFrom(pds: Pds, p: PdId)
    requires p in pds && pds[p].links == []
    ensures forall q :: !Linked(pds, p, q)
  {
    forall q ensures !Linked(pds, p, q) {
      LinkedUnfolds(pds, p, q);
    }
  }

  class RootTask {
    const pdLimit: int     // GPI_CLEANUP_PD_DEPTH
    const spaceLimit: int  // GPI_CLEANUP_RS_DEPTH

    var pds: Pds
    var spaces: Spaces
    var order: seq<SpaceId>  // registration order of the spaces
    var notices: seq<Notice>
    var cores: map<PdId, CoreCaps>
    var sender: Option<PdId> // the PD whose sending waits for a server
    ghost var destroyed: seq<PdId>  // every run of the destroy body, in order
    ghost var deferred: seq<PdId>   // every sender that had to wait, in order
    ghost var answered: seq<PdId>   // every sender answered later, in order
    var adss: set<SpaceId>          // the registered ADSs
    ghost var homes: set<SpaceId>   // VMR spaces of ADSs that only the root task ever held or mapped

    /** The root task at the start: its own PD, and the spaces of its components. */
    constructor (pdLimit: int, spaceLimit: int)
      ensures Valid() && Acyclic(pds) && homes == {} && sender == None && deferred == [] && cores == map[] && adss == {}
      ensures this.pdLimit == pdLimit && this.spaceLimit == spaceLimit
      ensures pds == FIRST_PDS && spaces == FIRST_SPACES && order == FIRST_ORDER && notices == [] && destroyed == []
    {
      hide Inv, HomesOk, NoneDeleting, PolicyOn, NoMarked, NoneDying, Acyclic, FIRST_PDS, FIRST_SPACES, FIRST_ORDER;
      FirstStateIsValid();
      this.pdLimit, this.spaceLimit := pdLimit, spaceLimit;
      pds, spaces, order, notices, sender := FIRST_PDS, FIRST_SPACES, FIRST_ORDER, [], None;
      destroyed, homes, deferred, answered, cores, adss := [], {}, [], [], map[], {};
    }

    ghost function Now(): Snap
      reads this
    {
      Snap(pds, spaces, adss)
    }

    ghost predicate Ok()
      reads this
    {
      Inv(pds, spaces, order) && HomesOk(pds, spaces, homes)
    }

    // ----- dropping one hold -----

    method MarkSpace(s: SpaceId, policy: bool)
      requires Ok() && s !in CORE_SPACES && s !in homes
      modifies this`spaces
      ensures Ok() && spaces == MarkOne(old(spaces), s, policy)
      ensures spaces == if s in old(spaces) then old(spaces)[s := old(spaces)[s].(toDelete := true, policy := policy)] else old(spaces)
    {
      hide HomesOk;
      if s in spaces {
        HomesAfterSpace(pds, spaces, homes, s, spaces[s].(toDelete := true, policy := policy));
        RemarkKeepsInv(pds, spaces, MarkOne(spaces, s, policy), order);
        spaces := spaces[s := spaces[s].(toDelete := true, policy := policy)];
      }
    }

    /** The manager's registry entry is dereferenced here, so it has to exist. */
    method QueueFree(server: PdId, r: ResId)
      requires server in pds
      modifies this`notices
      ensures notices == old(notices) + [Free(server, r)]
    {
      notices := notices + [Free(server, r)];
    }

    method QueueDestroy(server: PdId, kind: Kind, s: SpaceId)
      requires server in pds
      modifies this`notices
      ensures notices == old(notices) + [Destroy(server, kind, s)]
    {
      notices := notices + [Destroy(server, kind, s)];
    }

    /**
     * The callback that runs before a hold of `p` is unlinked.  A freed resource of a
     * dynamic type is reported to the server of its space, which is always still registered.
     */
    method HeldResourceOnDelete(p: PdId, r: ResId, dying: Option<SpaceId>)
      requires Ok() && p in pds && r in pds[p].holds && CanDie(r, dying) && (p == RT_PD_ID ==> dying == None)
      requires Among(dying, adss)
      requires DropsAds(r.kind) ==> NoneDeleting(spaces)
      modifies this`pds, this`spaces, this`order, this`notices, this`homes, this`adss
      decreases Undeleted(spaces), 2
      ensures Ok() && homes == Without1(old(homes), dying) && adss == Without1(old(adss), dying)
      ensures DropsAds(r.kind) ==> NoneDeleting(spaces) && PdsCleaned(old(pds), pds) && Thinned(old(spaces), spaces)
      ensures pdLimit == 0 && DropsAds(r.kind) ==> SameMarks(old(pds), pds)
      ensures LosesSpace(old(spaces), dying) ==>
                RT_PD_ID in old(pds) && old(spaces)[dying.value].manager in old(pds) &&
                pds == AfterLoss(old(pds), old(spaces), dying.value, pdLimit) &&
                spaces == Kill(old(spaces), dying.value, spaceLimit)
      ensures DropsAds(r.kind) && !LosesSpace(old(spaces), dying) ==> pds == old(pds) && spaces == old(spaces)
      ensures DropsAds(r.kind) ==> SameFrees(old(notices), notices)
      ensures !DropsAds(r.kind) ==>
                && pds == old(pds) && order == old(order)
                && notices == old(notices) + FreeNotice(old(pds), old(spaces), p, r)
                && spaces == if p != RT_PD_ID && r.kind == KIND_RESSPC
                             then MarkOne(old(spaces), r.obj, old(pds)[p].depth == 0)
                             else old(spaces)
    {
      hide Inv, HomesOk, NoneDeleting, PdsCleaned, SameMarks, Thinned, AfterLoss, Kill, SameFrees;
      NothingCleaned(pds, spaces);
      FreesAreSame(notices);
      if p == RT_PD_ID {
        return;
      }
      SafeHold(pds, spaces, order, p, r);
      if r.kind == KIND_ADS || r.kind == KIND_CPU {
        // a destroyed CPU drops its reference to the ADS it was bound to
        if dying.Some? {
          DropAds(dying.value);
        }
      } else if r.kind == KIND_RESSPC {
        HeldIsNoHome(pds, spaces, homes, p, r);
        MarkSpace(r.obj, pds[p].depth == 0);
      } else if r.kind == KIND_MO || r.kind == KIND_PD || r.kind == KIND_VMR || r.kind == KIND_EP {
        // the effect on memory objects, endpoints and VMRs lies outside these registries
      } else if pds[p].toDelete {
        if r.space !in spaces || spaces[r.space].toDelete || spaces[r.space].manager == p {
          return;
        }
        ManagerIsRegistered(pds, spaces, order, r.space);
        QueueFree(spaces[r.space].manager, r);
      }
    }

    /** An ADS loses its last reference: its VMR space goes too, if it is still there. */
    method DropAds(ads: SpaceId)
      requires Ok() && NoneDeleting(spaces) && ads !in CORE_SPACES && ads in adss
      modifies this`pds, this`spaces, this`order, this`notices, this`homes, this`adss
      decreases Undeleted(spaces), 1
      ensures Ok() && NoneDeleting(spaces) && homes == old(homes) - {ads} == old(homes) * spaces.Keys
      ensures adss == old(adss) - {ads}
      ensures PdsCleaned(old(pds), pds) && Thinned(old(spaces), spaces)
      ensures pdLimit == 0 ==> SameMarks(old(pds), pds)
      ensures ads in old(spaces) ==>
                RT_PD_ID in old(pds) && old(spaces)[ads].manager in old(pds) &&
                pds == AfterLoss(old(pds), old(spaces), ads, pdLimit) && spaces == Kill(old(spaces), ads, spaceLimit)
      ensures ads !in old(spaces) ==> pds == old(pds) && spaces == old(spaces)
      ensures SameFrees(old(notices), notices)
    {
      NothingCleaned(pds, spaces);
      FreesAreSame(notices);
      if ads in spaces { assert SpaceOk(pds, ads, spaces[ads]); }
      hide Inv, HomesOk, CleanupSpace, PdsCleaned, SameMarks, Thinned, Kill, SameFrees, DestroyNotice;
      HomesRegistered(pds, spaces, homes);
      FewerHomes(pds, spaces, homes, homes - {ads});
      homes := homes - {ads};
      adss := adss - {ads};
      if ads in spaces {
        DestroyIsNoFree(notices, UnlinkFromRoot(pds, SpaceRes(ads)), ads, spaces[ads]);
        DeleteSpace(ads);
      }
      HomesStep(old(homes), old(spaces), Some(ads), spaces);
    }

    /** Delete one hold of `p` from its hold registry, callback first. */
    method DeleteHold(p: PdId, r: ResId, dying: Option<SpaceId>)
      requires Ok() && p in pds && p != RT_PD_ID && r in pds[p].holds && CanDie(r, dying) && Among(dying, adss)
      requires DropsAds(r.kind) ==> NoneDeleting(spaces)
      modifies this`pds, this`spaces, this`order, this`notices, this`homes, this`adss
      decreases Undeleted(spaces), 3
      ensures Ok() && homes == Without1(old(homes), dying) == old(homes) * spaces.Keys && adss == Without1(old(adss), dying)
      ensures DropsAds(r.kind) ==>
                && NoneDeleting(spaces) && Thinned(old(spaces), spaces)
                && p in pds && r !in pds[p].holds && PdsKept(old(pds), pds)
                && (old(pds)[p].toDelete ==> PdsCleaned(old(pds)[p := Unlink(old(pds)[p], r)], pds))
                && (pdLimit == 0 ==> SameMarks(old(pds), pds))
      ensures LosesSpace(old(spaces), dying) ==>
                RT_PD_ID in old(pds) && old(spaces)[dying.value].manager in old(pds) &&
                (var after := AfterLoss(old(pds), old(spaces), dying.value, pdLimit);
                 p in after && pds == after[p := Unlink(after[p], r)]) &&
                spaces == Kill(old(spaces), dying.value, spaceLimit)
      ensures !LosesSpace(old(spaces), dying) ==> pds == old(pds)[p := Unlink(old(pds)[p], r)]
      ensures DropsAds(r.kind) && !LosesSpace(old(spaces), dying) ==> spaces == old(spaces)
      ensures DropsAds(r.kind) ==> SameFrees(old(notices), notices)
      ensures !DropsAds(r.kind) ==>
                && order == old(order)
                && notices == old(notices) + FreeNotice(old(pds), old(spaces), p, r)
                && spaces == if r.kind == KIND_RESSPC
                             then MarkOne(old(spaces), r.obj, old(pds)[p].depth == 0)
                             else old(spaces)
    {
      hide Inv, HomesOk, Thinned, PdsCleaned, PdsKept, SameMarks, Unlink, AfterLoss, Kill, SameFrees;
      HomesRegistered(pds, spaces, homes);
      HeldResourceOnDelete(p, r, dying);
      HomesStep(old(homes), old(spaces), dying, spaces);
      if DropsAds(r.kind) { DroppedHold(old(pds), pds, p, r); }
      UnlinkedPd(pds[p], r);
      HomesAfterPd(pds, spaces, homes, p, Unlink(pds[p], r));
      if r in pds[p].holds {
        ReleaseKeepsInv(pds, spaces, order, p, r, Unlink(pds[p], r));
      } else {
        assert pds[p := Unlink(pds[p], r)] == pds;
      }
      pds := pds[p := Unlink(pds[p], r)];
    }

    /** pd_remove_resource: drop one reference of the hold, unlinking it with the last one. */
    method RemoveResource(p: PdId, r: ResId)
      requires Ok() && p in pds && p != RT_PD_ID && !DropsAds(r.kind)
      modifies this`pds, this`spaces, this`order, this`notices, this`homes, this`adss
      decreases Undeleted(spaces), 4
      ensures Ok() && homes == old(homes) && adss == old(adss)
      ensures pds == old(pds)[p := Release(old(pds)[p], r)] && order == old(order)
      ensures spaces == if r.kind == KIND_RESSPC && r in old(pds)[p].holds && r !in pds[p].holds
                        then MarkOne(old(spaces), r.obj, old(pds)[p].depth == 0)
                        else old(spaces)
      ensures Recounted(old(pds), pds, p, r, if Refs(old(pds)[p], r) > 0 then Refs(old(pds)[p], r) - 1 else 0)
      ensures !old(pds)[p].toDelete ==> notices == old(notices)
    {
      hide HomesOk;
      ReleaseCounts(pds[p], r);
      ReleasedKeys(pds[p], r);
      HomesAfterPd(pds, spaces, homes, p, Release(pds[p], r));
      if r in pds[p].holds {
        if pds[p].holds[r] == 1 {
          DeleteHold(p, r, None);
        } else {
          ReleaseKeepsInv(pds, spaces, order, p, r, Release(pds[p], r));
          pds := pds[p := Release(pds[p], r)];
        }
      }
    }

    // ----- deleting a resource space -----

    /** Drop every hold that live PD `q` has in space `s`. */
    method RemoveResourcesIn(q: PdId, s: SpaceId)
      requires Ok() && q in pds && q != RT_PD_ID && !pds[q].toDelete && s !in CORE_SPACES
      modifies this`pds, this`spaces, this`order, this`notices, this`homes, this`adss
      decreases Undeleted(spaces), 4
      ensures Ok() && homes == old(homes) && adss == old(adss)
      ensures pds == old(pds)[q := DropHolds(old(pds)[q], s)]
      ensures spaces == old(spaces) && order == old(order) && notices == old(notices)
    {
      hide Inv, HomesOk, DropHolds, DropHoldsBut, FreeNotice, Unlink, MarkOne;
      ghost var was := pds[q];
      DropHoldsEnds(was, s);
      var todo := set r | r in pds[q].holds && r.space == s;
      while todo != {}
        invariant Ok() && homes == old(homes) && adss == old(adss) && forall r :: r in todo ==> r in was.holds && r.space == s
        invariant pds == old(pds)[q := DropHoldsBut(was, s, todo)]
        invariant spaces == old(spaces) && order == old(order) && notices == old(notices)
        decreases |todo|
      {
        var r :| r in todo;
        DropHoldsSteps(was, s, todo, r);
        LiveHoldIsPlain(pds, spaces, order, q, r);
        DeleteHold(q, r, None);
        todo := todo - {r};
      }
    }

    /** Mark live PDs that depend on the space, within the depth limit. */
    method MarkDependentPds(kind: Kind, s: SpaceId, depth: nat)
      requires Ok()
      modifies this`pds
      ensures Ok() && pds == MarkStage(old(pds), kind, s, depth, pdLimit)
    {
      hide Inv, HomesOk;
      var todo := pds.Keys;
      while todo != {}
        invariant Ok() && pds.Keys == old(pds).Keys && todo <= pds.Keys
        invariant forall q :: q in pds ==>
          pds[q] == if q in todo then old(pds)[q] else MarkDependent(q, old(pds)[q], kind, s, depth, pdLimit)
        decreases |todo|
      {
        var q :| q in todo;
        todo := todo - {q};
        if q != RT_PD_ID && !pds[q].toDelete {
          if (pdLimit == UNBOUNDED || depth + 1 <= pdLimit) && Depends(pds[q], kind, s) {
            var marked := pds[q].(depth := depth + 1, toDelete := true);
            HomesAfterPd(pds, spaces, homes, q, marked);
            MarkPdKeepsInv(pds, spaces, order, q, marked);
            pds := pds[q := marked];
          }
        }
      }
    }

    /** Remove the space's request edges and resources from every live PD. */
    method CleanLivePds(kind: Kind, s: SpaceId)
      requires Ok() && s !in CORE_SPACES && s != SPACE_ID_NULL
      modifies this`pds, this`spaces, this`order, this`notices, this`homes, this`adss
      decreases Undeleted(spaces), 5
      ensures Ok() && homes == old(homes) && adss == old(adss) && pds == CleanStage(old(pds), kind, s)
      ensures spaces == old(spaces) && order == old(order) && notices == old(notices)
    {
      hide Inv, HomesOk, DropHolds, Remove;
      var todo := pds.Keys;
      while todo != {}
        invariant Ok() && homes == old(homes) && adss == old(adss) && pds.Keys == old(pds).Keys && todo <= pds.Keys
        invariant forall q :: q in pds ==>
          pds[q] == if q in todo then old(pds)[q] else CleanLive(q, old(pds)[q], kind, s)
        invariant spaces == old(spaces) && order == old(order) && notices == old(notices)
        decreases |todo|
      {
        var q :| q in todo;
        todo := todo - {q};
        if q != RT_PD_ID && !pds[q].toDelete {
          HomesAfterPd(pds, spaces, homes, q, DropRde(pds[q], kind, s));
          DropRdeKeepsInv(pds, spaces, order, q, kind, s);
          pds := pds[q := DropRde(pds[q], kind, s)];
          RemoveResourcesIn(q, s);
        }
      }
    }

    /** Take the space from its live manager and, unless told not to, notify the manager. */
    method ReleaseFromManager(s: SpaceId)
      requires Ok() && s in spaces && s !in CORE_SPACES
      modifies this`pds, this`spaces, this`order, this`notices, this`homes, this`adss
      decreases Undeleted(spaces), 5
      ensures Ok() && homes == old(homes) && adss == old(adss) && pds == ReleaseStage(old(pds), s, old(spaces)[s].manager)
      ensures s in spaces && spaces == old(spaces)[s := spaces[s]] && order == old(order)
      ensures Undeleted(spaces) == Undeleted(old(spaces))
      ensures old(spaces)[s].manager in old(pds)
      ensures notices == old(notices) + DestroyNotice(old(pds), s, old(spaces)[s])
    {
      hide Inv, HomesOk, ReleaseStage, Release, DestroyNotice;
      ManagerIsRegistered(pds, spaces, order, s);
      ReleaseStageIs(pds, s, spaces[s].manager);
      NoticeIs(pds, s, spaces[s]);
      var space := spaces[s];
      var m := space.manager;
      if !pds[m].toDelete && m != RT_PD_ID {
        RemoveResource(m, SpaceRes(s));
        SameUndeleted(old(spaces), spaces);
        if !space.dontNotify {
          QueueDestroy(m, space.kind, s);
        }
      }
      hide Undeleted;
    }

    /** pd_component_space_cleanup for space `s`, which is still registered. */
    method SpaceCleanup(s: SpaceId)
      requires Ok() && s in spaces && s !in CORE_SPACES
      modifies this`pds, this`spaces, this`order, this`notices, this`homes, this`adss
      decreases Undeleted(spaces), 6
      ensures Ok() && homes == old(homes) && adss == old(adss)
      ensures pds == CleanupSpace(old(pds), s, old(spaces)[s], pdLimit)
      ensures s in spaces && spaces == old(spaces)[s := spaces[s]] && order == old(order)
      ensures notices == old(notices) + DestroyNotice(old(pds), s, old(spaces)[s])
    {
      hide Inv, HomesOk, CleanupSpace, ReleaseStage, MarkStage, CleanStage, DestroyNotice;
      ManagerIsRegistered(pds, spaces, order, s);
      CleanupByStages(pds, s, spaces[s], pdLimit);
      var space := spaces[s];
      var depth := pds[space.manager].depth;
      ReleaseFromManager(s);
      if space.policy {
        MarkDependentPds(space.kind, s, depth);
      }
      CleanLivePds(space.kind, s);
    }

    /** The cleanup policy of space `s`: mark the live spaces that map to it. */
    method MarkDependentSpaces(s: SpaceId)
      requires s in spaces
      modifies this`spaces
      ensures spaces == MarkDependents(old(spaces), s, spaceLimit)
    {
      hide MarkDependents, WithMark, PartlyMarked;
      var depth := spaces[s].depth;
      var todo := spaces.Keys;
      ghost var was, marked := spaces, MarkDependents(spaces, s, spaceLimit);
      MarkedAt(was, s, spaceLimit);
      NoneVisited(was, marked);
      while todo != {}
        invariant spaces.Keys == was.Keys && todo <= spaces.Keys && PartlyMarked(was, marked, spaces, todo)
        decreases |todo|
      {
        var x :| x in todo;
        VisitOne(was, marked, spaces, todo, x);
        todo := todo - {x};
        if spaces[x].maps != [] && !spaces[x].toDelete {
          if (spaceLimit == UNBOUNDED || depth + 1 <= spaceLimit) && s in spaces[x].maps {
            spaces := spaces[x := WithMark(spaces[x], depth + 1)];
          }
        }
      }
      AllVisited(was, marked, spaces);
    }

    /** Delete space `s` from its registry, callback first. */
    method DeleteSpace(s: SpaceId)
      requires Ok() && s in spaces && s !in CORE_SPACES && s !in homes && NoneDeleting(spaces)
      modifies this`pds, this`spaces, this`order, this`notices, this`homes, this`adss
      decreases Undeleted(spaces), 0
      ensures Ok() && NoneDeleting(spaces) && homes == old(homes) && adss == old(adss)
      ensures pds == CleanupSpace(UnlinkFromRoot(old(pds), SpaceRes(s)), s, old(spaces)[s], pdLimit)
      ensures spaces == Kill(old(spaces), s, spaceLimit) && Thinned(old(spaces), spaces)
      ensures order == Without(old(order), s)
      ensures PdsCleaned(old(pds), pds)
      ensures notices == old(notices) + DestroyNotice(UnlinkFromRoot(old(pds), SpaceRes(s)), s, old(spaces)[s])
      ensures !old(spaces)[s].policy || pdLimit == 0 ==> SameMarks(old(pds), pds)
    {
      hide Inv, HomesOk, NoneDeleting, CleanupSpace, Kill, MarkDependents, Without, PdsCleaned, SameMarks, Thinned, DestroyNotice;
      RootUnlinkKeepsInv(pds, spaces, order, s);
      ghost var pds0, spaces0 := UnlinkFromRoot(pds, SpaceRes(s)), spaces;
      DeletionOutcome(pds, spaces, order, s, pdLimit, spaceLimit,
                      pds0, CleanupSpace(pds0, s, spaces[s], pdLimit), Kill(spaces, s, spaceLimit));
      StagedHomes(pds, spaces, homes, s, spaceLimit);
      spaces := spaces[s := spaces[s].(deleting := true)];
      pds := UnlinkFromRoot(pds, SpaceRes(s));
      if spaces[s].policy {
        MarkDependentSpaces(s);
      }
      assert spaces == Staged(spaces0, s, spaceLimit);
      StagedNotice(pds0, spaces0, s, spaceLimit);
      SpaceCleanup(s);
      StagesAddUp(pds0, spaces0, s, spaceLimit, pdLimit, spaces);
      HomesAfterRemoval(pds, spaces, homes, s);
      spaces := spaces - {s};
      order := Without(order, s);
    }

    // ----- destroying a PD -----

    /**
     * Delete every link of `p`.  Deleting a link marks the linked PD, if it is registered,
     * and first deletes that PD's own links.
     */
    method MarkLinked(p: PdId)
      requires Ok() && CycleFree(pds, p) && p in pds && p != RT_PD_ID && pds[p].toDelete
      modifies this`pds
      decreases LinkedSet(pds, p)
      ensures Ok() && pds == LinkClosure(old(pds), p)
      ensures forall q :: q in pds ==>
                pds[q] == if q == p || Linked(old(pds), p, q) then old(pds)[q].(toDelete := true, links := []) else old(pds)[q]
    {
      hide Inv, HomesOk, Partial, LinkClosure, CycleFree, LinkedSet;
      ghost var was, k := pds, 0;
      PartialEnds(was, p);
      ClosureIs(was, p);
      while pds[p].links != []
        invariant Ok() && k <= |was[p].links|
        invariant pds == Partial(was, p, k) && p in pds
        invariant pds[p] == was[p].(links := was[p].links[k..])
        decreases |pds[p].links|
      {
        var c := pds[p].links[0];
        LinkTargetIsNotRoot(pds, spaces, order, p, c);
        if c in pds {
          HomesAfterPd(pds, spaces, homes, c, Marked(pds[c]));
          MarkPdKeepsInv(pds, spaces, order, c, Marked(pds[c]));
          pds := pds[c := Marked(pds[c])];
          ghost var mid := pds;
          MidIsSmaller(was, p, k, c, mid);
          MarkLinked(c);
          PartialStep(was, p, k, mid, pds);
        } else {
          PartialSkip(was, p, k);
        }
        LinkLoopTail(was, p, k, pds);
        HomesAfterPd(pds, spaces, homes, p, pds[p].(links := pds[p].links[1..]));
        MarkPdKeepsInv(pds, spaces, order, p, pds[p].(links := pds[p].links[1..]));
        pds := pds[p := pds[p].(links := pds[p].links[1..])];
        k := k + 1;
      }
    }

    /** Delete every space that is marked when the sweep reaches it. */
    method SpaceSweep()
      requires Ok() && NoneDeleting(spaces) && PolicyOn(spaces)
      modifies this`pds, this`spaces, this`order, this`notices, this`homes, this`adss
      ensures Ok() && homes == old(homes) && adss == old(adss) && NoneDeleting(spaces)
      ensures PdsCleaned(old(pds), pds) && (pdLimit == 0 ==> SameMarks(old(pds), pds))
      ensures spaces == Sweep(old(spaces), old(order), spaceLimit)
      ensures pds == SweepPds(old(pds), old(spaces), old(order), pdLimit, spaceLimit)
      ensures HoldsStay(old(pds), pds, spaces) && SameFrees(old(notices), notices)
      ensures PolicyOn(spaces) && Led(old(Now()), Now(), pdLimit)
    {
      InvIsRegular(pds, spaces, order, adss);
      SweepLed(Now(), order, pdLimit, spaceLimit);
      hide Inv, HomesOk, Kill, PdsCleaned, Thinned, CleanupSpace, SameMarks, UnlinkFromRoot;
      hide HoldsStay, SameFrees, DestroyNotice, SpacesFewer, PolicyOn, Led, Regular, CoreSafe;
      var todo := order;
      NothingCleaned(pds, spaces);
      StaySame(pds, pds, spaces);
      FreesAreSame(notices);
      while todo != []
        invariant Ok() && homes == old(homes) && adss == old(adss) && NoneDeleting(spaces)
        invariant PdsCleaned(old(pds), pds) && (pdLimit == 0 ==> SameMarks(old(pds), pds))
        invariant Sweep(old(spaces), old(order), spaceLimit) == Sweep(spaces, todo, spaceLimit)
        invariant SweepPds(old(pds), old(spaces), old(order), pdLimit, spaceLimit) ==
                  SweepPds(pds, spaces, todo, pdLimit, spaceLimit)
        invariant HoldsStay(old(pds), pds, spaces) && SameFrees(old(notices), notices)
        decreases |todo|
      {
        var s := todo[0];
        if s in spaces && spaces[s].toDelete && !spaces[s].deleting {
          MarkedIsNoHome(pds, spaces, homes, s);
          SweepableIsNotCore(pds, spaces, order, s);
          ManagerIsRegistered(pds, spaces, order, s);
          ghost var before, sp, told := pds, spaces, notices;
          DeleteSpace(s);
          CleanedTrans(old(pds), before, pds);
          DestroyIsNoFree(told, UnlinkFromRoot(before, SpaceRes(s)), s, sp[s]);
          SameFreesTrans(old(notices), told, notices);
          ThinnedIsFewer(sp, spaces);
          CleanupStays(before, s, sp[s], pdLimit, spaces);
          StayTrans(old(pds), before, pds, sp, spaces);
        }
        todo := todo[1..];
      }
    }

    /** Delete some hold of a PD that is being destroyed; `was`, `first` and `start` are from before its first hold went. */
    method DestroyHold(p: PdId, ghost was: Pd, ghost first: Spaces, ghost start: seq<Notice>)
      requires Ok() && NoneDeleting(spaces) && p in pds && p != RT_PD_ID && pds[p].toDelete && pds[p].holds != map[]
      requires pds[p].depth == 0 && PolicyOn(spaces)
      requires SpacesFewer(first, spaces) && Leaving(was, pds[p], first, spaces, p, start, notices)
      modifies this`pds, this`spaces, this`order, this`notices, this`homes, this`adss
      ensures Ok() && NoneDeleting(spaces) && homes == old(homes) * spaces.Keys && adss <= old(adss)
      ensures PdsKept(old(pds), pds) && p in pds && pds[p].toDelete && |pds[p].holds| < |old(pds)[p].holds|
      ensures pdLimit == 0 ==> SameMarks(old(pds), pds)
      ensures SpacesFewer(old(spaces), spaces)
      ensures HoldsStay(old(pds) - {p}, pds - {p}, spaces)
      ensures Leaving(was, pds[p], first, spaces, p, start, notices)
      ensures PolicyOn(spaces) && Led(old(Now()), Now(), pdLimit) && pds[p].depth == 0
    {
      hide Inv, HomesOk, AfterLoss, Kill, PdsKept, PdsCleaned, SameMarks, FreeNotice, Leaving, HoldsStay, SpacesFewer, SameFrees, PolicyOn, Led, Regular;
      ThinnedIsFewer(spaces, spaces);
      var r :| r in pds[p].holds;
      ghost var before, sp, told := pds, spaces, notices;
      SafeHold(pds, spaces, order, p, r);
      ReservedSpaceIds(pds, spaces, order);
      var dying := SomeDying(r);
      InvIsRegular(pds, spaces, order, adss);
      ghost var from := Now();
      DeleteHold(p, r, dying);
      InvIsRegular(pds, spaces, order, adss);
      HoldDropKept(before, p, r, pds);
      HoldDropFewer(sp, r, before[p].depth == 0, spaces);
      HoldDropStays(before, sp, p, r, dying, pdLimit, spaceLimit, pds, spaces);
      HoldDropLed(from, p, r, dying, pdLimit, spaceLimit, Now());
      HoldDropReported(was, before, first, sp, spaces, p, r, start, told, notices);
    }

    /** Delete every hold of a PD that is being destroyed. */
    method DestroyHolds(p: PdId)
      requires Ok() && NoneDeleting(spaces) && p in pds && p != RT_PD_ID && pds[p].toDelete
      requires pds[p].depth == 0 && PolicyOn(spaces)
      modifies this`pds, this`spaces, this`order, this`notices, this`homes, this`adss
      ensures Ok() && NoneDeleting(spaces)
      ensures PdsKept(old(pds), pds) && p in pds && pds[p].holds == map[]
      ensures pdLimit == 0 ==> SameMarks(old(pds), pds)
      ensures SpacesFewer(old(spaces), spaces)
      ensures homes == old(homes) * spaces.Keys && adss <= old(adss)
      ensures HoldsStay(old(pds) - {p}, pds - {p}, spaces)
      ensures Reported(old(pds), [p], old(spaces), spaces, old(notices), notices)
      ensures PolicyOn(spaces) && Led(old(Now()), Now(), pdLimit)
    {
      hide Inv, HomesOk, AfterLoss, Kill, PdsKept, PdsCleaned, SameMarks, FreeNotice, Leaving, HoldsStay, Reported, SpacesFewer, SameFrees, PolicyOn, Led, Regular;
      HomesRegistered(pds, spaces, homes);
      KeptRefl(pds);
      ThinnedIsFewer(spaces, spaces);
      StaySame(pds - {p}, pds - {p}, spaces);
      LeavingStarts(pds[p], spaces, p, notices);
      LedRefl(Now(), pdLimit);
      while pds[p].holds != map[]
        invariant Ok() && NoneDeleting(spaces)
        invariant PdsKept(old(pds), pds) && p in pds && pds[p].toDelete
        invariant pdLimit == 0 ==> SameMarks(old(pds), pds)
        invariant SpacesFewer(old(spaces), spaces) && homes == old(homes) * spaces.Keys && adss <= old(adss)
        invariant HoldsStay(old(pds) - {p}, pds - {p}, spaces)
        invariant Leaving(old(pds)[p], pds[p], old(spaces), spaces, p, old(notices), notices)
        invariant PolicyOn(spaces) && Led(old(Now()), Now(), pdLimit) && pds[p].depth == 0
        decreases |pds[p].holds|
      {
        ghost var before, sp, from := pds, spaces, Now();
        InvIsRegular(pds, spaces, order, adss);
        DestroyHold(p, old(pds)[p], old(spaces), old(notices));
        KeptTrans(old(pds), before, pds);
        InvIsRegular(pds, spaces, order, adss);
        LedTogether(old(Now()), from, Now(), pdLimit);
        StayTrans(old(pds) - {p}, before - {p}, pds - {p}, sp, spaces);
        FewerKeys(sp, spaces);
        FewerTrans(old(spaces), sp, spaces);
      }
      AllHoldsLeft(old(pds), pds, old(spaces), spaces, order, p, old(notices), notices);
    }

    /** Whether a reference to `r` is the last one to some ADS; any answer is possible. */
    method SomeDying(r: ResId) returns (dying: Option<SpaceId>)
      requires r.kind == KIND_ADS ==> r.obj !in CORE_SPACES
      ensures CanDie(r, dying) && Among(dying, adss)
    {
      var last: bool, ads: SpaceId := *, *;
      if last && r.kind == KIND_ADS && r.obj in adss {
        dying := Some(r.obj);
      } else if last && r.kind == KIND_CPU && ads in adss && ads !in CORE_SPACES {
        dying := Some(ads);
      } else {
        dying := None;
      }
    }

    /** Drop one reference to `r`, a PD resource or a dynamic one, from every live PD. */
    method ResourceCleanup(r: ResId)
      requires Ok() && !DropsAds(r.kind) && r.kind != KIND_RESSPC
      modifies this`pds, this`spaces, this`order, this`notices, this`homes, this`adss
      ensures Ok() && homes == old(homes) && adss == old(adss) && pds == ReleaseAll(old(pds), r)
      ensures spaces == old(spaces) && order == old(order) && notices == old(notices)
    {
      hide Inv, HomesOk, Release;
      var todo := pds.Keys;
      while todo != {}
        invariant Ok() && homes == old(homes) && adss == old(adss) && pds.Keys == old(pds).Keys && todo <= pds.Keys
        invariant forall q :: q in pds ==>
          pds[q] == if q in todo || Exempt(q, old(pds)[q]) then old(pds)[q] else Release(old(pds)[q], r)
        invariant spaces == old(spaces) && order == old(order) && notices == old(notices)
        decreases |todo|
      {
        var q :| q in todo;
        todo := todo - {q};
        if q != RT_PD_ID && !pds[q].toDelete {
          RemoveResource(q, r);
        }
      }
    }

    // One destruction: DeletePd runs PdDestroy, which sweeps the PD registry and so re-enters
    // DeletePd.  Each re-entry has one PD fewer that is not yet being destroyed.

    /** Delete `p` from the PD registry, callback first. */
    method DeletePd(p: PdId, ghost zone: set<PdId>) returns (ghost victims: seq<PdId>)
      requires Ok() && NoneDeleting(spaces) && Bounded(pds, zone, pdLimit)
      requires p in pds && p != RT_PD_ID && !pds[p].deleting && p in zone
      requires pds[p].depth == 0 && PolicyOn(spaces)
      modifies this`pds, this`spaces, this`order, this`notices, this`homes, this`adss, this`destroyed
      decreases Alive(pds), 2
      ensures Ok() && NoneDeleting(spaces) && SpacesFewer(old(spaces), spaces)
      ensures homes == old(homes) * spaces.Keys && adss <= old(adss)
      ensures PdsEvolve(old(pds), pds) && Settled(pds) && p !in pds
      ensures Victims(old(pds), pds, victims) && destroyed == old(destroyed) + victims
      ensures HoldsStay(old(pds), pds, spaces) && Reported(old(pds), victims, old(spaces), spaces, old(notices), notices)
      ensures forall q :: q in pds && Linked(old(pds), p, q) ==> pds[q].deleting
      ensures Bounded(pds, zone, pdLimit) && (forall q :: q in victims ==> q in zone) && RootForgot(pds, victims)
      ensures PolicyOn(spaces) && Led(Snap(Flagged(old(pds), p), old(spaces), old(adss)), Now(), pdLimit)
    {
      hide Inv, HomesOk, NoneDeleting, PdsEvolve, Settled, Victims, SpacesFewer, Unmanaged, UnlinkFromRoot, Alive, Flagged;
      hide Linked, Bounded, HoldsStay, Reported, PolicyOn, Led, Regular;
      ghost var was := pds;
      RootUnlinkStep(pds, spaces, order, p);
      RootUnlinkHomes(pds, spaces, homes, PdRes(p));
      pds := UnlinkFromRoot(pds, PdRes(p));
      UnlinkedIsForgotten(was, p);
      ghost var start := pds;
      InvIsRegular(pds, spaces, order, adss);
      RootUnlinkLinks(was, p, zone, pdLimit);
      victims := PdDestroy(p, zone);
      InvIsRegular(pds, spaces, order, adss);
      HomesAfterPds(pds, pds - {p}, spaces, homes);
      RemovePdKeepsInv(pds, spaces, order, p);
      InvIsRegular(pds - {p}, spaces, order, adss);
      FinishDelete(was, start, p, pds, victims);
      DeleteReported(was, start, p, pds, victims, old(spaces), spaces, old(notices), notices);
      RemovePdBounded(pds, p, zone, pdLimit);
      DeleteLed(was, p, order, old(spaces), old(adss), Now(), pdLimit);
      pds := pds - {p};
    }

    /** pd_destroy: the body that runs once for each destroyed PD. */
    method PdDestroy(p: PdId, ghost zone: set<PdId>) returns (ghost victims: seq<PdId>)
      requires Ok() && NoneDeleting(spaces) && Bounded(pds, zone, pdLimit)
      requires p in pds && p != RT_PD_ID && !pds[p].deleting && p in zone
      requires pds[p].depth == 0 && PolicyOn(spaces) && RT_PD_ID in pds && PdRes(p) !in pds[RT_PD_ID].holds
      modifies this`pds, this`spaces, this`order, this`notices, this`homes, this`adss, this`destroyed
      decreases Alive(pds), 1
      ensures Ok() && NoneDeleting(spaces) && SpacesFewer(old(spaces), spaces)
      ensures homes == old(homes) * spaces.Keys && adss <= old(adss)
      ensures p in pds && pds[p].toDelete && pds[p].links == [] && PdsEvolve(Flagged(old(pds), p), pds)
      ensures Settled(pds) && Unmanaged(spaces, p)
      ensures Victims(old(pds), pds - {p}, victims) && destroyed == old(destroyed) + victims
      ensures HoldsStay(old(pds) - {p}, pds - {p}, spaces)
      ensures Reported(old(pds), victims, old(spaces), spaces, old(notices), notices)
      ensures forall q :: q in pds && Linked(old(pds), p, q) ==> pds[q].deleting
      ensures Bounded(pds, zone, pdLimit) && (forall q :: q in victims ==> q in zone) && RootForgot(pds, victims)
      ensures PolicyOn(spaces) && Led(Snap(Flagged(old(pds), p), old(spaces), old(adss)), Now(), pdLimit)
    {
      hide Inv, HomesOk, NoneDeleting, PdsEvolve, Settled, Victims, SpacesFewer, Unmanaged, Alive, Flagged;
      hide Linked, Bounded, HoldsStay, Reported;
      hide PdsKept, PdsCleaned, SameMarks, Sweep, LinkClosure, ReleaseAll, RootForgot, PolicyOn, Led, Regular;
      ghost var was, flagged, from := pds, Flagged(pds, p), Snap(Flagged(pds, p), spaces, adss);
      Dismantle(p, zone);
      ghost var torn, now1 := pds, Now();
      InvIsRegular(pds, spaces, order, adss);
      ghost var sp, told := spaces, notices;
      ReentryShrinks(was, p, torn);
      ghost var nested := PdSweep(zone);
      ghost var swept, now2 := pds, Now();
      InvIsRegular(pds, spaces, order, adss);
      ResourceCleanup(PdRes(p));
      InvIsRegular(pds, spaces, order, adss);
      DestroyLed(from, now1, now2, p, pdLimit, Now());
      victims := [p] + nested;
      FinishDestroy(was, p, torn, swept, PdRes(p), pds, nested);
      DestroyReported(was, p, torn, swept, pds, nested, old(spaces), sp, spaces, old(notices), told, notices);
      DestroyedForgotten(was, p, swept, pds, nested, spaces);
      LinkedAreDeleting(was, p, torn, swept, PdRes(p), pds);
      ReleaseKeepsBounded(swept, PdRes(p), zone, pdLimit);
      UnmanagedShrinks(sp, spaces, p);
      FewerKeys(sp, spaces);
      FewerTrans(old(spaces), sp, spaces);
    }

    /** Flag the PD as being destroyed, and do everything up to the sweep over the PD registry. */
    method Dismantle(p: PdId, ghost zone: set<PdId>)
      requires Ok() && NoneDeleting(spaces) && Bounded(pds, zone, pdLimit)
      requires p in pds && p != RT_PD_ID && !pds[p].deleting && p in zone
      requires pds[p].depth == 0 && PolicyOn(spaces)
      modifies this`pds, this`spaces, this`order, this`notices, this`homes, this`adss, this`destroyed
      ensures Ok() && NoneDeleting(spaces) && SpacesFewer(old(spaces), spaces)
      ensures homes == old(homes) * spaces.Keys && adss <= old(adss)
      ensures p in pds && pds[p].links == [] && PdsEvolve(Flagged(old(pds), p), pds) && Unmanaged(spaces, p)
      ensures pds.Keys == old(pds).Keys && destroyed == old(destroyed) + [p]
      ensures HoldsStay(Flagged(old(pds), p) - {p}, pds - {p}, spaces)
      ensures Reported(Flagged(old(pds), p), [p], old(spaces), spaces, old(notices), notices)
      ensures forall q :: q in pds && Linked(old(pds), p, q) ==> pds[q].toDelete
      ensures Bounded(pds, zone, pdLimit)
      ensures PolicyOn(spaces) && Led(Snap(Flagged(old(pds), p), old(spaces), old(adss)), Now(), pdLimit)
    {
      hide Inv, HomesOk, NoneDeleting, PdsEvolve, SpacesFewer, Unmanaged, Alive, Flagged, Linked, Bounded;
      hide HoldsStay, Reported, PolicyOn, Led;
      ghost var was := pds;
      FlagHomes(pds, spaces, homes, p);
      FlagStep(pds, spaces, order, p);
      FlagKeepsLinks(was, p, zone, pdLimit);
      pds := Flagged(pds, p);
      destroyed := destroyed + [p];
      Teardown(p, zone);
    }

    /** The PD loses its references to ADSs and everything that it holds. */
    method TakeHolds(p: PdId)
      requires Ok() && NoneDeleting(spaces) && p in pds && p != RT_PD_ID && pds[p].toDelete
      requires pds[p].depth == 0 && PolicyOn(spaces)
      modifies this`pds, this`spaces, this`order, this`notices, this`homes, this`adss
      ensures Ok() && NoneDeleting(spaces) && SpacesFewer(old(spaces), spaces)
      ensures homes == old(homes) * spaces.Keys && adss <= old(adss)
      ensures PdsKept(old(pds), pds) && p in pds && pds[p].holds == map[] && (pdLimit == 0 ==> SameMarks(old(pds), pds))
      ensures HoldsStay(old(pds) - {p}, pds - {p}, spaces)
      ensures Reported(old(pds), [p], old(spaces), spaces, old(notices), notices)
      ensures PolicyOn(spaces) && Led(old(Now()), Now(), pdLimit)
    {
      hide Inv, HomesOk, NoneDeleting, SpacesFewer, PdsKept, PdsCleaned, SameMarks, HoldsStay, Reported, SameFrees, PolicyOn, Led, Regular;
      ghost var pds0, spaces0, told0 := pds, spaces, notices;
      DropBoundAds();  // through the PD's CPU
      ghost var pds1, spaces1, told1, now1 := pds, spaces, notices, Now();
      InvIsRegular(pds, spaces, order, adss);
      DropBoundAds();  // the PD's own reference
      ghost var pds2, spaces2, told2, now2 := pds, spaces, notices, Now();
      InvIsRegular(pds, spaces, order, adss);
      TwoDrops(pds0, pds1, pds2, p);
      SameFreesTrans(told0, told1, told2);
      StayTrans(pds0, pds1, pds2, spaces1, spaces2);
      DestroyHolds(p);
      InvIsRegular(pds, spaces, order, adss);
      KeptTrans(pds0, pds2, pds);
      FewerKeys(spaces1, spaces2);
      FewerKeys(spaces2, spaces);
      FewerChain(spaces0, spaces1, spaces2, spaces);
      LedTogether(old(Now()), now1, now2, pdLimit);
      LedTogether(old(Now()), now2, Now(), pdLimit);
      FreesAreSame(notices);
      FewerSelf(spaces);
      ReportedBetween(pds0, pds2, p, spaces0, spaces2, spaces, spaces, told0, told2, notices, notices);
      StayMinus(pds0, pds2, p, spaces2);
      StayTrans(pds0 - {p}, pds2 - {p}, pds - {p}, spaces2, spaces);
    }

    /** Everything PdDestroy does before it sweeps the PD registry. */
    method Teardown(p: PdId, ghost zone: set<PdId>)
      requires Ok() && NoneDeleting(spaces) && Bounded(pds, zone, pdLimit)
      requires p in pds && p != RT_PD_ID && pds[p].toDelete && pds[p].deleting && p in zone
      requires pds[p].depth == 0 && PolicyOn(spaces)
      modifies this`pds, this`spaces, this`order, this`notices, this`homes, this`adss
      ensures Ok() && NoneDeleting(spaces) && SpacesFewer(old(spaces), spaces)
      ensures homes == old(homes) * spaces.Keys && adss <= old(adss)
      ensures p in pds && pds[p].links == [] && PdsEvolve(old(pds), pds) && Unmanaged(spaces, p)
      ensures pds.Keys == old(pds).Keys
      ensures HoldsStay(old(pds) - {p}, pds - {p}, spaces)
      ensures Reported(old(pds), [p], old(spaces), spaces, old(notices), notices)
      ensures forall q :: q in pds && Linked(old(pds), p, q) ==> pds[q].toDelete
      ensures Bounded(pds, zone, pdLimit)
      ensures PolicyOn(spaces) && Led(old(Now()), Now(), pdLimit)
    {
      hide Inv, HomesOk, NoneDeleting, PdsEvolve, SpacesFewer, Unmanaged, Linked, Bounded, CycleFree;
      hide PdsKept, PdsCleaned, SameMarks, LinkClosure, HoldsStay, Reported, SameFrees, PolicyOn, Led, Regular;
      ghost var pds0, spaces0, told0 := pds, spaces, notices;
      TakeHolds(p);
      ghost var pds1, spaces1, told1, now1 := pds, spaces, notices, Now();
      InvIsRegular(pds, spaces, order, adss);
      HoldsGone(pds0, pds1, p);
      BoundedKept(pds0, pds1, zone, pdLimit);
      BoundedIsCycleFree(pds1, zone, pdLimit, p);
      MarkAndSweep(p);
      InvIsRegular(pds, spaces, order, adss);
      LedTogether(old(Now()), now1, Now(), pdLimit);
      TeardownEnds(pds0, pds1, LinkClosure(pds1, p), pds, p);
      TeardownBounded(pds1, LinkClosure(pds1, p), pds, p, zone, pdLimit);
      HomesRegistered(pds, spaces, homes);
      FewerKeys(spaces1, spaces);
      FewerTrans(spaces0, spaces1, spaces);
      TeardownReported(pds0, p, spaces0, spaces1, spaces, told0, told1, notices);
      TeardownStays(pds0, pds1, LinkClosure(pds1, p), pds, p, spaces1, spaces);
    }

    /** Once a PD holds nothing, its links go, and then every space that it managed. */
    method MarkAndSweep(p: PdId)
      requires Ok() && NoneDeleting(spaces) && PolicyOn(spaces) && CycleFree(pds, p)
      requires p in pds && p != RT_PD_ID && pds[p].toDelete && pds[p].holds == map[]
      modifies this`pds, this`spaces, this`order, this`notices, this`homes, this`adss
      ensures Ok() && NoneDeleting(spaces) && homes == old(homes) && adss == old(adss)
      ensures SpacesFewer(old(spaces), spaces) && Unmanaged(spaces, p)
      ensures PdsCleaned(LinkClosure(old(pds), p), pds) && (pdLimit == 0 ==> SameMarks(LinkClosure(old(pds), p), pds))
      ensures HoldsStay(LinkClosure(old(pds), p), pds, spaces) && SameFrees(old(notices), notices)
      ensures PolicyOn(spaces) && Led(old(Now()), Now(), pdLimit)
    {
      hide Inv, HomesOk, SpacesFewer, Unmanaged, CycleFree, PdsCleaned, SameMarks, Sweep, LinkClosure, HoldsStay, SameFrees, SweepPds;
      hide PolicyOn, Led, Regular;
      ghost var now0 := Now();
      EmptyHandedManager(pds, spaces, order, p);
      MarkLinked(p);
      ghost var now1 := Now();
      InvIsRegular(pds, spaces, order, adss);
      LinksMarked(now0, p, pdLimit);
      SweepRelease(pds, spaces, order, spaceLimit, p);
      FewerSwept(spaces, order, spaceLimit);
      SpaceSweep();
      InvIsRegular(pds, spaces, order, adss);
      LedTogether(now0, now1, Now(), pdLimit);
    }

    /** Some ADS loses a reference: the ADS bound to a destroyed CPU, or the PD's own. */
    method DropBoundAds()
      requires Ok() && NoneDeleting(spaces) && PolicyOn(spaces)
      modifies this`pds, this`spaces, this`order, this`notices, this`homes, this`adss
      ensures Ok() && NoneDeleting(spaces)
      ensures homes == old(homes) * spaces.Keys && adss <= old(adss)
      ensures PdsCleaned(old(pds), pds) && SpacesFewer(old(spaces), spaces)
      ensures pdLimit == 0 ==> SameMarks(old(pds), pds)
      ensures HoldsStay(old(pds), pds, spaces) && SameFrees(old(notices), notices)
      ensures PolicyOn(spaces) && Led(old(Now()), Now(), pdLimit)
    {
      NothingCleaned(pds, spaces);
      HomesRegistered(pds, spaces, homes);
      hide Inv, HomesOk, Kill, AfterLoss, Thinned, PdsCleaned, SameMarks, HoldsStay, SameFrees, PolicyOn, Led, Regular;
      var last: bool, ads: SpaceId := *, *;
      ReservedSpaceIds(pds, spaces, order);
      ThinnedIsFewer(spaces, spaces);
      StaySame(pds, pds, spaces);
      FreesAreSame(notices);
      InvIsRegular(pds, spaces, order, adss);
      LedRefl(Now(), pdLimit);
      if last && ads in adss && ads !in CORE_SPACES {
        DropAds(ads);
        ThinnedIsFewer(old(spaces), spaces);
        LossLed(old(Now()), ads, pdLimit, spaceLimit, Now());
        LossStays(old(pds), old(spaces), ads, pdLimit, spaceLimit, pds, spaces);
      }
    }

    /** Delete `p` as the root of a deletion tree, as a request or the sweep does. */
    method DeleteAsRoot(p: PdId, ghost zone: set<PdId>) returns (ghost victims: seq<PdId>)
      requires Ok() && NoneDeleting(spaces) && Bounded(pds, zone, pdLimit)
      requires p in pds && p != RT_PD_ID && !pds[p].deleting && p in zone && PolicyOn(spaces)
      modifies this`pds, this`spaces, this`order, this`notices, this`homes, this`adss, this`destroyed
      decreases Alive(pds), 3
      ensures Ok() && NoneDeleting(spaces) && SpacesFewer(old(spaces), spaces)
      ensures homes == old(homes) * spaces.Keys && adss <= old(adss)
      ensures PdsEvolve(old(pds), pds) && Settled(pds) && p !in pds
      ensures Victims(old(pds), pds, victims) && destroyed == old(destroyed) + victims
      ensures HoldsStay(old(pds), pds, spaces) && Reported(old(pds), victims, old(spaces), spaces, old(notices), notices)
      ensures Bounded(pds, zone, pdLimit) && (forall q :: q in victims ==> q in zone) && RootForgot(pds, victims)
      ensures PolicyOn(spaces) && Led(Snap(AsRoot(old(pds), p), old(spaces), old(adss)), Now(), pdLimit)
    {
      hide Inv, HomesOk, NoneDeleting, PdsEvolve, Settled, Victims, SpacesFewer, Alive, Linked, Bounded, HoldsStay, Reported, RootForgot, PolicyOn, Led;
      ghost var was := pds;
      HomesAfterPd(pds, spaces, homes, p, pds[p].(depth := 0));
      DepthCleared(pds, spaces, order, p);
      DepthClearedBounded(pds, p, zone, pdLimit);
      pds := pds[p := pds[p].(depth := 0)];
      ghost var start := pds;
      SameAlive(was, p);
      assert Flagged(pds, p) == AsRoot(was, p);
      victims := DeletePd(p, zone);
      ShallowEvolves(was, p);
      EvolveTrans(was, start, pds);
      VictimsFrom(was, start, pds, victims);
      StaySame(was, start, old(spaces));
      StayTrans(was, start, pds, old(spaces), spaces);
      VictimsStart(start, pds, victims);
      ReportedFrom(was, start, victims, old(spaces), spaces, old(notices), notices);
    }

    /** One turn of the sweep; `first`, `s0` and `n0` are from before it, and `done` are the PDs gone so far. */
    method SweepPd(q: PdId, ghost zone: set<PdId>, ghost first: Pds, ghost done: seq<PdId>, ghost s0: Spaces, ghost n0: seq<Notice>,
                   ghost a0: set<SpaceId>)
      returns (ghost victims: seq<PdId>)
      requires Ok() && NoneDeleting(spaces) && Bounded(pds, zone, pdLimit)
      requires PdsEvolve(first, pds) && Victims(first, pds, done) && SpacesFewer(s0, spaces)
      requires HoldsStay(first, pds, spaces) && Reported(first, done, s0, spaces, n0, notices)
      requires PolicyOn(spaces) && Led(Snap(first, s0, a0), Now(), pdLimit) && RootForgot(pds, done)
      modifies this`pds, this`spaces, this`order, this`notices, this`homes, this`adss, this`destroyed
      decreases Alive(pds), 4
      ensures Ok() && NoneDeleting(spaces) && Bounded(pds, zone, pdLimit) && forall p :: p in victims ==> p in zone
      ensures homes == old(homes) * spaces.Keys && adss <= old(adss) && spaces.Keys <= old(spaces).Keys && destroyed == old(destroyed) + victims
      ensures PdsEvolve(first, pds) && Victims(first, pds, done + victims) && SpacesFewer(s0, spaces)
      ensures HoldsStay(first, pds, spaces) && Reported(first, done + victims, s0, spaces, n0, notices)
      ensures PolicyOn(spaces) && Led(Snap(first, s0, a0), Now(), pdLimit) && RootForgot(pds, done + victims)
      ensures forall p :: Due(pds, p) ==> Due(old(pds), p) && p != q
    {
      hide Inv, HomesOk, NoneDeleting, PdsEvolve, Victims, SpacesFewer, Alive, Linked, Bounded, HoldsStay, Reported, PolicyOn, Led, Regular, RootForgot;
      victims := [];
      assert done + victims == done;
      HomesRegistered(pds, spaces, homes);
      if Due(pds, q) {
        ghost var before, sp, told := pds, spaces, notices;
        MarkedIsBounded(pds, spaces, order, q, zone, pdLimit);
        ghost var from := Now();
        InvIsRegular(pds, spaces, order, adss);
        victims := DeleteAsRoot(q, zone);
        InvIsRegular(pds, spaces, order, adss);
        RootLed(Snap(first, s0, a0), from, q, Now(), pdLimit);
        AllForgotten(before, pds, done, victims, spaces);
        SweepTurn(first, before, pds, done, victims);
        SweepTurnReported(first, before, pds, done, victims, s0, sp, spaces, n0, told, notices);
        FewerKeys(sp, spaces);
        FewerTrans(s0, sp, spaces);
      }
    }

    /** pd_component_sweep: destroy every PD that is marked and not already being destroyed. */
    method PdSweep(ghost zone: set<PdId>) returns (ghost victims: seq<PdId>)
      requires Ok() && NoneDeleting(spaces) && Bounded(pds, zone, pdLimit) && PolicyOn(spaces)
      modifies this`pds, this`spaces, this`order, this`notices, this`homes, this`adss, this`destroyed
      decreases Alive(pds), 5
      ensures Ok() && NoneDeleting(spaces) && SpacesFewer(old(spaces), spaces)
      ensures homes == old(homes) * spaces.Keys && adss <= old(adss)
      ensures PdsEvolve(old(pds), pds) && Settled(pds)
      ensures Victims(old(pds), pds, victims) && destroyed == old(destroyed) + victims
      ensures HoldsStay(old(pds), pds, spaces) && Reported(old(pds), victims, old(spaces), spaces, old(notices), notices)
      ensures Bounded(pds, zone, pdLimit) && (forall q :: q in victims ==> q in zone) && RootForgot(pds, victims)
      ensures PolicyOn(spaces) && Led(old(Now()), Now(), pdLimit)
    {
      hide Inv, HomesOk, NoneDeleting, PdsEvolve, Victims, SpacesFewer, Alive, Linked, Bounded, HoldsStay, Reported, PolicyOn, Led, Regular;
      victims := [];
      SweepStarts(pds, spaces);
      StaySame(pds, pds, spaces);
      FreesAreSame(notices);
      NothingReported(pds, spaces, spaces, notices, notices);
      HomesRegistered(pds, spaces, homes);
      LedRefl(Now(), pdLimit);
      InvIsRegular(pds, spaces, order, adss);
      var todo := pds.Keys;
      while todo != {}
        invariant Ok() && NoneDeleting(spaces) && SpacesFewer(old(spaces), spaces)
        invariant homes == old(homes) * spaces.Keys && adss <= old(adss)
        invariant PdsEvolve(old(pds), pds)
        invariant Victims(old(pds), pds, victims) && destroyed == old(destroyed) + victims
        invariant HoldsStay(old(pds), pds, spaces)
        invariant Reported(old(pds), victims, old(spaces), spaces, old(notices), notices)
        invariant forall q :: Due(pds, q) ==> q in todo
        invariant Bounded(pds, zone, pdLimit) && forall q :: q in victims ==> q in zone
        invariant PolicyOn(spaces) && Led(old(Now()), Now(), pdLimit) && RootForgot(pds, victims)
        decreases |todo|
      {
        var q :| q in todo;
        todo := todo - {q};
        EvolveAlive(old(pds), pds);
        ghost var more := SweepPd(q, zone, old(pds), victims, old(spaces), old(notices), old(adss));
        victims := victims + more;
      }
      NoneDue(pds);
    }

    // ===== requests =====

    /** Holds between any two requests: no destruction is under way. */
    ghost predicate Idle()
      reads this
    {
      Ok() && NoneDeleting(spaces) && PolicyOn(spaces) && NoneDying(pds) && deferred == answered + Waiting(sender)
    }

    /** Holds then unless a request has left a PD marked; the next termination restores it. */
    ghost predicate Valid()
      reads this
    {
      Idle() && NoMarked(pds)
    }

    /**
     * Terminate or exit: destroy `p` and all that has to go with it, which includes every PD that an
     * earlier request left marked.  Afterwards no PD is left marked, and the destroy body has run
     * exactly once for each PD that disappeared.  No cycle of links may be among the PDs that may go.
     */
    method Terminate(p: PdId) returns (error: bool, ghost victims: seq<PdId>)
      requires Idle() && p != RT_PD_ID
      requires p in pds ==> forall c :: c in Zone(pds, p, pdLimit) ==> !Linked(pds, c, c)
      modifies this`pds, this`spaces, this`order, this`notices, this`homes, this`adss, this`destroyed
      ensures Idle() && NoNewCycles(old(pds), pds)
      ensures error <==> p !in old(pds)
      ensures error ==> pds == old(pds) && spaces == old(spaces) && order == old(order) && victims == []
      ensures !error ==> Valid() && p in victims
      ensures p !in pds && pds.Keys <= old(pds).Keys && SpacesFewer(old(spaces), spaces)
      ensures homes == old(homes) * spaces.Keys && adss <= old(adss)
      ensures Victims(old(pds), pds, victims) && destroyed == old(destroyed) + victims
      ensures Reported(old(pds), victims, old(spaces), spaces, old(notices), notices)
      ensures forall s :: s in spaces ==> spaces[s].manager in pds
      ensures RootForgot(pds, victims)
      ensures !error ==> UsersGone(old(Now()), p, Now(), pdLimit)
      ensures !error ==> OnlyForCause(old(Now()), p, victims, Now())
      ensures !error ==> forall q :: Fated(old(pds), p, q) ==> q !in pds
      ensures forall q :: Linked(old(pds), p, q) ==> q !in pds
      ensures !error && pdLimit == 0 ==> forall q :: q in victims <==> q in old(pds) && Fated(old(pds), p, q)
      ensures !error && pdLimit == 0 && old(Valid()) ==> forall q :: q in victims <==> q == p || Linked(old(pds), p, q)
    {
      hide Inv, HomesOk, SpacesFewer, Alive, Linked, Bounded, Confined, CycleFree, Fated, NoNewCycles, PdsEvolve, Reported, HoldsStay, PolicyOn, Led, Regular, RootForgot, UsersGone, OnlyForCause, Victims, NoneDeleting;
      SweepStarts(pds, spaces);
      ManagersRegistered(pds, spaces, order);
      ghost var from := Now();
      HomesRegistered(pds, spaces, homes);
      if p !in pds {
        NothingLinked(pds, p);
        NoneForgotten(pds, spaces, order);
        SameLinksNoNewCycles(pds, pds);
        FreesAreSame(notices);
        NothingReported(pds, spaces, spaces, notices, notices);
        return true, [];
      }
      error := false;
      ghost var was := pds;
      ghost var zone := Zone(pds, p, pdLimit);
      ZoneBounded(pds, p, pdLimit);
      victims := DeleteAsRoot(p, zone);
      AllSettled(was, pds);
      ManagersRegistered(pds, spaces, order);
      LedInTheEnd(from, p, victims, pdLimit, Now());
      AllGone(was, pds, p, victims, pdLimit);
    }

    /** A new PD, registered under an unused ID and held by the client that asked for it, if that is registered. */
    method AllocatePd(client: PdId, p: PdId) returns (error: bool)
      requires Idle() && p !in pds
      modifies this`pds, this`cores
      ensures cores == old(cores) - {p}
      ensures p in pds && pds[p].links == [] && !pds[p].toDelete && !pds[p].deleting && pds[p].depth == 0
      ensures |pds[p].rde| == KIND_MAX && forall t :: 0 <= t < KIND_MAX ==> |pds[p].rde[t]| == 8
      ensures forall t, i :: 0 <= t < KIND_MAX && 0 <= i < 8 ==> pds[p].rde[t][i].kind == KIND_NONE
      ensures client != p ==> pds[p].holds == map[]
      ensures Idle() && (old(Valid()) ==> Valid()) && NoNewCycles(old(pds), pds)
      ensures error <==> client !in old(pds) && client != p
      ensures pds == var wider := old(pds)[p := NEW_PD];
                     if client in wider then wider[client := Acquire(wider[client], PdRes(p))] else wider
      ensures !error ==>
                var wider := old(pds)[p := NEW_PD]; Recounted(wider, pds, client, PdRes(p), Refs(wider[client], PdRes(p)) + 1)
    {
      hide Inv, HomesOk, NoNewCycles, Recounted, Refs;
      CoreSpaceRegistered(pds, spaces, order, PD_SPACE_ID);
      NewPdKeepsInv(pds, spaces, order, p);
      NewPdClosesNoCycle(pds, p);
      HomesAfterNew(pds, spaces, homes, p);
      pds := pds[p := NEW_PD];
      cores := cores - {p};
      error := client !in pds;
      if client in pds {
        Give(client, PdRes(p));
        NoNewCyclesTrans(old(pds), old(pds)[p := NEW_PD], pds);
      }
    }

    /** Link `child` to `p`.  The root task's own PD is never named by a capability. */
    method LinkChild(p: PdId, child: PdId) returns (error: bool)
      requires Idle() && p != RT_PD_ID && child != RT_PD_ID
      modifies this`pds
      ensures Idle() && (old(Valid()) ==> Valid())
      ensures error <==> p !in old(pds) || child !in old(pds)
      ensures pds == if error then old(pds) else AddLink(old(pds), p, child)
      ensures !error ==> pds == old(pds)[p := old(pds)[p].(links := old(pds)[p].links + [child])]
      ensures !error && Acyclic(old(pds)) ==> (Acyclic(pds) <==> child != p && !Linked(old(pds), child, p))
      ensures !error ==> forall q ::
                CycleFree(pds, q) <==>
                CycleFree(old(pds), q) && (q == p || Linked(old(pds), q, p) ==> Harmless(old(pds), p, child))
    {
      hide Inv, HomesOk, Acyclic, Linked, CycleFree, Harmless;
      if p !in pds || child !in pds {
        return true;
      }
      error := false;
      if Acyclic(pds) {
        AddLinkAcyclicIff(pds, p, child);
      }
      forall q { AddLinkCycleFreeIff(pds, p, child, q); }
      AddLinkKeepsInv(pds, spaces, order, p, child);
      LinkHomes(pds, spaces, homes, p, child);
      pds := AddLink(pds, p, child);
    }

    // ----- resources -----

    /** A resource server adds resource `obj` to a space it manages. */
    method CreateResource(server: PdId, s: SpaceId, obj: ObjId) returns (error: bool)
      requires Idle() && s !in CORE_SPACES
      modifies this`pds
      ensures Idle() && (old(Valid()) ==> Valid()) && NoNewCycles(old(pds), pds)
      ensures error <==> s !in spaces || server !in old(pds)
      ensures pds == if error then old(pds)
                     else old(pds)[server := Acquire(old(pds)[server], ResId(spaces[s].kind, s, obj))]
      ensures !error ==> var r := ResId(spaces[s].kind, s, obj); Recounted(old(pds), pds, server, r, Refs(old(pds)[server], r) + 1)
    {
      hide Inv, HomesOk, NoNewCycles, NoMarked, NoneDying, NoneDeleting, Givable, Recounted, Refs;
      SameLinksNoNewCycles(pds, pds);
      if s !in spaces || server !in pds {
        return true;
      }
      error := false;
      SpaceOwnIsGivable(pds, spaces, order, s, obj);
      Give(server, ResId(spaces[s].kind, s, obj));
    }

    method Give(to: PdId, r: ResId)
      requires Idle() && to in pds && Givable(r, spaces)
      requires r.kind == KIND_RESSPC && to != RT_PD_ID ==> r.obj !in homes
      modifies this`pds
      ensures Idle() && (old(Valid()) ==> Valid()) && NoNewCycles(old(pds), pds)
      ensures pds == old(pds)[to := Acquire(old(pds)[to], r)]
      ensures Recounted(old(pds), pds, to, r, Refs(old(pds)[to], r) + 1)
    {
      hide Inv, HomesOk, NoNewCycles;
      AcquireCounts(pds[to], r);
      HomesAfterGain(pds, spaces, homes, to, r);
      AcquireKeepsInv(pds, spaces, order, to, r);
      SameLinksNoNewCycles(pds, pds[to := Acquire(pds[to], r)]);
      pds := pds[to := Acquire(pds[to], r)];
    }

    /** A resource server gives a resource that it holds to another PD. */
    method GiveResource(server: PdId, to: PdId, s: SpaceId, obj: ObjId) returns (error: bool)
      requires Idle() && server != RT_PD_ID
      modifies this`pds
      ensures Idle() && (old(Valid()) ==> Valid()) && NoNewCycles(old(pds), pds)
      ensures error <==> server !in old(pds) || to !in old(pds) || s !in spaces
                         || ResId(spaces[s].kind, s, obj) !in old(pds)[server].holds
      ensures pds == if error then old(pds)
                     else old(pds)[to := Acquire(old(pds)[to], ResId(spaces[s].kind, s, obj))]
      ensures !error ==> var r := ResId(spaces[s].kind, s, obj); Recounted(old(pds), pds, to, r, Refs(old(pds)[to], r) + 1)
    {
      hide Inv, HomesOk, NoNewCycles, Recounted, Refs;
      SameLinksNoNewCycles(pds, pds);
      if server !in pds || to !in pds || s !in spaces || ResId(spaces[s].kind, s, obj) !in pds[server].holds {
        return true;
      }
      error := false;
      HeldIsGivable(pds, spaces, order, server, ResId(spaces[s].kind, s, obj));
      HeldIsNoHome(pds, spaces, homes, server, ResId(spaces[s].kind, s, obj));
      Give(to, ResId(spaces[s].kind, s, obj));
    }

    /**
     * A PD sends a resource it holds; the badge of the sent capability names that resource.  A
     * resource of another server's space is reported to that server, whose PD is always registered,
     * and one such sending excludes the next until the server answers.  Only a marked PD may still
     * hold a resource of a space that is gone.
     */
    method SendCap(from: PdId, to: PdId, r: ResId) returns (error: bool)
      requires Idle() && from != RT_PD_ID && (from in pds ==> r in pds[from].holds)
      modifies this`pds, this`notices, this`sender, this`deferred
      ensures Idle() && (old(Valid()) ==> Valid()) && NoNewCycles(old(pds), pds)
      ensures error <==> from !in old(pds) || to !in old(pds)
                         || (r.kind !in {KIND_ADS, KIND_MO, KIND_CPU, KIND_PD, KIND_EP} && (old(sender).Some? || r.space !in spaces))
      ensures LivePd(old(pds), from) ==> r.space in spaces
      ensures pds == if error then old(pds) else old(pds)[to := Acquire(old(pds)[to], r)]
      ensures !error ==> Recounted(old(pds), pds, to, r, Refs(old(pds)[to], r) + 1)
      ensures sender == if !error && SentByServer(r.kind) then Some(from) else old(sender)
      ensures deferred == old(deferred) + if !error && SentByServer(r.kind) then [from] else []
      ensures error || !SentByServer(r.kind) ==> notices == old(notices)
      ensures !error && SentByServer(r.kind) ==>
                spaces[r.space].manager in old(pds) && notices == old(notices) + [Sent(spaces[r.space].manager, r, to)]
    {
      hide Inv, HomesOk, NoNewCycles, NoMarked, NoneDying, NoneDeleting, Givable, Recounted, Refs;
      if from in pds {
        HeldIsGivable(pds, spaces, order, from, r);
        SpaceOfHeld(pds, spaces, order, from, r);
      }
      SameLinksNoNewCycles(pds, pds);
      if from !in pds || to !in pds {
        return true;
      }
      if SentByServer(r.kind) {
        if sender.Some? || r.space !in spaces {
          return true;
        }
        notices := notices + [Sent(spaces[r.space].manager, r, to)];
        sender := Some(from);
        deferred := deferred + [from];
      }
      error := false;
      HeldIsNoHome(pds, spaces, homes, from, r);
      Give(to, r);
    }

    /** Some server reports that it has noted a sent resource: the sender that waits, if any, is answered. */
    method FinishSend() returns (reply: Option<PdId>)
      requires Idle()
      modifies this`sender, this`answered
      ensures Idle() && (old(Valid()) ==> Valid()) && sender == None
      ensures reply == old(sender) && answered == old(answered) + Waiting(reply)
      ensures answered == deferred
    {
      reply := sender;
      answered := answered + Waiting(sender);
      sender := None;
    }

    /**
     * pd_set_core_cap: an ADS or CPU sent as a core capability replaces the old one, whose reference is
     * dropped, with the same consequences as disconnecting from it.  A fault handler is never replaced.
     */
    method ReplaceCoreCap(p: PdId, kind: Kind, obj: ObjId, dying: Option<SpaceId>) returns (error: bool)
      requires Idle() && p in pds && (dying.Some? ==> Replaces(cores, p, kind) && CanDie(ReplacedCap(cores, p, kind), dying)) && Among(dying, adss)
      modifies this`pds, this`spaces, this`order, this`notices, this`homes, this`adss, this`cores
      ensures Idle() && NoNewCycles(old(pds), pds)
      ensures error <==> kind !in {KIND_ADS, KIND_PD, KIND_CPU, KIND_EP} || (kind == KIND_EP && p in old(cores) && old(cores)[p].fault)
      ensures cores == if error then old(cores) else old(cores)[p := WithCore(CoreOf(old(cores), p), kind, obj)]
      ensures !error ==>
                var c := if p in old(cores) then old(cores)[p] else CoreCaps(0, 0, 0, false);
                p in cores && cores[p] == if kind == KIND_ADS then c.(ads := obj) else if kind == KIND_PD then c.(pd := obj)
                                          else if kind == KIND_CPU then c.(cpu := obj) else c.(fault := true)
      ensures SameMarks(old(pds), pds) <==> !(dying.Some? && LossMarks(old(pds), old(spaces), dying.value, pdLimit))
      ensures Valid() <==> old(Valid()) && SameMarks(old(pds), pds)
      ensures pdLimit == 0 || (dying.Some? && dying.value in old(homes)) ==> SameMarks(old(pds), pds)
      ensures LosesSpace(old(spaces), dying) ==>
                RT_PD_ID in old(pds) && old(spaces)[dying.value].manager in old(pds) &&
                pds == AfterLoss(old(pds), old(spaces), dying.value, pdLimit) &&
                spaces == Kill(old(spaces), dying.value, spaceLimit)
      ensures !LosesSpace(old(spaces), dying) ==> pds == old(pds) && spaces == old(spaces)
      ensures homes == Without1(old(homes), dying) && adss == Without1(old(adss), dying)
    {
      hide Inv, HomesOk, NoNewCycles, NoMarked, NoneDying, SameMarks, Thinned, LossMarks, Kill, AfterLoss, PolicyOn;
      NothingCleaned(pds, spaces);
      SameLinksNoNewCycles(pds, pds);
      var caps := CoreOf(cores, p);
      var oldId := 0;
      error := false;
      if kind == KIND_ADS {
        oldId := caps.ads;
        cores := cores[p := caps.(ads := obj)];
      } else if kind == KIND_PD {
        cores := cores[p := caps.(pd := obj)];
      } else if kind == KIND_CPU {
        oldId := caps.cpu;
        cores := cores[p := caps.(cpu := obj)];
      } else if kind == KIND_EP && !caps.fault {
        cores := cores[p := caps.(fault := true)];
      } else {
        error := true;
      }
      if oldId > 0 && dying.Some? {
        LossFacts(pds, spaces, order, homes, dying.value, pdLimit);
        ghost var sp := spaces;
        DropAds(dying.value);
        if dying.value in sp { KillKeepsPolicy(sp, dying.value, spaceLimit); }
        CleanedLinks(old(pds), pds);
      }
      MarksGrow(old(pds), pds);
    }

    /** A resource server deletes one of its resources everywhere. */
    method DeleteResource(s: SpaceId, obj: ObjId) returns (error: bool)
      requires Idle() && s !in CORE_SPACES
      modifies this`pds, this`spaces, this`order, this`notices, this`homes, this`adss
      ensures Idle() && (old(Valid()) ==> Valid()) && NoNewCycles(old(pds), pds)
      ensures error <==> s !in old(spaces)
      ensures homes == old(homes) && adss == old(adss) && spaces == old(spaces) && order == old(order)
      ensures pds == if error then old(pds) else ReleaseAll(old(pds), ResId(old(spaces)[s].kind, s, obj))
      ensures !error ==>
                var r := ResId(old(spaces)[s].kind, s, obj);
                pds.Keys == old(pds).Keys && forall q :: q in pds ==>
                  if Exempt(q, old(pds)[q]) then pds[q] == old(pds)[q]
                  else Counts(old(pds)[q], pds[q], r, if Refs(old(pds)[q], r) > 0 then Refs(old(pds)[q], r) - 1 else 0)
    {
      hide Inv, HomesOk, NoNewCycles, Release, NoneDeleting;
      SameLinksNoNewCycles(pds, pds);
      if s !in spaces {
        return true;
      }
      error := false;
      ManagedKind(pds, spaces, order, s);
      ghost var was := pds;
      ResourceCleanup(ResId(spaces[s].kind, s, obj));
      ReleaseAllCounts(was, ResId(spaces[s].kind, s, obj));
      ReleaseAllKeepsShape(was, ResId(spaces[s].kind, s, obj));
    }

    /** A resource server revokes one of its resources from one PD. */
    method RevokeResource(s: SpaceId, obj: ObjId, target: PdId) returns (error: bool)
      requires Idle() && s !in CORE_SPACES
      modifies this`pds, this`spaces, this`order, this`notices, this`homes, this`adss
      ensures Idle() && (old(Valid()) ==> Valid()) && NoNewCycles(old(pds), pds)
      ensures error <==> s !in old(spaces) || target !in old(pds)
      ensures homes == old(homes) && adss == old(adss) && spaces == old(spaces) && order == old(order)
      ensures pds == if error then old(pds)
                     else old(pds)[target := Release(old(pds)[target], ResId(old(spaces)[s].kind, s, obj))]
      ensures !error ==>
                var r := ResId(old(spaces)[s].kind, s, obj);
                Recounted(old(pds), pds, target, r, if Refs(old(pds)[target], r) > 0 then Refs(old(pds)[target], r) - 1 else 0)
    {
      hide Inv, HomesOk, NoNewCycles, Release, NoneDeleting;
      SameLinksNoNewCycles(pds, pds);
      if s !in spaces || target !in pds {
        return true;
      }
      error := false;
      ManagedKind(pds, spaces, order, s);
      var r := ResId(spaces[s].kind, s, obj);
      ReleaseKeepsShape(pds[target], r);
      SameLinksNoNewCycles(pds, pds[target := Release(pds[target], r)]);
      if target == RT_PD_ID {
        // the root task's hold is unlinked without any callback effect
        ReleaseCounts(pds[target], r);
        ReleasedKeys(pds[target], r);
        HomesAfterPd(pds, spaces, homes, target, Release(pds[target], r));
        RootReleaseKeepsInv(pds, spaces, order, Release(pds[target], r));
        pds := pds[target := Release(pds[target], r)];
      } else {
        RemoveResource(target, r);
      }
    }

    /**
     * A client disconnects from an ADS or CPU.  When this ends an ADS, its VMR space goes without
     * any sweep afterwards, so a further PD is left marked exactly if the policy of that space is on and
     * some live PD within the depth depends on it.  That never happens to the VMR space of an ADS in `homes`.
     */
    method DropCore(p: PdId, r: ResId, dying: Option<SpaceId>) returns (error: bool)
      requires Idle() && p != RT_PD_ID && DropsAds(r.kind) && CanDie(r, dying) && Among(dying, adss)
      modifies this`pds, this`spaces, this`order, this`notices, this`homes, this`adss
      ensures Idle() && NoNewCycles(old(pds), pds)
      ensures error <==> p !in old(pds)
      ensures SameMarks(old(pds), pds) <==>
                !(LastHold(old(pds), p, r) && dying.Some? && LossMarks(old(pds), old(spaces), dying.value, pdLimit))
      ensures Valid() <==> old(Valid()) && SameMarks(old(pds), pds)
      ensures pdLimit == 0 || (dying.Some? && dying.value in old(homes)) ==> SameMarks(old(pds), pds)
      ensures LastHold(old(pds), p, r) && LosesSpace(old(spaces), dying) ==>
                RT_PD_ID in old(pds) && old(spaces)[dying.value].manager in old(pds) &&
                (var after := AfterLoss(old(pds), old(spaces), dying.value, pdLimit);
                 p in after && pds == after[p := Unlink(after[p], r)]) &&
                spaces == Kill(old(spaces), dying.value, spaceLimit)
      ensures LastHold(old(pds), p, r) ==> p in pds && r !in pds[p].holds
      ensures !(LastHold(old(pds), p, r) && LosesSpace(old(spaces), dying)) ==> spaces == old(spaces)
      ensures !(LastHold(old(pds), p, r) && LosesSpace(old(spaces), dying)) ==>
                pds == if p in old(pds) then old(pds)[p := Release(old(pds)[p], r)] else old(pds)
      ensures homes == if LastHold(old(pds), p, r) then Without1(old(homes), dying) else old(homes)
      ensures adss == if LastHold(old(pds), p, r) then Without1(old(adss), dying) else old(adss)
    {
      hide Inv, HomesOk, NoNewCycles, NoMarked, NoneDying, SameMarks, Thinned, LossMarks, Kill, AfterLoss, PdsKept, PolicyOn;
      if dying.Some? { LossFacts(pds, spaces, order, homes, dying.value, pdLimit); }
      ghost var was := pds;
      NothingCleaned(pds, spaces);
      KeptRefl(pds);
      if p !in pds {
        SameLinksNoNewCycles(pds, pds);
        MarksGrow(pds, pds);
        return true;
      }
      error := false;
      if r in pds[p].holds {
        if pds[p].holds[r] == 1 {
          DeleteHold(p, r, dying);
          if LosesSpace(old(spaces), dying) {
            KillKeepsPolicy(old(spaces), dying.value, spaceLimit);
            UnlinkKeepsMarks(was, AfterLoss(was, old(spaces), dying.value, pdLimit), p, r);
          } else {
            UnlinkKeepsMarks(was, was, p, r);
          }
        } else {
          ReleasedKeys(pds[p], r);
          HomesAfterPd(pds, spaces, homes, p, Release(pds[p], r));
          ReleaseKeepsInv(pds, spaces, order, p, r, Release(pds[p], r));
          ReleasedIsKept(pds, p, r);
          pds := pds[p := Release(pds[p], r)];
        }
      }
      KeptLinks(was, pds);
      MarksGrow(was, pds);
    }

    // ----- request edges -----

    /**
     * Copy a request edge from one PD to another.  The row of a marked PD may name a space that is
     * gone; if its ID has been given to a space of another type, the invariant is broken.
     */
    method ShareRde(from: PdId, to: PdId, kind: Kind, s: SpaceId) returns (error: bool)
      requires Idle() && from != RT_PD_ID && to != RT_PD_ID && kind < KIND_MAX
      modifies this`pds
      ensures NoNewCycles(old(pds), pds)
      ensures Idle() <==> !Outdated(old(pds), spaces, from, to, kind, s)
      ensures LivePd(old(pds), from) ==> Idle()
      ensures old(Valid()) ==> Valid()
      ensures from !in old(pds) || to !in old(pds) ==> error && pds == old(pds)
      ensures from in old(pds) && to in old(pds) ==> kind < |old(pds)[from].rde| && kind < |old(pds)[to].rde|
      ensures from in old(pds) && to in old(pds) ==>
                var source, target := old(pds)[from].rde[kind], old(pds)[to].rde[kind];
                if !Found(source, kind, s) then error && pds == old(pds)
                else if Found(target, kind, s) then !error && pds == old(pds)
                else
                  var x := source[FirstHit(source, kind, s)].space;
                  if x in spaces then pds == old(pds)[to := AddRde(old(pds)[to], kind, x)] && (error <==> pds == old(pds))
                  else error && pds == old(pds)
    {
      hide Inv, HomesOk, NoNewCycles, Refuses, NoneDying, NoneDeleting;
      SameLinksNoNewCycles(pds, pds);
      if from !in pds || to !in pds {
        return true;
      }
      RowsAreTyped(pds, spaces, order, from);
      RowsAreTyped(pds, spaces, order, to);
      ReservedSpaceIds(pds, spaces, order);
      var idx := FindIndex(pds[from].rde[kind], kind, s);
      if idx == -1 {
        return true;
      }
      var present := FindIndex(pds[to].rde[kind], kind, s);
      if present != -1 {
        return false;
      }
      var x := pds[from].rde[kind][idx].space;
      if x !in spaces {
        return true;
      }
      SharedEntryIsNew(pds[from].rde[kind], pds[to].rde[kind], kind, s, idx, spaces);
      if !pds[from].toDelete {
        LiveEntryIsSound(pds, spaces, order, from, kind, s, idx);
      }
      RefusesUnlisted(pds[to].rde[kind], kind, x);
      error := AddEdge(to, kind, x);
    }

    /**
     * pd_add_rde.  A live PD keeps its directory sound if its row does not list the pair yet and the
     * type is that of the space; nothing is asked of a marked one.
     */
    method AddEdge(p: PdId, kind: Kind, s: SpaceId) returns (error: bool)
      requires Idle() && p in pds && p != RT_PD_ID
      requires KIND_NONE < kind < KIND_MAX && s in spaces
      requires |pds[p].rde| == KIND_MAX && (pds[p].toDelete || !Lists(pds[p].rde[kind], kind, s))
      modifies this`pds
      ensures NoNewCycles(old(pds), pds)
      ensures Idle() <==> error || old(pds)[p].toDelete || spaces[s].kind == kind
      ensures Idle() && old(Valid()) ==> Valid()
      ensures pds == old(pds)[p := AddRde(old(pds)[p], kind, s)]
      ensures error <==> Refuses(old(pds)[p].rde[kind], kind, s)
      ensures error <==> pds == old(pds)
      ensures !error ==> Lists(pds[p].rde[kind], kind, s)
    {
      hide Inv, HomesOk, NoNewCycles, Insert, NoneDeleting, Refuses;
      var row;
      row, error := AddEntry(pds[p].rde[kind], kind, s);
      SameLinksNoNewCycles(pds, pds[p := AddRde(pds[p], kind, s)]);
      if !error {
        if pds[p].toDelete || spaces[s].kind == kind {
          AddRdeKeepsInv(pds, spaces, order, p, kind, s);
        } else {
          WrongTypeBreaksInv(pds[p := AddRde(pds[p], kind, s)], spaces, order, p, kind, s);
        }
        HomesAfterPd(pds, spaces, homes, p, pds[p].(rde := pds[p].rde[kind := row]));
        pds := pds[p := pds[p].(rde := pds[p].rde[kind := row])];
      } else {
        assert pds[p].rde[kind := row] == pds[p].rde;
        assert pds[p := AddRde(pds[p], kind, s)] == pds;
      }
    }

    method RemoveRde(p: PdId, kind: Kind, s: SpaceId) returns (error: bool)
      requires Idle() && p != RT_PD_ID && kind < KIND_MAX
      modifies this`pds
      ensures Idle() && (old(Valid()) ==> Valid()) && NoNewCycles(old(pds), pds)
      ensures pds == if p in old(pds) then old(pds)[p := DropRde(old(pds)[p], kind, s)] else old(pds)
      ensures p !in old(pds) ==> error
      ensures p in old(pds) ==> kind < |old(pds)[p].rde|
      ensures p in old(pds) ==>
                (error <==> kind != KIND_NONE && forall i :: 0 <= i < |old(pds)[p].rde[kind]| ==>
                              !RemoveHit(old(pds)[p].rde[kind][i], kind, s))
    {
      hide Inv, HomesOk, NoNewCycles, NoMarked, NoneDying, NoneDeleting, Remove, RemoveHit, PdsKept;
      SameLinksNoNewCycles(pds, pds);
      if p in pds { RowsPresent(pds, spaces, order, p); }
      if p !in pds {
        return true;
      }
      if kind == KIND_NONE {
        return false;
      }
      ghost var was := pds;
      DropAnyRdeKeepsInv(pds, spaces, order, p, kind, s);
      DropRdeKeepsMarks(pds, p, kind, s);
      var row, found := RemoveEntry(pds[p].rde[kind], kind, s);
      error := !found;
      HomesAfterPd(pds, spaces, homes, p, pds[p].(rde := pds[p].rde[kind := row]));
      pds := pds[p := pds[p].(rde := pds[p].rde[kind := row])];
      KeptLinks(was, pds);
      MarksGrow(was, pds);
    }

    // ----- spaces -----

    /**
     * A resource server creates a space; `client` receives the request edge.  The type is looked up by
     * name, and the names of the components' own types are found too: such a space breaks the invariant.
     */
    method CreateSpace(server: PdId, client: PdId, kind: Kind, s: SpaceId) returns (error: bool)
      requires Idle() && client != RT_PD_ID
      requires kind < KIND_MAX && s !in spaces && 0 < s < SPACE_ID_NULL
      modifies this`pds, this`spaces, this`order
      ensures Idle() <==> server !in old(pds) || client !in old(pds) || SpaceKind(kind)
      ensures old(Valid()) && Idle() ==> Valid()
      ensures NoNewCycles(old(pds), pds)
      ensures server !in old(pds) || client !in old(pds) ==>
                error && pds == old(pds) && spaces == old(spaces) && order == old(order)
      ensures server in old(pds) && client in old(pds) ==>
                spaces == old(spaces)[s := NewSpace(kind, server)] && order == old(order) + [s] &&
                spaces[s] == Space(kind, server, [], false, false, false, 0, false)
      ensures server in old(pds) && client in old(pds) ==>
                (error <==> NoSlot(old(pds), client, kind, s)) &&
                pds == WithEdge(Managing(old(pds), server, s), client, kind, s) && pds.Keys == old(pds).Keys
      ensures server in old(pds) && client in old(pds) && server != RT_PD_ID ==>
                Refs(pds[server], SpaceRes(s)) == Refs(old(pds)[server], SpaceRes(s)) + 1
      ensures !error ==> client in pds && kind < |pds[client].rde| && Lists(pds[client].rde[kind], kind, s)
      ensures LivePd(old(pds), client) && server in old(pds) && SpaceKind(kind) ==> (error <==> RowFull(old(pds), client, kind))
    {
      hide Inv, HomesOk, NoNewCycles, NoMarked, NoneDying, NoneDeleting, Acquire, Lists, NoSlot, RowFull, Managing, WithEdge, AddRde, Refs;
      SameLinksNoNewCycles(pds, pds);
      if server !in pds || client !in pds {
        return true;
      }
      RowsPresent(pds, spaces, order, client);
      SpaceCreated(pds, server, client, kind, s);
      if SpaceKind(kind) {
        NoSlotForNew(pds, server, spaces, order, client, kind, s);
        AddSpace(server, kind, s);
        ghost var held := pds;
        error := AddEdge(client, kind, s);
        NoNewCyclesTrans(old(pds), held, pds);
      } else {
        error := MisnamedSpace(server, client, kind, s);
      }
    }

    /** The same steps for a type that belongs to a component. */
    method MisnamedSpace(server: PdId, client: PdId, kind: Kind, s: SpaceId) returns (error: bool)
      requires Idle() && server in pds && client in pds && client != RT_PD_ID
      requires kind < KIND_MAX && !SpaceKind(kind) && s !in spaces
      modifies this`pds, this`spaces, this`order
      ensures !Idle() && NoNewCycles(old(pds), pds)
      ensures spaces == old(spaces)[s := NewSpace(kind, server)] && order == old(order) + [s]
      ensures error <==> NoSlot(old(pds), client, kind, s)
      ensures pds == WithEdge(Managing(old(pds), server, s), client, kind, s)
    {
      hide NoNewCycles, NoMarked, NoneDying, NoneDeleting, Acquire, Refuses;
      MisnamedBreaksInv(pds, spaces, order, WithEdge(Managing(pds, server, s), client, kind, s), spaces[s := NewSpace(kind, server)], s);
      RowsPresent(pds, spaces, order, client);
      hide Inv, HomesOk;
      EdgeOfManager(pds, server, client, kind, s);
      pds := Managing(pds, server, s);
      spaces := spaces[s := NewSpace(kind, server)];
      order := order + [s];
      var row;
      row, error := AddEntry(pds[client].rde[kind], kind, s);
      pds := pds[client := pds[client].(rde := pds[client].rde[kind := row])];
    }

    method AddSpace(m: PdId, kind: Kind, s: SpaceId)
      requires Idle() && m in pds && SpaceKind(kind) && s !in spaces && 0 < s < SPACE_ID_NULL
      modifies this`pds, this`spaces, this`order
      ensures Idle() && (old(Valid()) ==> Valid()) && NoNewCycles(old(pds), pds)
      ensures pds == Managing(old(pds), m, s)
      ensures spaces == old(spaces)[s := NewSpace(kind, m)] && order == old(order) + [s]
    {
      hide Inv, HomesOk, NoNewCycles, NoneDeleting;
      NewSpaceHomes(pds, spaces, homes, s, kind, m);
      NewSpaceKeepsInv(pds, spaces, order, s, kind, m);
      NewSpaceIdle(spaces, s, kind, m);
      SameLinksNoNewCycles(pds, Managing(pds, m, s));
      if m != RT_PD_ID {
        pds := pds[m := Acquire(pds[m], SpaceRes(s))];
      }
      spaces := spaces[s := NewSpace(kind, m)];
      order := order + [s];
    }

    /** create_vmr_space: the VMR space of a new ADS, a request edge for the client, and the map edge. */
    method CreateVmrSpace(client: PdId, s: SpaceId) returns (error: bool)
      requires Idle() && s !in spaces && 0 < s < SPACE_ID_NULL
      modifies this`pds, this`spaces, this`order, this`homes
      ensures Idle() && (old(Valid()) ==> Valid()) && NoNewCycles(old(pds), pds)
      ensures homes == old(homes) && HoldsShrink(old(pds), pds) && order == old(order) + [s] && s in spaces
      ensures RT_PD_ID in old(pds)
      ensures error <==> client !in old(pds) || NoSlot(old(pds), client, KIND_VMR, s)
      ensures pds == WithEdge(old(pds), client, KIND_VMR, s)
      ensures spaces == old(spaces)[s := NewSpace(KIND_VMR, RT_PD_ID).(maps := if error then [] else [MO_SPACE_ID])]
    {
      hide Inv, HomesOk, NoNewCycles, NoMarked, NoneDying, NoneDeleting, AddRde, Lists, NoFreeSlot, HoldsShrink;
      FreshIsNotCore(pds, spaces, order, s);
      HoldsShrinkRefl(pds);
      if client in pds && client != RT_PD_ID {
        NoSlotForNew(pds, RT_PD_ID, spaces, order, client, KIND_VMR, s);
      }
      AddSpace(RT_PD_ID, KIND_VMR, s);
      if client != RT_PD_ID {
        if client !in pds {
          return true;
        }
        EdgeKeepsHolds(pds, client, KIND_VMR, s);
        error := AddEdge(client, KIND_VMR, s);
        if error {
          return;
        }
      }
      assert NewSpace(KIND_VMR, RT_PD_ID).maps + [MO_SPACE_ID] == [MO_SPACE_ID];
      error := MapSpace(s, MO_SPACE_ID);
    }

    /**
     * A new ADS under the ID of its VMR space, held by the client and by the root task.  It fails only
     * for an unregistered client or one whose row for VMRs has no free slot, and then the new space stays.
     */
    method AllocateAds(client: PdId, s: SpaceId) returns (error: bool)
      requires Idle() && s !in spaces && 0 < s < SPACE_ID_NULL
      modifies this`pds, this`spaces, this`order, this`homes, this`adss
      ensures Idle() && (old(Valid()) ==> Valid()) && NoNewCycles(old(pds), pds)
      ensures homes == if error || HeldAsSpace(old(pds), s) then old(homes) else old(homes) + {s}
      ensures adss == if error then old(adss) else old(adss) + {s}
      ensures order == old(order) + [s] && s in spaces
      ensures RT_PD_ID in old(pds)
      ensures error <==> client !in old(pds) || NoSlot(old(pds), client, KIND_VMR, s)
      ensures pds == if error then old(pds) else WithAds(WithEdge(old(pds), client, KIND_VMR, s), client, s)
      ensures spaces == old(spaces)[s := NewSpace(KIND_VMR, RT_PD_ID).(maps := if error then [] else [MO_SPACE_ID])]
    {
      hide Inv, HomesOk, HeldAsSpace, HoldsShrink, NoNewCycles, NoMarked, NoneDying, NoneDeleting;
      hide Refuses, NoFreeSlot, AddRde;
      ghost var held := HeldAsSpace(pds, s);
      FreshIsNotCore(pds, spaces, order, s);
      error := CreateVmrSpace(client, s);
      CoreSpaceRegistered(pds, spaces, order, ADS_SPACE_ID);
      if error {
        RefusedEdge(old(pds), client, KIND_VMR, s);
        return;
      }
      if !held {
        NewHome(old(pds), pds, spaces, homes, s);
        homes := homes + {s};
      }
      adss := adss + {s};
      ghost var pds1 := pds;
      Give(RT_PD_ID, ResId(KIND_ADS, ADS_SPACE_ID, s));
      ghost var pds2 := pds;
      Give(client, ResId(KIND_ADS, ADS_SPACE_ID, s));
      NoNewCyclesTrans(pds1, pds2, pds);
      NoNewCyclesTrans(old(pds), pds1, pds);
    }

    /** Record that resources of space `s` may map to resources of space `t`. */
    method MapSpace(s: SpaceId, t: SpaceId) returns (error: bool)
      requires Idle() && s !in CORE_SPACES
      modifies this`spaces, this`homes
      ensures Idle() && (old(Valid()) ==> Valid())
      ensures homes == if error || t in CORE_SPACES then old(homes) else old(homes) - {s}
      ensures error <==> s !in old(spaces) || t !in old(spaces)
      ensures spaces == if error then old(spaces)
                        else old(spaces)[s := old(spaces)[s].(maps := old(spaces)[s].maps + [t])]
    {
      hide Inv, HomesOk;
      if s !in spaces || t !in spaces {
        return true;
      }
      error := false;
      AddMapKeepsInv(pds, spaces, order, s, t);
      if t in CORE_SPACES {
        MapHomes(pds, spaces, homes, s, t);
      } else {
        FewerHomes(pds, spaces, homes, homes - {s});
        homes := homes - {s};
        HomesAfterSpace(pds, spaces, homes, s, spaces[s].(maps := spaces[s].maps + [t]));
      }
      spaces := spaces[s := spaces[s].(maps := spaces[s].maps + [t])];
    }

    /** A resource server destroys one of its spaces: no cleanup policy, no notice back to it. */
    method DestroySpace(s: SpaceId) returns (error: bool)
      requires Idle() && s !in CORE_SPACES
      modifies this`pds, this`spaces, this`order, this`notices, this`homes, this`adss
      ensures Idle() && (old(Valid()) ==> Valid()) && NoNewCycles(old(pds), pds)
      ensures error <==> s !in old(spaces) || old(spaces)[s].toDelete
      ensures error ==> pds == old(pds) && spaces == old(spaces) && order == old(order)
      ensures !error ==> spaces == old(spaces) - {s} && order == Without(old(order), s)
      ensures homes == if error then old(homes) else old(homes) - {s}
      ensures adss == old(adss)
      ensures !error ==> RT_PD_ID in old(pds) && old(spaces)[s].manager in old(pds)
      ensures !error ==> pds == AfterLoss(old(pds), old(spaces)[s := Silenced(old(spaces)[s])], s, pdLimit)
      ensures !error ==> forall p, r :: LivePd(pds, p) && r in pds[p].holds ==> r.space != s
    {
      hide Inv, HomesOk, NoNewCycles, NoMarked, NoneDying, NoneDeleting, Kill, Thinned, PdsCleaned, SameMarks, CleanupSpace, Without, Silenced;
      SameLinksNoNewCycles(pds, pds);
      if s !in spaces || spaces[s].toDelete {
        return true;
      }
      error := false;
      ghost var was := pds;
      ManagerIsRegistered(pds, spaces, order, s);
      SilencedFacts(pds, spaces, order, homes, s, spaceLimit);
      spaces := spaces[s := Silenced(spaces[s])];
      homes := homes - {s};
      DeleteSpace(s);
      MarksGrow(was, pds);
      CleanedLinks(was, pds);
      SpaceForgotten(pds, spaces, order, s);
    }
  }

  function ReleaseAll(pds: Pds, r: ResId): (res: Pds)
    ensures res.Keys == pds.Keys
  {
    map q | q in pds :: if Exempt(q, pds[q]) then pds[q] else Release(pds[q], r)
  }

  lemma ReleaseAllCounts(pds: Pds, r: ResId)
    ensures forall q :: q in pds ==>
              if Exempt(q, pds[q]) then ReleaseAll(pds, r)[q] == pds[q]
              else Counts(pds[q], ReleaseAll(pds, r)[q], r, if Refs(pds[q], r) > 0 then Refs(pds[q], r) - 1 else 0)
  {
    forall q | q in pds {
      ReleaseCounts(pds[q], r);
    }
    hide Release, Counts;
  }

  lemma KeptRefl(a: Pds)
    ensures PdsKept(a, a) && SameMarks(a, a)
  {
  }

  lemma ReleasedKeys(pd: Pd, r: ResId)
    ensures Release(pd, r).holds.Keys <= pd.holds.Keys
  {
  }

  lemma StagedHomes(pds: Pds, spaces: Spaces, homes: set<SpaceId>, s: SpaceId, limit: int)
    requires HomesOk(pds, spaces, homes) && RT_PD_ID in pds && s in spaces && s !in CORE_SPACES && s !in homes
    ensures HomesOk(UnlinkFromRoot(pds, SpaceRes(s)), Staged(spaces, s, limit), homes)
  {
    hide HomesOk, MarkDependents;
    RootUnlinkHomes(pds, spaces, homes, SpaceRes(s));
    var flagged := spaces[s := spaces[s].(deleting := true)];
    HomesAfterSpace(UnlinkFromRoot(pds, SpaceRes(s)), spaces, homes, s, spaces[s].(deleting := true));
    HomesAfterMarking(UnlinkFromRoot(pds, SpaceRes(s)), flagged, homes, s, limit);
  }

  lemma RootUnlinkHomes(pds: Pds, spaces: Spaces, homes: set<SpaceId>, r: ResId)
    requires HomesOk(pds, spaces, homes) && RT_PD_ID in pds
    ensures HomesOk(UnlinkFromRoot(pds, r), spaces, homes)
  {
    HomesAfterPd(pds, spaces, homes, RT_PD_ID, Unlink(pds[RT_PD_ID], r));
  }

  lemma SafeHold(pds: Pds, spaces: Spaces, order: seq<SpaceId>, p: PdId, r: ResId)
    requires Inv(pds, spaces, order) && p in pds && p != RT_PD_ID && r in pds[p].holds
    ensures r.kind == KIND_ADS || r.kind == KIND_RESSPC ==> r.obj !in CORE_SPACES
  {
    assert PdOk(pds[p], spaces);
  }

  lemma LossStays(pds: Pds, spaces: Spaces, ads: SpaceId, pdLimit: int, spaceLimit: int, after: Pds, kept: Spaces)
    requires ads in spaces ==>
               RT_PD_ID in pds && spaces[ads].manager in pds && after == AfterLoss(pds, spaces, ads, pdLimit) &&
               kept == Kill(spaces, ads, spaceLimit)
    requires ads !in spaces ==> after == pds
    requires SPACE_ID_NULL !in spaces
    ensures HoldsStay(pds, after, kept)
  {
    hide CleanupSpace, HoldsStay;
    if ads in spaces {
      CleanupStays(pds, ads, spaces[ads], pdLimit, kept);
    } else {
      StaySame(pds, pds, kept);
    }
  }

  /** What a hold of `p` that is dropped takes from other PDs. */
  lemma HoldDropStays(before: Pds, spaces: Spaces, p: PdId, r: ResId, dying: Option<SpaceId>, pdLimit: int, spaceLimit: int,
                      after: Pds, kept: Spaces)
    requires p in before && SPACE_ID_NULL !in spaces
    requires LosesSpace(spaces, dying) ==>
               RT_PD_ID in before && spaces[dying.value].manager in before &&
               (var gone := AfterLoss(before, spaces, dying.value, pdLimit); p in gone && after == gone[p := Unlink(gone[p], r)]) &&
               kept == Kill(spaces, dying.value, spaceLimit)
    requires !LosesSpace(spaces, dying) ==> after == before[p := Unlink(before[p], r)]
    ensures HoldsStay(before - {p}, after - {p}, kept)
  {
    hide HoldsOfStay;
    if LosesSpace(spaces, dying) {
      LossStays(before, spaces, dying.value, pdLimit, spaceLimit, AfterLoss(before, spaces, dying.value, pdLimit), kept);
    } else {
      StaySame(before - {p}, after - {p}, kept);
    }
  }

  lemma HoldDropFewer(spaces: Spaces, r: ResId, policy: bool, kept: Spaces)
    requires DropsAds(r.kind) ==> Thinned(spaces, kept)
    requires !DropsAds(r.kind) ==> kept == if r.kind == KIND_RESSPC then MarkOne(spaces, r.obj, policy) else spaces
    ensures SpacesFewer(spaces, kept)
  {
  }

  /** The notices for the holds that PD `p` has lost so far. */
  ghost predicate Leaving(was: Pd, now: Pd, first: Spaces, spaces: Spaces, p: PdId, before: seq<Notice>, after: seq<Notice>) {
    now.holds.Keys <= was.holds.Keys &&
    forall m, r ::
      var lost := if r in was.holds && r !in now.holds then 1 else 0;
      && Told(before, m, r) <= Told(after, m, r) <= Told(before, m, r) + lost
      && (!ServedBy(first, r, m) ==> Told(after, m, r) == Told(before, m, r))
      && (ServedBy(spaces, r, m) && m != p ==> Told(after, m, r) == Told(before, m, r) + lost)
  }

  lemma LeavingStarts(pd: Pd, spaces: Spaces, p: PdId, notices: seq<Notice>)
    ensures Leaving(pd, pd, spaces, spaces, p, notices, notices)
  {
  }

  lemma HoldDropReported(was: Pd, before: Pds, first: Spaces, spaces: Spaces, kept: Spaces, p: PdId, r: ResId,
                         start: seq<Notice>, told: seq<Notice>, notices: seq<Notice>)
    requires p in before && p != RT_PD_ID && r in before[p].holds && before[p].toDelete
    requires Leaving(was, before[p], first, spaces, p, start, told)
    requires SpacesFewer(first, spaces) && SpacesFewer(spaces, kept)
    requires DropsAds(r.kind) ==> SameFrees(told, notices)
    requires !DropsAds(r.kind) ==> notices == told + FreeNotice(before, spaces, p, r)
    requires !DropsAds(r.kind) && r.kind != KIND_RESSPC ==> kept == spaces
    ensures Leaving(was, Unlink(before[p], r), first, kept, p, start, notices)
  {
    var now := Unlink(before[p], r);
    forall m, x
      ensures var lost := if x in was.holds && x !in now.holds then 1 else 0;
              && Told(start, m, x) <= Told(notices, m, x) <= Told(start, m, x) + lost
              && (!ServedBy(first, x, m) ==> Told(notices, m, x) == Told(start, m, x))
              && (ServedBy(kept, x, m) && m != p ==> Told(notices, m, x) == Told(start, m, x) + lost)
    {
      if ServedBy(kept, x, m) { StillServed(spaces, kept, x, m); }
      if ServedBy(spaces, x, m) { StillServed(first, spaces, x, m); }
      if DropsAds(r.kind) {
        assert Told(notices, m, x) == Told(told, m, x);
      } else {
        ToldMore(told, FreeNotice(before, spaces, p, r), m, x);
      }
    }
  }

  lemma AllHoldsLeft(was: Pds, pds: Pds, first: Spaces, spaces: Spaces, order: seq<SpaceId>, p: PdId,
                     before: seq<Notice>, after: seq<Notice>)
    requires p in was && p in pds && p != RT_PD_ID && pds[p].holds == map[] && Inv(pds, spaces, order)
    requires Leaving(was[p], pds[p], first, spaces, p, before, after)
    ensures Reported(was, [p], first, spaces, before, after)
  {
    EmptyHandedManager(pds, spaces, order, p);
    forall r ensures Lost(was, [p], r) == if r in was[p].holds then 1 else 0 {
      assert [p][1..] == [];
    }
    hide Told;
  }

  lemma TeardownStays(a: Pds, b: Pds, c: Pds, d: Pds, p: PdId, s1: Spaces, s2: Spaces)
    requires HoldsStay(a - {p}, b - {p}, s1) && c == LinkClosure(b, p) && HoldsStay(c, d, s2) && SpacesFewer(s1, s2)
    ensures HoldsStay(a - {p}, d - {p}, s2)
  {
    StaySame(b - {p}, c - {p}, s1);
    hide HoldsStay, SpacesFewer, LinkClosure;
    FewerSelf(s1);
    StayTrans(a - {p}, b - {p}, c - {p}, s1, s1);
    StayMinus(c, d, p, s2);
    StayTrans(a - {p}, c - {p}, d - {p}, s1, s2);
  }

  lemma TeardownReported(a: Pds, p: PdId, s0: Spaces, s1: Spaces, s2: Spaces, n0: seq<Notice>, n1: seq<Notice>, n2: seq<Notice>)
    requires Reported(a, [p], s0, s1, n0, n1) && SameFrees(n1, n2) && SpacesFewer(s0, s1) && SpacesFewer(s1, s2) && p in a
    ensures Reported(a, [p], s0, s2, n0, n2)
  {
    hide Reported, SpacesFewer, SameFrees;
    FewerSelf(s0);
    FreesAreSame(n0);
    ReportedBetween(a, a, p, s0, s0, s1, s2, n0, n0, n1, n2);
  }

  /** The root task, which holds every PD at first, no longer holds those that are gone. */
  ghost predicate RootForgot(pds: Pds, victims: seq<PdId>) {
    RT_PD_ID in pds && forall v :: v in victims ==> PdRes(v) !in pds[RT_PD_ID].holds
  }

  lemma StillForgotten(a: Pds, b: Pds, victims: seq<PdId>, spaces: Spaces)
    requires RootForgot(a, victims) && RT_PD_ID in b && HoldsStay(a, b, spaces)
    ensures RootForgot(b, victims)
  {
    assert HoldsOfStay(a[RT_PD_ID], b[RT_PD_ID], spaces);
  }

  lemma AllForgotten(a: Pds, b: Pds, v: seq<PdId>, w: seq<PdId>, spaces: Spaces)
    requires RootForgot(a, v) && RootForgot(b, w) && HoldsStay(a, b, spaces)
    ensures RootForgot(b, v + w)
  {
    hide HoldsStay;
    StillForgotten(a, b, v, spaces);
  }

  lemma UnlinkedIsForgotten(pds: Pds, p: PdId)
    requires RT_PD_ID in pds
    ensures PdRes(p) !in UnlinkFromRoot(pds, PdRes(p))[RT_PD_ID].holds
  {
  }

  lemma DestroyedForgotten(was: Pds, p: PdId, swept: Pds, done: Pds, nested: seq<PdId>, spaces: Spaces)
    requires RT_PD_ID in was && p != RT_PD_ID && PdRes(p) !in was[RT_PD_ID].holds && RootForgot(swept, nested)
    requires done == ReleaseAll(swept, PdRes(p)) && HoldsStay(was - {p}, done - {p}, spaces)
    ensures RootForgot(done, [p] + nested)
  {
    assert HoldsOfStay(was[RT_PD_ID], done[RT_PD_ID], spaces) by {
      assert RT_PD_ID in done - {p};
    }
  }

  lemma VictimsStart(start: Pds, done: Pds, victims: seq<PdId>)
    requires Victims(start, done, victims)
    ensures forall q :: q in victims ==> q in start && q !in done
  {
  }

  lemma DeleteReported(was: Pds, start: Pds, p: PdId, done: Pds, victims: seq<PdId>, first: Spaces, spaces: Spaces,
                       before: seq<Notice>, after: seq<Notice>)
    requires RT_PD_ID in was && start == UnlinkFromRoot(was, PdRes(p)) && SpacesFewer(first, spaces)
    requires Victims(start, done - {p}, victims) && Reported(start, victims, first, spaces, before, after)
    requires HoldsStay(start - {p}, done - {p}, spaces)
    ensures HoldsStay(was, done - {p}, spaces) && Reported(was, victims, first, spaces, before, after)
  {
    RootUnlinkStays(was, PdRes(p), first);
    hide HoldsStay, Reported, SpacesFewer, UnlinkFromRoot, Victims;
    VictimsStart(start, done - {p}, victims);
    ReportedFrom(was, start, victims, first, spaces, before, after);
    StayWider(start, done, p, spaces);
    StayTrans(was, start, done - {p}, first, spaces);
  }

  lemma RootUnlinkStays(pds: Pds, r: ResId, spaces: Spaces)
    requires RT_PD_ID in pds && Counted(r.kind) && r.space in CORE_SPACES
    ensures HoldsStay(pds, UnlinkFromRoot(pds, r), spaces)
  {
    forall q | q in pds ensures HoldsOfStay(pds[q], UnlinkFromRoot(pds, r)[q], spaces) {
      UnlinkStays(pds[q], r, spaces);
    }
  }

  lemma ReleaseAllStays(pds: Pds, r: ResId, spaces: Spaces)
    requires Counted(r.kind) && r.space in CORE_SPACES
    ensures HoldsStay(pds, ReleaseAll(pds, r), spaces)
  {
    forall q | q in pds ensures HoldsOfStay(pds[q], ReleaseAll(pds, r)[q], spaces) {
      UnlinkStays(pds[q], r, spaces);
    }
  }

  lemma DestroyReported(was: Pds, p: PdId, torn: Pds, swept: Pds, done: Pds, nested: seq<PdId>,
                        s0: Spaces, s1: Spaces, s2: Spaces, n0: seq<Notice>, n1: seq<Notice>, n2: seq<Notice>)
    requires p in was && SpacesFewer(s0, s1) && SpacesFewer(s1, s2)
    requires HoldsStay(Flagged(was, p) - {p}, torn - {p}, s1) && Reported(Flagged(was, p), [p], s0, s1, n0, n1)
    requires HoldsStay(torn, swept, s2) && Reported(torn, nested, s1, s2, n1, n2)
    requires Victims(torn, swept, nested) && p in swept && done == ReleaseAll(swept, PdRes(p))
    ensures HoldsStay(was - {p}, done - {p}, s2) && Reported(was, [p] + nested, s0, s2, n0, n2)
  {
    var flagged := Flagged(was, p);
    ReleaseAllStays(swept, PdRes(p), s2);
    StaySame(was, flagged, s0);
    StaySame(was - {p}, flagged - {p}, s1);
    NestedStay(flagged, torn, swept, p, nested, s1);
    hide HoldsStay, Reported, SpacesFewer, Flagged, Victims, ReleaseAll, HoldsOfStay;
    ReportedTogether(flagged, torn, [p], nested, s0, s1, s2, n0, n1, n2);
    FewerTrans(s0, s1, s2);
    assert forall q :: q in [p] + nested ==> q in flagged;
    ReportedFrom(was, flagged, [p] + nested, s0, s2, n0, n2);
    FewerSelf(s1);
    FewerSelf(s2);
    StayTrans(was - {p}, flagged - {p}, torn - {p}, s1, s1);
    StayMinus(torn, swept, p, s2);
    StayTrans(was - {p}, torn - {p}, swept - {p}, s1, s2);
    StayMinus(swept, done, p, s2);
    StayTrans(was - {p}, swept - {p}, done - {p}, s2, s2);
  }

  lemma NestedStay(flagged: Pds, torn: Pds, swept: Pds, p: PdId, nested: seq<PdId>, spaces: Spaces)
    requires HoldsStay(flagged - {p}, torn - {p}, spaces) && Victims(torn, swept, nested) && p in swept
    ensures forall q :: q in nested ==> q in flagged && q in torn && HoldsOfStay(flagged[q], torn[q], spaces)
  {
    hide HoldsOfStay;
    forall q | q in nested ensures q in flagged && q in torn && HoldsOfStay(flagged[q], torn[q], spaces) {
      assert q in torn && q != p;
      assert q in torn - {p};
    }
  }

  lemma SweepTurnReported(first: Pds, before: Pds, after: Pds, done: seq<PdId>, more: seq<PdId>,
                          s0: Spaces, s1: Spaces, s2: Spaces, n0: seq<Notice>, n1: seq<Notice>, n2: seq<Notice>)
    requires SpacesFewer(s0, s1) && SpacesFewer(s1, s2)
    requires HoldsStay(first, before, s1) && Reported(first, done, s0, s1, n0, n1)
    requires HoldsStay(before, after, s2) && Victims(before, after, more) && Reported(before, more, s1, s2, n1, n2)
    ensures HoldsStay(first, after, s2) && Reported(first, done + more, s0, s2, n0, n2)
  {
    hide Reported, SpacesFewer, HoldsOfStay;
    StayTrans(first, before, after, s1, s2);
    VictimsStart(before, after, more);
    ReportedTogether(first, before, done, more, s0, s1, s2, n0, n1, n2);
  }

  lemma InvIsRegular(pds: Pds, spaces: Spaces, order: seq<SpaceId>, adss: set<SpaceId>)
    requires Inv(pds, spaces, order)
    ensures Regular(Snap(pds, spaces, adss)) && CoreSafe(spaces) && RT_PD_ID in pds && !pds[RT_PD_ID].toDelete
  {
    forall s | s in spaces ensures spaces[s].manager in pds && s != SPACE_ID_NULL {
      assert SpaceOk(pds, s, spaces[s]);
    }
    forall s | s in CORE_SPACES ensures CoreSpace(spaces[s]) {
      assert SpaceOk(pds, s, spaces[s]);
    }
  }

  lemma NoneForgotten(pds: Pds, spaces: Spaces, order: seq<SpaceId>)
    requires Inv(pds, spaces, order)
    ensures RootForgot(pds, [])
  {
  }

  lemma ManagersRegistered(pds: Pds, spaces: Spaces, order: seq<SpaceId>)
    requires Inv(pds, spaces, order)
    ensures forall s :: s in spaces ==> spaces[s].manager in pds
  {
    InvIsRegular(pds, spaces, order, {});
  }

  /** An ADS dies, and with it the space that has its ID. */
  lemma LossLed(a: Snap, ads: SpaceId, limit: int, spaceLimit: int, b: Snap)
    requires Regular(a) && RT_PD_ID in a.pds && !a.pds[RT_PD_ID].toDelete && PolicyOn(a.spaces)
    requires ads in a.adss && ads !in CORE_SPACES && b.adss == a.adss - {ads}
    requires ads in a.spaces ==>
               a.spaces[ads].manager in a.pds && b.pds == AfterLoss(a.pds, a.spaces, ads, limit) && b.spaces == Kill(a.spaces, ads, spaceLimit)
    requires ads !in a.spaces ==> b.pds == a.pds && b.spaces == a.spaces
    ensures Led(a, b, limit) && PolicyOn(b.spaces) && Regular(b)
  {
    hide Led, PolicyOn, Kill, CleanupSpace, Regular;
    if ads in a.spaces {
      SpaceDeleted(a, ads, limit, spaceLimit, b.adss, b);
      KillKeepsPolicy(a.spaces, ads, spaceLimit);
      StillRegular(a, ads, limit, spaceLimit, Snap(b.pds, b.spaces, a.adss));
      OtherAdss(Snap(b.pds, b.spaces, a.adss), b.adss);
    } else {
      FewerAdssLed(a, b, limit);
      OtherAdss(a, b.adss);
    }
  }

  lemma OtherAdss(a: Snap, adss: set<SpaceId>)
    requires Regular(a)
    ensures Regular(a.(adss := adss))
  {
  }

  lemma FewerAdssLed(a: Snap, b: Snap, limit: int)
    requires b.pds == a.pds && b.spaces == a.spaces && b.adss <= a.adss
    ensures Led(a, b, limit)
  {
    forall q | q in a.pds ensures PdLed(a.pds[q], b.pds[q], b.spaces) {
      SameHoldsLed(a.pds[q], b.pds[q], b.spaces);
    }
    hide PdLed;
    QuietStep(a, b, limit);
  }

  /** A hold of a PD that is being destroyed goes. */
  lemma HoldDropLed(a: Snap, p: PdId, r: ResId, dying: Option<SpaceId>, limit: int, spaceLimit: int, b: Snap)
    requires Regular(a) && RT_PD_ID in a.pds && !a.pds[RT_PD_ID].toDelete && PolicyOn(a.spaces)
    requires p in a.pds && a.pds[p].toDelete && CanDie(r, dying) && Among(dying, a.adss) && b.adss == Without1(a.adss, dying)
    requires LosesSpace(a.spaces, dying) ==>
               RT_PD_ID in a.pds && a.spaces[dying.value].manager in a.pds &&
               (var gone := AfterLoss(a.pds, a.spaces, dying.value, limit); p in gone && b.pds == gone[p := Unlink(gone[p], r)]) &&
               b.spaces == Kill(a.spaces, dying.value, spaceLimit)
    requires !LosesSpace(a.spaces, dying) ==>
               b.pds == a.pds[p := Unlink(a.pds[p], r)] &&
               b.spaces == if r.kind == KIND_RESSPC then MarkOne(a.spaces, r.obj, true) else a.spaces
    requires Regular(b)
    ensures Led(a, b, limit) && PolicyOn(b.spaces)
  {
    hide Led, CleanupSpace, Kill, Regular, AfterLoss;
    if LosesSpace(a.spaces, dying) {
      var mid := Snap(AfterLoss(a.pds, a.spaces, dying.value, limit), b.spaces, b.adss);
      LossLed(a, dying.value, limit, spaceLimit, mid);
      LossKeepsMark(a.pds, a.spaces, dying.value, limit, p);
      HoldUnlinkedLed(mid, p, r, b, limit);
      LedTogether(a, mid, b, limit);
    } else {
      HoldUnlinkedLed(a, p, r, b, limit);
    }
  }

  lemma LossKeepsMark(pds: Pds, spaces: Spaces, ads: SpaceId, limit: int, p: PdId)
    requires RT_PD_ID in pds && !pds[RT_PD_ID].toDelete && ads in spaces && spaces[ads].manager in pds && p in pds && pds[p].toDelete
    ensures p in AfterLoss(pds, spaces, ads, limit) && AfterLoss(pds, spaces, ads, limit)[p].toDelete
  {
  }

  lemma HoldUnlinkedLed(a: Snap, p: PdId, r: ResId, b: Snap, limit: int)
    requires p in a.pds && a.pds[p].toDelete && b.adss <= a.adss && b.pds == a.pds[p := Unlink(a.pds[p], r)]
    requires b.spaces == a.spaces || b.spaces == MarkOne(a.spaces, r.obj, true)
    ensures Led(a, b, limit) && (PolicyOn(a.spaces) ==> PolicyOn(b.spaces))
  {
    forall q | q in a.pds ensures PdLed(a.pds[q], b.pds[q], b.spaces) {
      SameHoldsLed(a.pds[q], a.pds[q], b.spaces);
    }
    hide PdLed;
    QuietStep(a, b, limit);
  }

  lemma ReleaseAllLed(a: Snap, r: ResId, limit: int)
    requires Counted(r.kind) && r.space in CORE_SPACES
    ensures Led(a, Snap(ReleaseAll(a.pds, r), a.spaces, a.adss), limit)
  {
    var b := Snap(ReleaseAll(a.pds, r), a.spaces, a.adss);
    forall q | q in a.pds ensures PdLed(a.pds[q], b.pds[q], b.spaces) {
      UnlinkStays(a.pds[q], r, b.spaces);
    }
    hide PdLed;
    QuietStep(a, b, limit);
  }

  lemma DestroyLed(a: Snap, b: Snap, c: Snap, p: PdId, limit: int, d: Snap)
    requires Led(a, b, limit) && Led(b, c, limit) && Regular(b) && Regular(c) && Regular(d)
    requires d == Snap(ReleaseAll(c.pds, PdRes(p)), c.spaces, c.adss)
    ensures Led(a, d, limit)
  {
    hide Led, Regular, ReleaseAll;
    ReleaseAllLed(c, PdRes(p), limit);
    LedTogether(a, b, c, limit);
    LedTogether(a, c, d, limit);
  }

  lemma DeleteLed(was: Pds, p: PdId, order: seq<SpaceId>, spaces: Spaces, adss: set<SpaceId>, done: Snap, limit: int)
    requires RT_PD_ID in was && p in was && p != RT_PD_ID
    requires Led(Snap(Flagged(UnlinkFromRoot(was, PdRes(p)), p), spaces, adss), done, limit)
    requires Regular(Snap(UnlinkFromRoot(was, PdRes(p)), spaces, adss)) && Regular(done) && Regular(done.(pds := done.pds - {p}))
    requires p in done.pds && done.pds[p].toDelete
    ensures Led(Snap(Flagged(was, p), spaces, adss), done.(pds := done.pds - {p}), limit)
  {
    var a, b := Snap(Flagged(was, p), spaces, adss), Snap(Flagged(UnlinkFromRoot(was, PdRes(p)), p), spaces, adss);
    assert Regular(b);
    UnlinkedLed(was, p, spaces, adss, limit);
    hide Led, Regular, Flagged, UnlinkFromRoot;
    PdRemoved(done, p, limit);
    LedTogether(a, b, done, limit);
    LedTogether(a, done, done.(pds := done.pds - {p}), limit);
  }

  lemma UnlinkedLed(was: Pds, p: PdId, spaces: Spaces, adss: set<SpaceId>, limit: int)
    requires RT_PD_ID in was && p in was && p != RT_PD_ID
    ensures Led(Snap(Flagged(was, p), spaces, adss), Snap(Flagged(UnlinkFromRoot(was, PdRes(p)), p), spaces, adss), limit)
  {
    var a, b := Snap(Flagged(was, p), spaces, adss), Snap(Flagged(UnlinkFromRoot(was, PdRes(p)), p), spaces, adss);
    forall q | q in a.pds ensures PdLed(a.pds[q], b.pds[q], spaces) {
      UnlinkStays(a.pds[q], PdRes(p), spaces);
    }
    hide PdLed, Led;
    LedQuietly(a, b, limit);
  }

  /** `p` as the root of a deletion tree, about to be destroyed. */
  function AsRoot(pds: Pds, p: PdId): (r: Pds)
    requires p in pds
    ensures r.Keys == pds.Keys
  {
    pds[p := pds[p].(depth := 0, toDelete := true, deleting := true)]
  }

  lemma RootLed(a: Snap, b: Snap, q: PdId, c: Snap, limit: int)
    requires Led(a, b, limit) && Regular(b) && Regular(c) && q in b.pds && b.pds[q].toDelete
    requires Led(Snap(AsRoot(b.pds, q), b.spaces, b.adss), c, limit)
    ensures Led(a, c, limit)
  {
    var mid := Snap(AsRoot(b.pds, q), b.spaces, b.adss);
    assert Regular(mid);
    AsRootLed(b, q, limit);
    hide Led, Regular, AsRoot;
    LedTogether(a, b, mid, limit);
    LedTogether(a, mid, c, limit);
  }

  lemma AsRootLed(b: Snap, q: PdId, limit: int)
    requires q in b.pds && b.pds[q].toDelete
    ensures Led(b, Snap(AsRoot(b.pds, q), b.spaces, b.adss), limit)
  {
    var mid := Snap(AsRoot(b.pds, q), b.spaces, b.adss);
    forall p | p in b.pds ensures PdLed(b.pds[p], mid.pds[p], mid.spaces) {
      SameHoldsLed(b.pds[p], mid.pds[p], mid.spaces);
    }
    hide PdLed, Led;
    LedQuietly(b, mid, limit);
  }

  lemma LedQuietly(a: Snap, b: Snap, limit: int)
    requires b.pds.Keys == a.pds.Keys && b.spaces == a.spaces && b.adss == a.adss
    requires forall q :: q in a.pds ==> PdLed(a.pds[q], b.pds[q], b.spaces) && b.pds[q].toDelete == a.pds[q].toDelete
    ensures Led(a, b, limit)
  {
    hide PdLed;
    QuietStep(a, b, limit);
  }

  /**
   * Whoever used a space that went is gone, if PD cleanup is unbounded, or `p` managed the space and the
   * depth allows one step.  An exception is a space that has the ID of an ADS, since it may go with that.
   */
  ghost predicate UsersGone(a: Snap, p: PdId, b: Snap, limit: int) {
    forall s, q ::
      && s in a.spaces && s !in b.spaces && s !in a.adss
      && (limit == -1 || (1 <= limit && a.spaces[s].manager == p))
      && q in a.pds && q != RT_PD_ID && Uses(a.pds[q], a.spaces[s].kind, s)
      ==> q !in b.pds
  }

  /** The resources of a server's spaces go with the server, and so does whoever holds one. */
  lemma HoldersGone(a: Snap, p: PdId, b: Snap, limit: int, s: SpaceId, q: PdId)
    requires UsersGone(a, p, b, limit) && SpacesFewer(a.spaces, b.spaces) && p !in b.pds
    requires forall x :: x in b.spaces ==> b.spaces[x].manager in b.pds
    requires limit == -1 || 1 <= limit
    requires s in a.spaces && a.spaces[s].manager == p && s !in a.adss
    requires q in a.pds && q != RT_PD_ID && exists r :: r in a.pds[q].holds && r.space == s
    ensures s !in b.spaces && q !in b.pds
  {
    assert Uses(a.pds[q], a.spaces[s].kind, s);
  }

  /** Every PD that went, besides `p` and those marked before, was linked from another that went or used a space that went. */
  ghost predicate OnlyForCause(a: Snap, p: PdId, victims: seq<PdId>, b: Snap) {
    forall q :: q in victims && q in a.pds && q != p && !a.pds[q].toDelete ==>
      || (exists v :: v in victims && Step(a.pds, v, q))
      || (exists s :: s in a.spaces && s !in b.spaces && Uses(a.pds[q], a.spaces[s].kind, s))
  }

  lemma LedInTheEnd(a: Snap, p: PdId, victims: seq<PdId>, limit: int, b: Snap)
    requires p in a.pds && Led(Snap(AsRoot(a.pds, p), a.spaces, a.adss), b, limit) && NoMarked(b.pds)
    requires Victims(a.pds, b.pds, victims)
    ensures UsersGone(a, p, b, limit) && OnlyForCause(a, p, victims, b)
  {
    var r := Snap(AsRoot(a.pds, p), a.spaces, a.adss);
    forall q, kind, s | q in a.pds ensures Uses(r.pds[q], kind, s) <==> Uses(a.pds[q], kind, s) {
    }
    hide Uses, Ledge;
    UsersInTheEnd(a, p, r, b, limit);
    CausesInTheEnd(a, p, r, victims, b);
  }

  lemma UsersInTheEnd(a: Snap, p: PdId, r: Snap, b: Snap, limit: int)
    requires p in a.pds && r == Snap(AsRoot(a.pds, p), a.spaces, a.adss) && UsersGo(r, b, limit) && NoMarked(b.pds)
    requires forall q, kind, s :: q in a.pds ==> (Uses(r.pds[q], kind, s) <==> Uses(a.pds[q], kind, s))
    ensures UsersGone(a, p, b, limit)
  {
    hide Uses;
    forall s, q | s in a.spaces && s !in b.spaces && s !in a.adss && (limit == -1 || (1 <= limit && a.spaces[s].manager == p)) &&
                  q in a.pds && q != RT_PD_ID && Uses(a.pds[q], a.spaces[s].kind, s)
      ensures q !in b.pds
    {
      assert Charged(r, s, limit);
    }
  }

  lemma CausesInTheEnd(a: Snap, p: PdId, r: Snap, victims: seq<PdId>, b: Snap)
    requires p in a.pds && r == Snap(AsRoot(a.pds, p), a.spaces, a.adss) && Justified(r, b) && NoMarked(b.pds)
    requires forall q, kind, s :: q in a.pds ==> (Uses(r.pds[q], kind, s) <==> Uses(a.pds[q], kind, s))
    requires Victims(a.pds, b.pds, victims)
    ensures OnlyForCause(a, p, victims, b)
  {
    hide Uses;
    forall q | q in victims && q in a.pds && q != p && !a.pds[q].toDelete
      ensures (exists v :: v in victims && Step(a.pds, v, q)) ||
              (exists s :: s in a.spaces && s !in b.spaces && Uses(a.pds[q], a.spaces[s].kind, s))
    {
      assert HasReason(r, b, q);
      if v :| Step(r.pds, v, q) && Gone(b, v) {
        assert Step(a.pds, v, q) && v in victims;
      }
    }
  }

  lemma ThinnedIsFewer(a: Spaces, b: Spaces)
    ensures Thinned(a, b) ==> SpacesFewer(a, b)
    ensures SpacesFewer(a, a)
  {
  }

  lemma FlagHomes(pds: Pds, spaces: Spaces, homes: set<SpaceId>, p: PdId)
    requires HomesOk(pds, spaces, homes) && p in pds
    ensures HomesOk(Flagged(pds, p), spaces, homes)
  {
    assert HoldsShrink(pds, Flagged(pds, p));
    HomesAfterPds(pds, Flagged(pds, p), spaces, homes);
  }

  lemma HomesAfterNew(pds: Pds, spaces: Spaces, homes: set<SpaceId>, p: PdId)
    requires HomesOk(pds, spaces, homes)
    ensures HomesOk(pds[p := NEW_PD], spaces, homes)
  {
  }

  lemma LinkHomes(pds: Pds, spaces: Spaces, homes: set<SpaceId>, p: PdId, child: PdId)
    requires HomesOk(pds, spaces, homes) && p in pds
    ensures HomesOk(AddLink(pds, p, child), spaces, homes)
  {
    HomesAfterPds(pds, AddLink(pds, p, child), spaces, homes);
  }

  lemma HomesRegistered(pds: Pds, spaces: Spaces, homes: set<SpaceId>)
    requires HomesOk(pds, spaces, homes)
    ensures homes <= spaces.Keys && homes == homes * spaces.Keys
  {
  }

  lemma HomesStep(homes: set<SpaceId>, was: Spaces, dying: Option<SpaceId>, spaces: Spaces)
    requires homes <= was.Keys && spaces.Keys == if LosesSpace(was, dying) then was.Keys - {dying.value} else was.Keys
    ensures Without1(homes, dying) == homes * spaces.Keys
  {
  }

  lemma FewerKeys(a: Spaces, b: Spaces)
    requires SpacesFewer(a, b)
    ensures b.Keys <= a.Keys
  {
  }

  lemma FewerSwept(spaces: Spaces, order: seq<SpaceId>, limit: int)
    ensures Sweep(spaces, order, limit).Keys <= spaces.Keys
  {
  }

  lemma SpaceOfHeld(pds: Pds, spaces: Spaces, order: seq<SpaceId>, p: PdId, r: ResId)
    requires Inv(pds, spaces, order) && p in pds && p != RT_PD_ID && r in pds[p].holds
    ensures r.space in spaces ==> spaces[r.space].manager in pds
    ensures !SentByServer(r.kind) ==> r.space in spaces
  {
    assert PdOk(pds[p], spaces);
    if r.space in spaces {
      assert SpaceOk(pds, r.space, spaces[r.space]);
    }
  }

  lemma ManagerIsRegistered(pds: Pds, spaces: Spaces, order: seq<SpaceId>, s: SpaceId)
    requires Inv(pds, spaces, order) && s in spaces
    ensures RT_PD_ID in pds && !pds[RT_PD_ID].toDelete && spaces[s].manager in pds && 0 < s < SPACE_ID_NULL
  {
    assert SpaceOk(pds, s, spaces[s]);
  }

  lemma NoticeIs(pds: Pds, s: SpaceId, space: Space)
    requires space.manager in pds
    ensures DestroyNotice(pds, s, space) ==
            if !pds[space.manager].toDelete && space.manager != RT_PD_ID && !space.dontNotify
            then [Destroy(space.manager, space.kind, s)] else []
  {
  }

  /** A space that its own server destroys: no policy, and no notice. */
  function Silenced(space: Space): Space {
    space.(toDelete := true, policy := false, dontNotify := true)
  }

  lemma SilencedFacts(pds: Pds, spaces: Spaces, order: seq<SpaceId>, homes: set<SpaceId>, s: SpaceId, limit: int)
    requires Inv(pds, spaces, order) && HomesOk(pds, spaces, homes) && NoneDeleting(spaces)
    requires s in spaces && s !in CORE_SPACES && !spaces[s].toDelete
    ensures var flagged := spaces[s := Silenced(spaces[s])];
            Inv(pds, flagged, order) && NoneDeleting(flagged) && HomesOk(pds, flagged, homes - {s}) &&
            !flagged[s].policy && Kill(flagged, s, limit) == spaces - {s}
  {
    RemarkKeepsInv(pds, spaces, spaces[s := Silenced(spaces[s])], order);
    KillPlain(spaces, spaces[s := Silenced(spaces[s])], s, limit);
    hide Inv, HomesOk, NoneDeleting, Kill;
    FewerHomes(pds, spaces, homes, homes - {s});
    HomesAfterSpace(pds, spaces, homes - {s}, s, Silenced(spaces[s]));
  }

  lemma AcquireIs(pd: Pd, r: ResId)
    ensures Acquire(pd, r).rde == pd.rde && r in Acquire(pd, r).holds
  {
  }

  /** Some PD still holds a space that had the same ID. */
  ghost predicate HeldAsSpace(pds: Pds, s: SpaceId) {
    exists p, r :: p in pds && p != RT_PD_ID && r in pds[p].holds && r.kind == KIND_RESSPC && r.obj == s
  }

  lemma NewHome(was: Pds, pds: Pds, spaces: Spaces, homes: set<SpaceId>, s: SpaceId)
    requires HomesOk(pds, spaces, homes) && HoldsShrink(was, pds) && !HeldAsSpace(was, s)
    requires s in spaces && s !in CORE_SPACES && Unharmed(spaces[s])
    ensures HomesOk(pds, spaces, homes + {s})
  {
  }

  lemma EdgeKeepsHolds(pds: Pds, p: PdId, kind: Kind, s: SpaceId)
    requires p in pds && kind < |pds[p].rde|
    ensures HoldsShrink(pds, pds) && HoldsShrink(pds, pds[p := AddRde(pds[p], kind, s)])
  {
  }

  /** The PDs once `m` holds the space that it is to manage. */
  function Managing(pds: Pds, m: PdId, s: SpaceId): (r: Pds)
    requires m in pds
    ensures r.Keys == pds.Keys
  {
    if m == RT_PD_ID then pds else pds[m := Acquire(pds[m], SpaceRes(s))]
  }

  /** The directory of PD `p` has no slot for the new entry. */
  predicate NoSlot(pds: Pds, p: PdId, kind: Kind, s: SpaceId) {
    p in pds && p != RT_PD_ID && kind < |pds[p].rde| && Refuses(pds[p].rde[kind], kind, s)
  }

  predicate RowFull(pds: Pds, p: PdId, kind: Kind) {
    p in pds && kind < |pds[p].rde| && NoFreeSlot(pds[p].rde[kind], |pds[p].rde[kind]|)
  }

  /** The PDs once `p`, unless it is the root task's, has the request edge for space `s`. */
  function WithEdge(pds: Pds, p: PdId, kind: Kind, s: SpaceId): (r: Pds)
    ensures r.Keys == pds.Keys
  {
    if p in pds && p != RT_PD_ID && kind < |pds[p].rde| then pds[p := AddRde(pds[p], kind, s)] else pds
  }

  /** The PDs once the root task and the client hold the ADS. */
  function WithAds(pds: Pds, client: PdId, s: SpaceId): (r: Pds)
    requires RT_PD_ID in pds && client in pds
    ensures r.Keys == pds.Keys
  {
    var r := ResId(KIND_ADS, ADS_SPACE_ID, s);
    var rooted := pds[RT_PD_ID := Acquire(pds[RT_PD_ID], r)];
    rooted[client := Acquire(rooted[client], r)]
  }

  /** A new space is held by its server and, unless there is no slot, listed by its client. */
  lemma SpaceCreated(pds: Pds, server: PdId, client: PdId, kind: Kind, s: SpaceId)
    requires server in pds && client in pds && client != RT_PD_ID && kind < |pds[client].rde|
    ensures var after := WithEdge(Managing(pds, server, s), client, kind, s);
            && (server != RT_PD_ID ==> Refs(after[server], SpaceRes(s)) == Refs(pds[server], SpaceRes(s)) + 1)
            && (!NoSlot(pds, client, kind, s) ==>
                  kind < |after[client].rde| && Lists(after[client].rde[kind], kind, s))
  {
    if !NoSlot(pds, client, kind, s) {
      InsertLists(pds[client].rde[kind], kind, s);
    }
  }

  lemma RefusedEdge(pds: Pds, p: PdId, kind: Kind, s: SpaceId)
    requires (p !in pds || NoSlot(pds, p, kind, s)) && kind != KIND_NONE
    ensures WithEdge(pds, p, kind, s) == pds
  {
    if p in pds {
      var row := pds[p].rde[kind];
      RefusedIsSame(row, kind, s);
      assert pds[p].rde[kind := row] == pds[p].rde;
      assert pds[p := pds[p]] == pds;
    }
  }

  /** A new space is listed in no live row, so only a full row has no slot for it. */
  lemma NoSlotForNew(pds: Pds, m: PdId, spaces: Spaces, order: seq<SpaceId>, p: PdId, kind: Kind, s: SpaceId)
    requires Inv(pds, spaces, order) && p in pds && p != RT_PD_ID && m in pds
    requires KIND_NONE < kind < KIND_MAX && s !in spaces
    ensures var held := Managing(pds, m, s);
            && |held[p].rde| == KIND_MAX && held[p].toDelete == pds[p].toDelete
            && (held[p].toDelete || !Lists(held[p].rde[kind], kind, s))
            && (NoSlot(pds, p, kind, s) <==> Refuses(held[p].rde[kind], kind, s))
            && WithEdge(held, p, kind, s) == held[p := AddRde(held[p], kind, s)]
    ensures LivePd(pds, p) ==> (NoSlot(pds, p, kind, s) <==> RowFull(pds, p, kind))
  {
    FreshSpaceUnlisted(pds, spaces, order, p, kind, s);
    AcquireIs(pds[m], SpaceRes(s));
    if !pds[p].toDelete {
      RefusesUnlisted(pds[p].rde[kind], kind, s);
    }
  }

  lemma HoldsShrinkRefl(pds: Pds)
    ensures HoldsShrink(pds, pds)
  {
  }

  /** The lookup in a marked PD's row stops at an entry whose space ID now names a space of another type. */
  ghost predicate Outdated(pds: Pds, spaces: Spaces, from: PdId, to: PdId, kind: Kind, s: SpaceId) {
    && from in pds && to in pds && kind < |pds[from].rde| && kind < |pds[to].rde| && !pds[to].toDelete
    && Found(pds[from].rde[kind], kind, s) && !Found(pds[to].rde[kind], kind, s)
    && !NoFreeSlot(pds[to].rde[kind], |pds[to].rde[kind]|)
    && var x := pds[from].rde[kind][FirstHit(pds[from].rde[kind], kind, s)].space; x in spaces && spaces[x].kind != kind
  }

  lemma RowsAreTyped(pds: Pds, spaces: Spaces, order: seq<SpaceId>, p: PdId)
    requires Inv(pds, spaces, order) && p in pds && p != RT_PD_ID
    ensures RowsOf(pds[p])
  {
    assert PdOk(pds[p], spaces);
  }

  lemma LiveEntryIsSound(pds: Pds, spaces: Spaces, order: seq<SpaceId>, p: PdId, kind: Kind, s: SpaceId, idx: nat)
    requires Inv(pds, spaces, order) && LivePd(pds, p) && kind < KIND_MAX
    requires |pds[p].rde| == KIND_MAX && idx < |pds[p].rde[kind]| && LookupHit(pds[p].rde[kind][idx], kind, s)
    requires pds[p].rde[kind][idx].space in spaces
    ensures spaces[pds[p].rde[kind][idx].space].kind == kind
  {
    assert PdOk(pds[p], spaces);
    ReservedSpaceIds(pds, spaces, order);
    assert RowOk(pds[p].rde[kind], kind, spaces);
    SharedEntryIsSound(pds[p].rde[kind], EMPTY_ROW, kind, s, idx, spaces);
  }

  lemma WrongTypeBreaksInv(pds: Pds, spaces: Spaces, order: seq<SpaceId>, p: PdId, kind: Kind, s: SpaceId)
    requires LivePd(pds, p) && KIND_NONE < kind < KIND_MAX && kind < |pds[p].rde| && Lists(pds[p].rde[kind], kind, s)
    requires s in spaces && spaces[s].kind != kind
    ensures !Inv(pds, spaces, order)
  {
    if Inv(pds, spaces, order) {
      UnmarkedMeansGrounded(pds, spaces, order);
    }
  }

  lemma DropRdeKeepsMarks(pds: Pds, p: PdId, kind: Kind, s: SpaceId)
    requires p in pds
    ensures SameMarks(pds, pds[p := DropRde(pds[p], kind, s)])
  {
  }

  /** No invariant holds with a space of a component's type that the component does not own. */
  lemma MisnamedBreaksInv(pds: Pds, spaces: Spaces, order: seq<SpaceId>, next: Pds, wider: Spaces, s: SpaceId)
    requires Inv(pds, spaces, order) && s !in spaces && s in wider && !SpaceKind(wider[s].kind)
    ensures forall o :: !Inv(next, wider, o)
  {
    assert s !in CORE_SPACES;
    forall o ensures !Inv(next, wider, o) {
      assert !SpaceOk(next, s, wider[s]);
    }
  }

  lemma EdgeOfManager(pds: Pds, server: PdId, client: PdId, kind: Kind, s: SpaceId)
    requires server in pds && client in pds && client != RT_PD_ID && kind < |pds[client].rde|
    ensures var held := Managing(pds, server, s);
            held[client].rde == pds[client].rde &&
            WithEdge(held, client, kind, s) == held[client := AddRde(held[client], kind, s)]
    ensures NoNewCycles(pds, WithEdge(Managing(pds, server, s), client, kind, s))
  {
    AcquireIs(pds[server], SpaceRes(s));
    SameLinksNoNewCycles(pds, WithEdge(Managing(pds, server, s), client, kind, s));
  }

  /** Marked, but not yet being destroyed. */
  predicate Due(pds: Pds, q: PdId) {
    q in pds && pds[q].toDelete && !pds[q].deleting
  }

  lemma NoneDue(pds: Pds)
    requires forall q :: !Due(pds, q)
    ensures Settled(pds)
  {
    forall q | q in pds && pds[q].toDelete ensures pds[q].deleting {
      assert !Due(pds, q);
    }
  }

  predicate LastHold(pds: Pds, p: PdId, r: ResId) {
    p in pds && r in pds[p].holds && pds[p].holds[r] == 1
  }

  /** Losing the VMR space of `ads` marks a further PD exactly if `LossMarks` holds. */
  lemma LossFacts(pds: Pds, spaces: Spaces, order: seq<SpaceId>, homes: set<SpaceId>, ads: SpaceId, limit: int)
    requires Inv(pds, spaces, order) && HomesOk(pds, spaces, homes) && ads !in CORE_SPACES
    ensures limit == 0 || ads in homes || ads !in spaces ==> !LossMarks(pds, spaces, ads, limit)
    ensures ads in spaces ==> RT_PD_ID in pds && spaces[ads].manager in pds
    ensures ads in spaces ==> (SameMarks(pds, AfterLoss(pds, spaces, ads, limit)) <==> !LossMarks(pds, spaces, ads, limit))
    ensures ads !in spaces ==> !LossMarks(pds, spaces, ads, limit)
  {
    if ads in spaces {
      assert SpaceOk(pds, ads, spaces[ads]);
      hide Inv, HomesOk, LossMarks, CleanupSpace;
      CleanupMarksIff(pds, ads, spaces, limit);
    }
    if ads in homes {
      NoLossFromHome(pds, spaces, homes, ads, limit);
    }
  }

  lemma UnlinkKeepsMarks(was: Pds, pds: Pds, p: PdId, r: ResId)
    requires p in pds
    ensures SameMarks(was, pds[p := Unlink(pds[p], r)]) <==> SameMarks(was, pds)
  {
    var next := pds[p := Unlink(pds[p], r)];
    assert next.Keys == pds.Keys && forall q :: q in pds ==> next[q].toDelete == pds[q].toDelete;
  }

  lemma ReleasedIsKept(pds: Pds, p: PdId, r: ResId)
    requires p in pds
    ensures PdsKept(pds, pds[p := Release(pds[p], r)]) && SameMarks(pds, pds[p := Release(pds[p], r)])
  {
  }

  lemma KeptLinks(a: Pds, b: Pds)
    requires PdsKept(a, b)
    ensures NoNewCycles(a, b)
  {
    SameLinksNoNewCycles(a, b);
  }

  /** When marks only grow, none is left exactly if there was none and none is added. */
  lemma MarksGrow(a: Pds, b: Pds)
    requires PdsKept(a, b) || PdsCleaned(a, b)
    ensures NoMarked(b) <==> NoMarked(a) && SameMarks(a, b)
    ensures NoneDying(a) ==> NoneDying(b)
  {
    if NoMarked(b) {
      forall q | q in a ensures !a[q].toDelete {
        assert q in b;
      }
    }
  }

  lemma NewSpaceHomes(pds: Pds, spaces: Spaces, homes: set<SpaceId>, s: SpaceId, kind: Kind, m: PdId)
    requires HomesOk(pds, spaces, homes) && m in pds && s !in spaces
    ensures HomesOk(pds, spaces[s := NewSpace(kind, m)], homes)
    ensures m != RT_PD_ID ==> HomesOk(pds[m := Acquire(pds[m], SpaceRes(s))], spaces[s := NewSpace(kind, m)], homes)
  {
    HomesAfterSpace(pds, spaces, homes, s, NewSpace(kind, m));
    HomesAfterGain(pds, spaces[s := NewSpace(kind, m)], homes, m, SpaceRes(s));
  }

  lemma MapHomes(pds: Pds, spaces: Spaces, homes: set<SpaceId>, s: SpaceId, t: SpaceId)
    requires HomesOk(pds, spaces, homes) && s in spaces && t in CORE_SPACES
    ensures HomesOk(pds, spaces[s := spaces[s].(maps := spaces[s].maps + [t])], homes)
  {
  }

  lemma NothingCleaned(pds: Pds, spaces: Spaces)
    ensures PdsCleaned(pds, pds) && SameMarks(pds, pds) && Thinned(spaces, spaces)
  {
  }

  lemma HoldDropKept(a: Pds, p: PdId, r: ResId, b: Pds)
    requires p in a && r in a[p].holds && a[p].toDelete
    requires b == a[p := Unlink(a[p], r)] || PdsCleaned(a[p := Unlink(a[p], r)], b)
    ensures PdsKept(a, b) && p in b && b[p] == Unlink(a[p], r)
    ensures b == a[p := Unlink(a[p], r)] ==> SameMarks(a, b)
    ensures |b[p].holds| < |a[p].holds|
  {
    assert (a[p].holds - {r}).Keys == a[p].holds.Keys - {r};
    assert a[p].holds.Keys == (a[p].holds.Keys - {r}) + {r};
    assert |a[p].holds| == |a[p].holds.Keys| && |(a[p].holds - {r})| == |(a[p].holds - {r}).Keys|;
  }

  lemma MidIsSmaller(was: Pds, p: PdId, k: nat, c: PdId, mid: Pds)
    requires p in was && k < |was[p].links| && c == was[p].links[k] && c in was && CycleFree(was, p)
    requires mid == Partial(was, p, k)[c := Marked(Partial(was, p, k)[c])]
    ensures CycleFree(mid, c) && LinkedSet(mid, c) < LinkedSet(was, p)
  {
    PartialIsFewer(was, p, k);
    assert FewerLinks(was, mid);
    CycleFreeChild(was, p, c);
    CycleFreeShrinks(was, mid, c);
    ChildReachesFewer(was, mid, p, c);
  }

  lemma LinkLoopTail(was: Pds, p: PdId, k: nat, cur: Pds)
    requires p in was && k < |was[p].links| && p in cur && cur[p].links == was[p].links[k..]
    ensures cur[p].links[1..] == was[p].links[k + 1..]
  {
  }

  lemma StagedNotice(pds: Pds, spaces: Spaces, s: SpaceId, limit: int)
    requires s in spaces && spaces[s].manager in pds
    ensures Staged(spaces, s, limit)[s].manager in pds
    ensures RT_PD_ID in pds ==>
              DestroyNotice(pds, s, Staged(spaces, s, limit)[s]) == DestroyNotice(pds, s, spaces[s])
  {
  }

  // ----- facts about registry values used by the destruction methods -----

  /** What a live PD holds in a space that can be deleted is dropped without further effect. */
  lemma LiveHoldIsPlain(pds: Pds, spaces: Spaces, order: seq<SpaceId>, q: PdId, r: ResId)
    requires Inv(pds, spaces, order) && q in pds && q != RT_PD_ID && !pds[q].toDelete
    requires r in pds[q].holds && r.space !in CORE_SPACES
    ensures !CoreKind(r.kind) && FreeNotice(pds, spaces, q, r) == []
  {
    assert PdOk(pds[q], spaces);
  }

  lemma RootUnlinkStep(pds: Pds, spaces: Spaces, order: seq<SpaceId>, p: PdId)
    requires Inv(pds, spaces, order) && p in pds && p != RT_PD_ID
    ensures RT_PD_ID in pds
    ensures var start := UnlinkFromRoot(pds, PdRes(p));
            && Inv(start, spaces, order)
            && p in start && start[p] == pds[p] && Alive(start) == Alive(pds)
  {
    var start := UnlinkFromRoot(pds, PdRes(p));
    RootUnlinkInv(pds, spaces, order, PdRes(p));
    hide Inv;
    assert AliveSet(start) == AliveSet(pds);
  }

  lemma UnlinkedPd(pd: Pd, r: ResId)
    ensures r !in Unlink(pd, r).holds && (r !in pd.holds ==> Unlink(pd, r) == pd)
    ensures Unlink(pd, r).(holds := pd.holds) == pd && Unlink(pd, r).holds == pd.holds - {r}
  {
    assert r !in pd.holds ==> pd.holds - {r} == pd.holds;
  }

  lemma DroppedHold(was: Pds, mid: Pds, p: PdId, r: ResId)
    requires PdsCleaned(was, mid) && p in was
    ensures p in mid
    ensures var done := mid[p := Unlink(mid[p], r)];
            PdsKept(was, done) && (was[p].toDelete ==> PdsCleaned(was[p := Unlink(was[p], r)], done)) &&
            (SameMarks(was, mid) ==> SameMarks(was, done))
  {
  }

  ghost predicate PartlyMarked(was: Spaces, marked: Spaces, now: Spaces, todo: set<SpaceId>)
    requires was.Keys == marked.Keys == now.Keys
  {
    forall x :: x in now ==> now[x] == if x in todo then was[x] else marked[x]
  }

  lemma NoneVisited(was: Spaces, marked: Spaces)
    requires was.Keys == marked.Keys
    ensures PartlyMarked(was, marked, was, was.Keys)
  {
  }

  lemma VisitOne(was: Spaces, marked: Spaces, now: Spaces, todo: set<SpaceId>, x: SpaceId)
    requires was.Keys == marked.Keys == now.Keys && PartlyMarked(was, marked, now, todo) && x in todo && x in now
    ensures now[x] == was[x] && now[x := marked[x]].Keys == now.Keys
    ensures PartlyMarked(was, marked, now[x := marked[x]], todo - {x})
    ensures now[x] == marked[x] ==> PartlyMarked(was, marked, now, todo - {x})
  {
  }

  lemma AllVisited(was: Spaces, marked: Spaces, now: Spaces)
    requires was.Keys == marked.Keys == now.Keys && PartlyMarked(was, marked, now, {})
    ensures now == marked
  {
  }

  lemma RootUnlinkInv(pds: Pds, spaces: Spaces, order: seq<SpaceId>, r: ResId)
    requires Inv(pds, spaces, order)
    ensures RT_PD_ID in pds && Inv(UnlinkFromRoot(pds, r), spaces, order)
  {
    var start := UnlinkFromRoot(pds, r);
    forall x | x in spaces ensures SpaceOk(start, x, spaces[x]) {
      assert SpaceOk(pds, x, spaces[x]);
    }
  }

  lemma RootUnlinkEvolves(pds: Pds, r: ResId)
    requires RT_PD_ID in pds
    ensures PdsEvolve(pds, UnlinkFromRoot(pds, r))
  {
    assert PdsKept(pds, UnlinkFromRoot(pds, r));
    KeptEvolves(pds, UnlinkFromRoot(pds, r));
  }

  lemma FinishDelete(was: Pds, start: Pds, p: PdId, done: Pds, victims: seq<PdId>)
    requires RT_PD_ID in was && start == UnlinkFromRoot(was, PdRes(p)) && p in was && p != RT_PD_ID
    requires !was[p].deleting && p in done && done[p].links == [] && PdsEvolve(Flagged(start, p), done)
    requires Victims(start, done - {p}, victims) && Settled(done)
    ensures PdsEvolve(was, done - {p}) && Settled(done - {p})
    ensures Victims(was, done - {p}, victims)
  {
    hide PdsEvolve;
    RemovePdEvolves(start, p, done);
    RootUnlinkEvolves(was, PdRes(p));
    EvolveTrans(was, start, done - {p});
  }

  lemma FlagStep(pds: Pds, spaces: Spaces, order: seq<SpaceId>, p: PdId)
    requires Inv(pds, spaces, order) && p in pds && p != RT_PD_ID && !pds[p].deleting
    ensures Inv(Flagged(pds, p), spaces, order)
    ensures Flagged(pds, p)[p].toDelete && Flagged(pds, p)[p].deleting && Flagged(pds, p)[p].depth == pds[p].depth
  {
    MarkPdKeepsInv(pds, spaces, order, p, Flagged(pds, p)[p]);
  }

  lemma ReentryShrinks(was: Pds, p: PdId, torn: Pds)
    requires p in was && !was[p].deleting && PdsEvolve(Flagged(was, p), torn)
    ensures Alive(torn) < Alive(was)
  {
    FlagShrinksAlive(was, p);
    EvolveAlive(Flagged(was, p), torn);
  }

  lemma ReleaseKeepsPds(pds: Pds, r: ResId)
    ensures PdsKept(pds, ReleaseAll(pds, r)) && SameMarks(pds, ReleaseAll(pds, r))
  {
  }

  lemma FinishDestroy(was: Pds, p: PdId, torn: Pds, swept: Pds, r: ResId, done: Pds, nested: seq<PdId>)
    requires p in was && !was[p].deleting && p in torn && PdsEvolve(Flagged(was, p), torn)
    requires PdsEvolve(torn, swept) && Settled(swept) && Victims(torn, swept, nested)
    requires done == ReleaseAll(swept, r) && torn.Keys == was.Keys && torn[p].links == []
    ensures p in done && done[p].toDelete && done[p].links == [] && PdsEvolve(Flagged(was, p), done) && Settled(done)
    ensures Victims(was, done - {p}, [p] + nested)
  {
    hide ReleaseAll;
    ReleaseKeepsPds(swept, r);
    KeptEvolves(swept, done);
    EvolveTrans(Flagged(was, p), torn, swept);
    EvolveTrans(Flagged(was, p), swept, done);
    StaysToTheEnd(was, p, torn, swept, done);
    hide PdsEvolve, Settled;
    OneMoreVictim(was, p, torn, swept, done, nested);
  }

  lemma StaysToTheEnd(was: Pds, p: PdId, torn: Pds, swept: Pds, done: Pds)
    requires p in was && p in torn && PdsEvolve(Flagged(was, p), swept) && PdsEvolve(torn, swept) && PdsKept(swept, done)
    requires torn[p].links == []
    ensures p in swept && p in done && done[p].toDelete && done[p].links == []
  {
  }

  lemma OneMoreVictim(was: Pds, p: PdId, torn: Pds, swept: Pds, done: Pds, nested: seq<PdId>)
    requires Victims(torn, swept, nested) && p in was && p in swept && torn.Keys == was.Keys && done.Keys == swept.Keys
    ensures Victims(was, done - {p}, [p] + nested)
  {
    assert p !in nested;
    var all := [p] + nested;
    forall i, j | 0 <= i < j < |all| ensures all[i] != all[j] {
      assert all[j] == nested[j - 1] && nested[j - 1] in nested;
      assert i > 0 ==> all[i] == nested[i - 1];
    }
  }

  lemma TwoDrops(a: Pds, b: Pds, c: Pds, p: PdId)
    requires PdsCleaned(a, b) && PdsCleaned(b, c) && p in a && a[p].toDelete
    ensures PdsKept(a, c) && p in c && c[p] == a[p]
    ensures SameMarks(a, b) && SameMarks(b, c) ==> SameMarks(a, c)
  {
    CleanedTrans(a, b, c);
    CleanedKept(a, c);
  }

  lemma HoldsGone(a: Pds, b: Pds, p: PdId)
    requires PdsKept(a, b) && p in a && a[p].toDelete
    ensures p in b && b[p].toDelete
  {
  }

  lemma SweepRelease(pds: Pds, spaces: Spaces, order: seq<SpaceId>, limit: int, p: PdId)
    requires Inv(pds, spaces, order) && NoneDeleting(spaces)
    requires forall s :: s in spaces && spaces[s].manager == p ==> spaces[s].toDelete
    ensures Unmanaged(Sweep(spaces, order, limit), p)
    ensures SpacesFewer(spaces, Sweep(spaces, order, limit))
  {
    SweepDeletesMarked(spaces, order, limit);
  }

  lemma TeardownEnds(a: Pds, b: Pds, c: Pds, d: Pds, p: PdId)
    requires PdsKept(a, b) && p in b && b[p].toDelete && c == LinkClosure(b, p) && PdsCleaned(c, d)
    ensures p in d && d[p].links == [] && PdsEvolve(a, d) && d.Keys == a.Keys
    ensures forall q :: q in d && Linked(a, p, q) ==> d[q].toDelete
  {
    forall q | q in d && Linked(a, p, q) ensures d[q].toDelete {
      SameLinksLinked(a, b, p, q);
    }
    KeptEvolves(a, b);
    ClosureEvolves(b, p);
    CleanedKept(c, d);
    KeptEvolves(c, d);
    EvolveTrans(a, b, c);
    EvolveTrans(a, c, d);
  }

  lemma TeardownBounded(a: Pds, b: Pds, c: Pds, p: PdId, zone: set<PdId>, limit: int)
    requires Bounded(a, zone, limit) && p in zone
    requires b == LinkClosure(a, p) && PdsCleaned(b, c) && (limit == 0 ==> SameMarks(b, c))
    ensures Bounded(c, zone, limit)
  {
    BoundedClosure(a, zone, limit, p);
    CleanedKept(b, c);
    BoundedKept(b, c, zone, limit);
  }

  lemma FewerTrans(a: Spaces, b: Spaces, c: Spaces)
    requires SpacesFewer(a, b) && SpacesFewer(b, c)
    ensures SpacesFewer(a, c)
  {
  }

  lemma FewerChain(a: Spaces, b: Spaces, c: Spaces, d: Spaces)
    requires SpacesFewer(a, b) && SpacesFewer(b, c) && SpacesFewer(c, d)
    ensures SpacesFewer(a, c) && SpacesFewer(a, d)
  {
    FewerTrans(a, b, c);
    FewerTrans(a, c, d);
  }

  lemma UnmanagedShrinks(a: Spaces, b: Spaces, p: PdId)
    requires SpacesFewer(a, b) && Unmanaged(a, p)
    ensures Unmanaged(b, p)
  {
  }

  lemma SweepStarts(pds: Pds, spaces: Spaces)
    ensures PdsEvolve(pds, pds) && Victims(pds, pds, []) && SpacesFewer(spaces, spaces)
  {
  }

  lemma MarkedIsBounded(pds: Pds, spaces: Spaces, order: seq<SpaceId>, q: PdId, zone: set<PdId>, limit: int)
    requires Inv(pds, spaces, order) && Bounded(pds, zone, limit) && q in pds && pds[q].toDelete
    ensures q != RT_PD_ID && q in zone
  {
  }

  lemma ShallowEvolves(pds: Pds, p: PdId)
    requires p in pds
    ensures PdsEvolve(pds, pds[p := pds[p].(depth := 0)])
  {
    assert PdsKept(pds, pds[p := pds[p].(depth := 0)]);
    KeptEvolves(pds, pds[p := pds[p].(depth := 0)]);
  }

  lemma SameAlive(pds: Pds, p: PdId)
    requires p in pds
    ensures Alive(pds[p := pds[p].(depth := 0)]) == Alive(pds)
  {
    assert AliveSet(pds[p := pds[p].(depth := 0)]) == AliveSet(pds);
  }

  lemma VictimsFrom(was: Pds, start: Pds, done: Pds, victims: seq<PdId>)
    requires start.Keys == was.Keys && Victims(start, done, victims)
    ensures Victims(was, done, victims)
  {
  }

  lemma SweepTurn(first: Pds, before: Pds, after: Pds, done: seq<PdId>, more: seq<PdId>)
    requires PdsEvolve(first, before) && Victims(first, before, done)
    requires PdsEvolve(before, after) && Victims(before, after, more)
    ensures PdsEvolve(first, after) && Victims(first, after, done + more)
  {
    EvolveTrans(first, before, after);
    VictimsChain(first, before, after, done, more);
  }

  // ----- facts used by the request handlers -----

  lemma ZoneBounded(pds: Pds, p: PdId, limit: int)
    requires p in pds && forall c :: c in Zone(pds, p, limit) ==> !Linked(pds, c, c)
    ensures Bounded(pds, Zone(pds, p, limit), limit) && p in Zone(pds, p, limit)
  {
    ZoneIsConfined(pds, p, limit);
    assert Fated(pds, p, p);
  }

  lemma DepthCleared(pds: Pds, spaces: Spaces, order: seq<SpaceId>, p: PdId)
    requires Inv(pds, spaces, order) && p in pds && p != RT_PD_ID
    ensures Inv(pds[p := pds[p].(depth := 0)], spaces, order)
  {
    assert PdOk(pds[p], spaces);
    ReplacePdKeepsInv(pds, spaces, order, p, pds[p].(depth := 0));
  }

  lemma DepthClearedBounded(pds: Pds, p: PdId, zone: set<PdId>, limit: int)
    requires Bounded(pds, zone, limit) && p in pds
    ensures Bounded(pds[p := pds[p].(depth := 0)], zone, limit)
  {
    assert FewerLinks(pds, pds[p := pds[p].(depth := 0)]);
    BoundedStep(pds, pds[p := pds[p].(depth := 0)], zone, limit);
  }

  /** With nothing being destroyed at the start, nothing is marked at the end. */
  lemma AllSettled(was: Pds, done: Pds)
    requires NoneDying(was) && PdsEvolve(was, done) && Settled(done)
    ensures NoMarked(done) && NoneDying(done)
  {
  }

  /** Every PD that had to go is gone. */
  lemma AllGone(was: Pds, done: Pds, p: PdId, victims: seq<PdId>, limit: int)
    requires PdsEvolve(was, done) && NoMarked(done) && Victims(was, done, victims) && p in was && p !in done
    requires forall q :: q in victims ==> q in Zone(was, p, limit)
    ensures NoNewCycles(was, done) && done.Keys <= was.Keys && p in victims
    ensures forall q :: Fated(was, p, q) ==> q !in done
    ensures forall q :: Linked(was, p, q) ==> q !in done
    ensures limit == 0 ==> forall q :: q in victims <==> q in was && Fated(was, p, q)
    ensures limit == 0 && NoMarked(was) ==> forall q :: q in victims <==> q == p || Linked(was, p, q)
  {
    EvolveFewer(was, done);
    FewerLinksNoNewCycles(was, done);
    FatedAreGone(was, done, p);
    hide PdsEvolve, NoNewCycles, Linked;
    LinkedAreRegistered(was, p);
    assert forall q :: Linked(was, p, q) ==> Fated(was, p, q);
    if NoMarked(was) {
      FatedWithoutMarks(was, p);
    }
  }

  lemma SpaceOwnIsGivable(pds: Pds, spaces: Spaces, order: seq<SpaceId>, s: SpaceId, obj: ObjId)
    requires Inv(pds, spaces, order) && s in spaces && s !in CORE_SPACES
    ensures Givable(ResId(spaces[s].kind, s, obj), spaces) && spaces[s].kind != KIND_RESSPC
  {
    assert SpaceOk(pds, s, spaces[s]);
  }

  lemma CoreSpaceRegistered(pds: Pds, spaces: Spaces, order: seq<SpaceId>, s: SpaceId)
    requires Inv(pds, spaces, order) && s in CORE_SPACES
    ensures s in spaces && RT_PD_ID in pds
  {
    assert s in spaces.Keys;
  }

  lemma FreshIsNotCore(pds: Pds, spaces: Spaces, order: seq<SpaceId>, s: SpaceId)
    requires Inv(pds, spaces, order) && s !in spaces
    ensures s !in CORE_SPACES && RT_PD_ID in pds && MO_SPACE_ID in spaces
  {
    assert MO_SPACE_ID in spaces.Keys;
  }

  lemma NewSpaceIdle(spaces: Spaces, s: SpaceId, kind: Kind, m: PdId)
    requires NoneDeleting(spaces)
    ensures NoneDeleting(spaces[s := NewSpace(kind, m)])
  {
  }

  lemma ManagedKind(pds: Pds, spaces: Spaces, order: seq<SpaceId>, s: SpaceId)
    requires Inv(pds, spaces, order) && s in spaces && s !in CORE_SPACES
    ensures SpaceKind(spaces[s].kind)
  {
    assert SpaceOk(pds, s, spaces[s]);
  }

  lemma ReleaseKeepsShape(pd: Pd, r: ResId)
    ensures Release(pd, r).links == pd.links && Release(pd, r).toDelete == pd.toDelete
    ensures Release(pd, r) == pd.(holds := Release(pd, r).holds)
  {
  }

  lemma ReleaseAllKeepsShape(pds: Pds, r: ResId)
    ensures NoMarked(pds) ==> NoMarked(ReleaseAll(pds, r))
    ensures NoneDying(pds) ==> NoneDying(ReleaseAll(pds, r))
    ensures NoNewCycles(pds, ReleaseAll(pds, r))
  {
    SameLinksNoNewCycles(pds, ReleaseAll(pds, r));
  }

  lemma CleanedLinks(a: Pds, b: Pds)
    requires PdsCleaned(a, b)
    ensures NoNewCycles(a, b)
  {
    SameLinksNoNewCycles(a, b);
  }

  lemma RowsPresent(pds: Pds, spaces: Spaces, order: seq<SpaceId>, p: PdId)
    requires Inv(pds, spaces, order) && p in pds && p != RT_PD_ID
    ensures |pds[p].rde| == KIND_MAX
  {
    assert PdOk(pds[p], spaces);
  }

  lemma DropAnyRdeKeepsInv(pds: Pds, spaces: Spaces, order: seq<SpaceId>, p: PdId, kind: Kind, s: SpaceId)
    requires Inv(pds, spaces, order) && p in pds && p != RT_PD_ID && kind < KIND_MAX
    ensures Inv(pds[p := DropRde(pds[p], kind, s)], spaces, order)
    ensures PdsKept(pds, pds[p := DropRde(pds[p], kind, s)])
  {
    assert PdOk(pds[p], spaces);
    var pd := DropRde(pds[p], kind, s);
    if kind != KIND_NONE && !pds[p].toDelete {
      assert RowOk(pds[p].rde[kind], kind, spaces);
      RemoveShrinks(pds[p].rde[kind], kind, s);
      forall t | 0 <= t < KIND_MAX ensures RowOk(pd.rde[t], t, spaces) {
        assert RowOk(pds[p].rde[t], t, spaces);
      }
    }
    ReplacePdKeepsInv(pds, spaces, order, p, pd);
  }

  lemma KillPlain(spaces: Spaces, flagged: Spaces, s: SpaceId, limit: int)
    requires s in spaces && NoneDeleting(spaces)
    requires flagged == spaces[s := spaces[s].(toDelete := true, policy := false, dontNotify := true)]
    ensures Kill(flagged, s, limit) == spaces - {s} && NoneDeleting(flagged)
  {
  }

  lemma SpaceForgotten(pds: Pds, spaces: Spaces, order: seq<SpaceId>, s: SpaceId)
    requires Inv(pds, spaces, order) && s !in spaces
    ensures forall p, r :: LivePd(pds, p) && r in pds[p].holds ==> r.space != s
  {
    UnmarkedMeansGrounded(pds, spaces, order);
  }

  // ----- linked PDs and confinement -----

  lemma FlagKeepsLinks(was: Pds, p: PdId, zone: set<PdId>, limit: int)
    requires p in was && Bounded(was, zone, limit) && p in zone
    ensures Bounded(Flagged(was, p), zone, limit)
    ensures forall q :: Linked(was, p, q) <==> Linked(Flagged(was, p), p, q)
  {
    assert FewerLinks(was, Flagged(was, p));
    BoundedStep(was, Flagged(was, p), zone, limit);
    forall q ensures Linked(was, p, q) <==> Linked(Flagged(was, p), p, q) {
      SameLinksLinked(was, Flagged(was, p), p, q);
    }
  }

  lemma RootUnlinkLinks(was: Pds, p: PdId, zone: set<PdId>, limit: int)
    requires RT_PD_ID in was && Bounded(was, zone, limit)
    ensures var start := UnlinkFromRoot(was, PdRes(p));
            Bounded(start, zone, limit) && forall q :: Linked(was, p, q) <==> Linked(start, p, q)
  {
    var start := UnlinkFromRoot(was, PdRes(p));
    assert FewerLinks(was, start);
    BoundedStep(was, start, zone, limit);
    forall q ensures Linked(was, p, q) <==> Linked(start, p, q) {
      SameLinksLinked(was, start, p, q);
    }
  }

  lemma RemovePdBounded(pds: Pds, p: PdId, zone: set<PdId>, limit: int)
    requires Bounded(pds, zone, limit)
    ensures Bounded(pds - {p}, zone, limit)
  {
    assert FewerLinks(pds, pds - {p});
    BoundedStep(pds, pds - {p}, zone, limit);
  }

  lemma LinkedAreDeleting(was: Pds, p: PdId, torn: Pds, swept: Pds, r: ResId, done: Pds)
    requires forall q :: q in torn && Linked(was, p, q) ==> torn[q].toDelete
    requires PdsEvolve(torn, swept) && Settled(swept) && done == ReleaseAll(swept, r)
    ensures forall q :: q in done && Linked(was, p, q) ==> done[q].deleting
  {
  }

  lemma ReleaseKeepsBounded(pds: Pds, r: ResId, zone: set<PdId>, limit: int)
    requires Bounded(pds, zone, limit)
    ensures Bounded(ReleaseAll(pds, r), zone, limit)
  {
    ReleaseKeepsPds(pds, r);
    BoundedKept(pds, ReleaseAll(pds, r), zone, limit);
  }

  lemma LinkedAreRegistered(pds: Pds, p: PdId)
    ensures forall q :: Linked(pds, p, q) ==> q in pds
  {
    forall q | Linked(pds, p, q) ensures q in pds {
      var path :| LinkPath(pds, path) && path[0] == p && path[|path| - 1] == q;
      assert Step(pds, path[|path| - 2], path[|path| - 1]);
    }
  }

  lemma NothingLinked(pds: Pds, p: PdId)
    requires p !in pds
    ensures forall q :: !Linked(pds, p, q)
  {
    forall q ensures !Linked(pds, p, q) {
      LinkedUnfolds(pds, p, q);
    }
  }
}
