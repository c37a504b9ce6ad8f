/** Runs of the root task, from its start, that end where one of its promises fails. */
module RootTaskRuns {
  import opened Common
  import opened Resources
  import opened RequestDirectory
  import opened SpaceGraph
  import opened ProtectionDomains
  import opened VmrSpaces
  import opened PdLinks
  import opened LinkMarking
  import opened Registration
  import opened Notices
  import opened Dependents
  import opened Lifetime

  const OLD_CAP: ResId := ResId(KIND_RESSPC, RESSPC_SPACE_ID, 9)
  const ADS_9: ResId := ResId(KIND_ADS, ADS_SPACE_ID, 9)

  /** The state in which the root task serves its first request: its own ADS, with VMR space `s`, comes next. */
  method Started(pdLimit: int, spaceLimit: int, s: SpaceId) returns (t: RootTask)
    requires s !in FIRST_SPACES && 0 < s < SPACE_ID_NULL
    ensures fresh(t) && t.Valid() && Acyclic(t.pds) && t.homes == {s} && t.order == FIRST_ORDER + [s]
    ensures t.spaces == FIRST_SPACES[s := NewSpace(KIND_VMR, RT_PD_ID).(maps := [MO_SPACE_ID])]
    ensures t.pds.Keys == {RT_PD_ID} && ResId(KIND_ADS, ADS_SPACE_ID, s) in t.pds[RT_PD_ID].holds
  {
    hide Inv, HomesOk, NoNewCycles, NoMarked, NoneDying, NoneDeleting, PolicyOn, Acyclic;
    t := new RootTask(pdLimit, spaceLimit);
    assert !HeldAsSpace(FIRST_PDS, s);
    var _ := t.AllocateAds(RT_PD_ID, s);
    AcyclicKept(FIRST_PDS, t.pds);
  }

  // ===== counting references =====

  /** What is left of `n` references after the gives (true) and revokes (false) of the script. */
  function Balance(n: nat, script: seq<bool>): nat
    decreases |script|
  {
    if script == [] then n else
      var before := Balance(n, script[..|script| - 1]);
      if script[|script| - 1] then before + 1 else if before > 0 then before - 1 else 0
  }

  /** A server gives a resource to another PD and revokes it, in any order and any number of times. */
  method GiveAndRevoke(t: RootTask, server: PdId, to: PdId, s: SpaceId, obj: ObjId, script: seq<bool>)
    requires t.Idle() && server in t.pds && to in t.pds && s in t.spaces && s !in CORE_SPACES
    requires server != RT_PD_ID && server != to && ResId(t.spaces[s].kind, s, obj) in t.pds[server].holds
    modifies t
    ensures t.Idle() && t.spaces == old(t.spaces)
    ensures var r := ResId(old(t.spaces)[s].kind, s, obj);
            Recounted(old(t.pds), t.pds, to, r, Balance(Refs(old(t.pds)[to], r), script))
  {
    hide Inv, HomesOk, NoNewCycles, NoMarked, NoneDying, NoneDeleting, PolicyOn, Counts, Refs;
    var r := ResId(t.spaces[s].kind, s, obj);
    NothingRecounted(t.pds, to, r);
    for i := 0 to |script|
      invariant t.Idle() && t.spaces == old(t.spaces)
      invariant Recounted(old(t.pds), t.pds, to, r, Balance(Refs(old(t.pds)[to], r), script[..i]))
    {
      assert script[..i + 1][..i] == script[..i];
      ghost var was, n := t.pds, Balance(Refs(old(t.pds)[to], r), script[..i]);
      var error;
      if script[i] {
        error := t.GiveResource(server, to, s, obj);
      } else {
        error := t.RevokeResource(s, obj, to);
      }
      RecountedTwice(old(t.pds), was, t.pds, to, r, n, Balance(Refs(old(t.pds)[to], r), script[..i + 1]));
    }
    assert script[..|script|] == script;
  }

  lemma NothingRecounted(pds: Pds, p: PdId, r: ResId)
    requires p in pds
    ensures Recounted(pds, pds, p, r, Refs(pds[p], r))
  {
  }

  lemma RecountedTwice(a: Pds, b: Pds, c: Pds, p: PdId, r: ResId, n: nat, m: nat)
    requires Recounted(a, b, p, r, n)
    ensures p in b && Refs(b[p], r) == n
    ensures Recounted(b, c, p, r, m) ==> Recounted(a, c, p, r, m)
  {
  }

  /** The resources of a server's space go with the server, and so does a PD that holds one, even without a request edge. */
  method HolderGoesToo(pdLimit: int) returns (t: RootTask)
    requires pdLimit == UNBOUNDED || 1 <= pdLimit
    ensures fresh(t) && t.Valid() && t.pdLimit == pdLimit && 1 !in t.pds && 2 !in t.pds && 9 !in t.spaces
  {
    hide Inv, HomesOk, NoNewCycles, NoMarked, NoneDying, NoneDeleting, PolicyOn, NoLinks, Acquire, WithEdge, Managing, NoSlot, RowFull, LivePd;
    hide CORE_SPACES, FIRST_SPACES, Recounted, Linked, Zone, Fated, Counts, Refs;
    FreeIds();
    t := ThreePds(pdLimit);
    SpaceLinks(t.pds, 1, 1);
    var error := t.CreateSpace(1, 1, 12, 9);
    AcquiredLinks(t.pds, 1);
    error := t.CreateResource(1, 9, 5);
    AcquiredLinks(t.pds, 2);
    error := t.GiveResource(1, 2, 9, 5);
    assert RESOURCE in t.pds[2].holds && RESOURCE.space == 9;
    NothingIsLinked(t.pds, 1);
    ghost var victims;
    error, victims := t.Terminate(1);
  }

  // ===== a cycle of links =====

  /**
   * Two PDs linked to each other: destroying either never ends.  A third PD is not concerned.
   */
  method TwoPdCycle(pdLimit: int, spaceLimit: int) returns (t: RootTask)
    ensures fresh(t) && t.Valid() && t.pds.Keys == {RT_PD_ID, 1, 2, 3}
    ensures t.pds[1].links == [2] && t.pds[2].links == [1]
    ensures forall fuel :: MarkFrom(t.pds, 1, fuel) == None && MarkFrom(t.pds, 2, fuel) == None
    ensures CycleFree(t.pds, 3)
  {
    hide Inv, HomesOk, NoNewCycles, NoMarked, NoneDying, NoneDeleting, PolicyOn, CycleFree, Linked, Harmless, Acquire, MarkFrom, Recounted, Refs;
    t := new RootTask(pdLimit, spaceLimit);
    var _ := t.AllocatePd(RT_PD_ID, 1);
    var _ := t.AllocatePd(RT_PD_ID, 2);
    var _ := t.AllocatePd(RT_PD_ID, 3);
    var _ := t.LinkChild(1, 2);
    var _ := t.LinkChild(2, 1);
    CycleOfTwo(t.pds);
    MarkingEndsIff(t.pds, 1);
    MarkingEndsIff(t.pds, 2);
  }

  lemma CycleOfTwo(pds: Pds)
    requires 1 in pds && 2 in pds && 3 in pds && pds[1].links == [2] && pds[2].links == [1] && pds[3].links == []
    ensures !CycleFree(pds, 1) && !CycleFree(pds, 2) && CycleFree(pds, 3)
  {
    StepLinks(pds, 1, 2);
    StepLinks(pds, 2, 1);
    LinkedTrans(pds, 1, 2, 1);
    LinkedTrans(pds, 2, 1, 2);
    NothingLinkedFrom(pds, 3);
  }

  // ===== a sender that is never answered =====

  const RESOURCE: ResId := ResId(12, 9, 5)

  method ThreePds(pdLimit: int) returns (t: RootTask)
    ensures fresh(t) && t.Valid() && t.pdLimit == pdLimit && t.pds.Keys == {RT_PD_ID, 1, 2, 3} && NoLinks(t.pds)
    ensures t.spaces == FIRST_SPACES && t.homes == {} && t.adss == {} && t.sender == None && t.answered == [] && t.notices == []
  {
    hide Inv, HomesOk, NoNewCycles, NoMarked, NoneDying, NoneDeleting, PolicyOn, NoLinks, Acquire, Recounted, Refs;
    t := new RootTask(pdLimit, 0);
    FirstLinks();
    NewPdLinks(t.pds, 1);
    var error := t.AllocatePd(RT_PD_ID, 1);
    NewPdLinks(t.pds, 2);
    error := t.AllocatePd(RT_PD_ID, 2);
    NewPdLinks(t.pds, 3);
    error := t.AllocatePd(RT_PD_ID, 3);
  }

  /** PD 1 is the server of space 9; PD 2 holds a resource there and sends it to PD 3, which waits for PD 1. */
  method SenderWaits() returns (t: RootTask)
    ensures fresh(t) && t.Valid() && t.pdLimit == 0 && t.pds.Keys == {RT_PD_ID, 1, 2, 3} && NoLinks(t.pds)
    ensures t.sender == Some(2) && t.answered == [] && t.notices == [Sent(1, RESOURCE, 3)]
  {
    hide Inv, HomesOk, NoNewCycles, NoMarked, NoneDying, NoneDeleting, PolicyOn, NoLinks, Acquire, WithEdge, Managing, NoSlot, RowFull, LivePd, Recounted, Refs;
    hide CORE_SPACES, FIRST_SPACES;
    FreeIds();
    t := ThreePds(0);
    SpaceLinks(t.pds, 1, 2);
    var error := t.CreateSpace(1, 2, 12, 9);
    AcquiredLinks(t.pds, 1);
    error := t.CreateResource(1, 9, 5);
    AcquiredLinks(t.pds, 2);
    error := t.GiveResource(1, 2, 9, 5);
    AcquiredLinks(t.pds, 3);
    error := t.SendCap(2, 3, RESOURCE);
  }

  ghost predicate NoLinks(pds: Pds) {
    forall p :: p in pds ==> pds[p].links == []
  }

  lemma FirstLinks()
    ensures NoLinks(FIRST_PDS) && 9 !in CORE_SPACES
  {
  }

  lemma NewPdLinks(pds: Pds, p: PdId)
    requires NoLinks(pds) && RT_PD_ID in pds
    ensures var wider := pds[p := NEW_PD]; NoLinks(wider[RT_PD_ID := Acquire(wider[RT_PD_ID], PdRes(p))])
  {
  }

  lemma SpaceLinks(pds: Pds, m: PdId, p: PdId)
    requires NoLinks(pds) && m in pds && p in pds
    ensures NoLinks(WithEdge(Managing(pds, m, 9), p, 12, 9))
  {
  }

  lemma AcquiredLinks(pds: Pds, p: PdId)
    requires NoLinks(pds) && p in pds
    ensures NoLinks(pds[p := Acquire(pds[p], RESOURCE)]) && RESOURCE in Acquire(pds[p], RESOURCE).holds
  {
  }

  /** The server is terminated before it takes the work: PD 2 lives on and waits, and PD 1 cannot report. */
  method LostSender() returns (t: RootTask)
    ensures fresh(t) && t.Valid() && t.pds.Keys == {RT_PD_ID, 2, 3}
    ensures t.sender == Some(2) && t.deferred == [2] && t.answered == []
  {
    hide Inv, HomesOk, NoNewCycles, NoLinks, Linked, Fated, PdsEvolve, Zone;
    t := SenderWaits();
    NothingIsLinked(t.pds, 1);
    ghost var was := t.pds;
    var error, victims := t.Terminate(1);
    assert forall q :: q in victims <==> q == 1;
    assert forall q :: q in was && q !in t.pds <==> q == 1;
  }

  lemma NothingIsLinked(pds: Pds, p: PdId)
    requires NoLinks(pds)
    ensures forall q, r :: !Linked(pds, q, r)
  {
    forall q, r ensures !Linked(pds, q, r) {
      LinkedUnfolds(pds, q, r);
    }
  }

  // ===== a space that keeps its policy after a sweep =====

  const USER: Pd :=
    NEW_PD.(holds := map[OLD_CAP := 1, ADS_9 := 1],
            rde := NEW_PD.rde[KIND_VMR := EMPTY_ROW[0 := Slot(KIND_VMR, 9)]])

  const VMR_9: Space := NewSpace(KIND_VMR, RT_PD_ID).(maps := [MO_SPACE_ID, 10])

  /** Space 9 is the VMR space of an ADS, mapped to the later space 10, whose manager is being destroyed. */
  const MAPPED_SPACES: Spaces := FIRST_SPACES[9 := VMR_9][10 := NewSpace(12, 1).(toDelete := true, policy := true)]

  const LEFT_SPACES: Spaces := FIRST_SPACES[
    9 := Space(KIND_VMR, RT_PD_ID, [MO_SPACE_ID, 10], true, true, false, 1, false)]

  /** PD 1, a server, and PD 2 with what they hold. */
  ghost predicate TwoPds(pds: Pds, server: map<ResId, Count>, user: Pd) {
    && pds.Keys == {RT_PD_ID, 1, 2} && pds[RT_PD_ID].depth == 0
    && pds[1].holds == server && pds[1].links == [] && !pds[1].toDelete && !pds[1].deleting && |pds[1].rde| == KIND_MAX
    && pds[2] == user
  }

  method StartTwoPds() returns (t: RootTask)
    ensures fresh(t) && t.Valid() && t.pdLimit == 1 && t.spaceLimit == 1
    ensures TwoPds(t.pds, map[], NEW_PD) && t.spaces == FIRST_SPACES && t.order == FIRST_ORDER && t.homes == {}
    ensures t.sender == None
  {
    hide Inv, HomesOk, NoNewCycles, NoMarked, NoneDying, NoneDeleting, PolicyOn, Acquire, Recounted, Refs;
    t := new RootTask(1, 1);
    var _ := t.AllocatePd(RT_PD_ID, 1);
    var _ := t.AllocatePd(RT_PD_ID, 2);
    assert forall p :: Acquire(NEW_PD, PdRes(p)).depth == 0 && Acquire(Acquire(NEW_PD, PdRes(1)), PdRes(p)).depth == 0 by {
      AcquiredDepth();
    }
  }

  lemma AcquiredDepth()
    ensures forall p :: Acquire(NEW_PD, PdRes(p)).depth == 0 && Acquire(Acquire(NEW_PD, PdRes(1)), PdRes(p)).depth == 0
  {
  }

  lemma ServerGains(pds: Pds, kind: Kind, s: SpaceId, user: Pd)
    requires TwoPds(pds, map[], user) && kind < KIND_MAX
    ensures TwoPds(WithEdge(Managing(pds, 1, s), 1, kind, s), map[SpaceRes(s) := 1], user)
  {
  }

  lemma UserGains(pds: Pds)
    requires TwoPds(pds, map[OLD_CAP := 1], NEW_PD)
    ensures OLD_CAP in pds[1].holds
    ensures TwoPds(pds[2 := Acquire(pds[2], OLD_CAP)], map[OLD_CAP := 1], NEW_PD.(holds := map[OLD_CAP := 1]))
  {
  }

  /** PD 1 manages a space with the ID 9, sends it to PD 2 and destroys it: PD 2 keeps the capability. */
  method OldCapability() returns (t: RootTask)
    ensures fresh(t) && t.Valid() && t.pdLimit == 1 && t.spaceLimit == 1
    ensures TwoPds(t.pds, map[], NEW_PD.(holds := map[OLD_CAP := 1]))
    ensures t.spaces == FIRST_SPACES && t.order == FIRST_ORDER && t.homes == {}
  {
    hide Inv, HomesOk, NoNewCycles, NoMarked, NoneDying, NoneDeleting, PolicyOn, AfterLoss, Acquire, Without, Silenced, WithEdge, Managing, TwoPds, Recounted, Refs;
    hide CORE_SPACES, FIRST_SPACES, NEW_PD;
    FreeIds();
    t := StartTwoPds();
    TwoPdsAre(t.pds, map[], NEW_PD);
    ServerGains(t.pds, 11, 9, NEW_PD);
    var _ := t.CreateSpace(1, 1, 11, 9);
    TwoPdsAre(t.pds, map[OLD_CAP := 1], NEW_PD);
    UserGains(t.pds);
    var error := t.SendCap(1, 2, OLD_CAP);
    var _ := t.FinishSend();
    FirstSpaceForgotten(t.pds);
    error := t.DestroySpace(9);
  }

  lemma FreeIds()
    ensures forall s :: s in FIRST_SPACES <==> s in CORE_SPACES
    ensures 9 !in CORE_SPACES && 10 !in CORE_SPACES && MO_SPACE_ID in CORE_SPACES && RESSPC_SPACE_ID in CORE_SPACES
  {
  }

  lemma TwoPdsAre(pds: Pds, server: map<ResId, Count>, user: Pd)
    requires TwoPds(pds, server, user)
    ensures 1 in pds && 2 in pds && RT_PD_ID in pds && !pds[1].deleting
  {
  }

  lemma FirstSpaceForgotten(pds: Pds)
    requires TwoPds(pds, map[OLD_CAP := 1], NEW_PD.(holds := map[OLD_CAP := 1]))
    ensures var spaces := FIRST_SPACES[9 := NewSpace(11, 1)];
            && spaces - {9} == FIRST_SPACES && Without(FIRST_ORDER + [9], 9) == FIRST_ORDER
            && TwoPds(AfterLoss(pds, spaces[9 := Silenced(spaces[9])], 9, 1), map[], NEW_PD.(holds := map[OLD_CAP := 1]))
  {
    CleanLeavesAlone(pds[2], 11, 9);
    WithoutLast(FIRST_ORDER, 9);
    var pd := CleanupPd(1, pds[1], 9, Silenced(NewSpace(11, 1)), pds[1].depth, 1);
    CleanupPdFrame(1, pds[1], 9, Silenced(NewSpace(11, 1)), pds[1].depth, 1);
    assert pd.holds == map[];
  }

  lemma {:induction false} WithoutLast(order: seq<SpaceId>, s: SpaceId)
    requires s !in order
    ensures Without(order + [s], s) == order
  {
    if order != [] {
      WithoutLast(order[1..], s);
      assert (order + [s])[1..] == order[1..] + [s];
    }
  }

  /** PD 2 gets an ADS whose VMR space has the ID 9, and maps that space to space 10 of PD 1 with the old capability. */
  method MappedByOldCapability() returns (t: RootTask)
    ensures fresh(t) && t.Valid() && t.pdLimit == 1 && t.spaceLimit == 1
    ensures TwoPds(t.pds, map[SpaceRes(10) := 1], USER)
    ensures t.spaces == FIRST_SPACES[9 := VMR_9][10 := NewSpace(12, 1)] && t.order == FIRST_ORDER + [9, 10] && t.homes == {}
    ensures 9 in t.adss
  {
    hide Inv, HomesOk, NoNewCycles, NoMarked, NoneDying, NoneDeleting, PolicyOn, WithEdge, Managing, TwoPds, WithAds, NoSlot, HeldAsSpace;
    hide CORE_SPACES, FIRST_SPACES, NEW_PD;
    FreeIds();
    t := OldCapability();
    TwoPdsAre(t.pds, map[], NEW_PD.(holds := map[OLD_CAP := 1]));
    UserGetsAds(t.pds);
    var error := t.AllocateAds(2, 9);
    TwoPdsAre(t.pds, map[], USER);
    ServerGains(t.pds, 12, 10, USER);
    error := t.CreateSpace(1, 1, 12, 10);
    error := t.MapSpace(9, 10);
    MapsAre(t.spaces, t.order);
  }

  lemma MapsAre(spaces: Spaces, order: seq<SpaceId>)
    requires order == (FIRST_ORDER + [9]) + [10]
    requires var vmr := NewSpace(KIND_VMR, RT_PD_ID).(maps := [MO_SPACE_ID]);
             spaces == FIRST_SPACES[9 := vmr][10 := NewSpace(12, 1)][9 := vmr.(maps := [MO_SPACE_ID] + [10])]
    ensures order == FIRST_ORDER + [9, 10] && spaces == FIRST_SPACES[9 := VMR_9][10 := NewSpace(12, 1)]
  {
    hide FIRST_SPACES;
    assert [MO_SPACE_ID] + [10] == [MO_SPACE_ID, 10];
    assert spaces[9] == VMR_9;
    assert forall s :: s in spaces <==> s in FIRST_SPACES || s == 9 || s == 10;
  }

  lemma UserGetsAds(pds: Pds)
    requires TwoPds(pds, map[], NEW_PD.(holds := map[OLD_CAP := 1]))
    ensures 2 in pds && RT_PD_ID in pds && HeldAsSpace(pds, 9) && !NoSlot(pds, 2, KIND_VMR, 9)
    ensures TwoPds(WithAds(WithEdge(pds, 2, KIND_VMR, 9), 2, 9), map[], USER)
  {
    assert OLD_CAP in pds[2].holds;
    assert InsertStop(EMPTY_ROW, KIND_VMR, 9, 0) == 0;
    assert EMPTY_ROW[0].kind == KIND_NONE;
  }

  /** PD 1 is being destroyed, and PD 2 is the user. */
  ghost predicate ServerDies(pds: Pds, server: map<ResId, Count>, user: Pd) {
    && pds.Keys == {RT_PD_ID, 1, 2} && pds[RT_PD_ID].depth == 0 && !pds[RT_PD_ID].toDelete
    && pds[1].holds == server && pds[1].links == [] && pds[1].toDelete && pds[1].deleting && pds[1].depth == 0
    && pds[2] == user
  }

  // PD 1 is destroyed: the steps of `Terminate(1)`, when no ADS dies.

  /** PD 1 is flagged and gives up its only hold, that of space 10, which is marked with its policy on. */
  method ServerFlagged() returns (t: RootTask)
    ensures fresh(t) && t.Ok() && NoneDeleting(t.spaces) && t.pdLimit == 1 && t.spaceLimit == 1
    ensures t.deferred == t.answered + Waiting(t.sender)
    ensures ServerDies(t.pds, map[], USER) && t.spaces == MAPPED_SPACES && t.order == FIRST_ORDER + [9, 10] && t.homes == {}
    ensures 9 in t.adss && PolicyOn(t.spaces)
  {
    hide Inv, HomesOk, NoMarked, NoneDying, NoneDeleting, PolicyOn, TwoPds, ServerDies;
    hide CORE_SPACES, FIRST_SPACES, NEW_PD, FIRST_ORDER, MAPPED_SPACES, Begun, Unlink, FreeNotice;
    t := MappedByOldCapability();
    TwoPdsAre(t.pds, map[SpaceRes(10) := 1], USER);
    DestructionBegins(t.pds, t.spaces, t.order);
    t.pds := Begun(t.pds);
    t.destroyed := t.destroyed + [1];
    ServerDiesHolding(t.pds, map[SpaceRes(10) := 1], SpaceRes(10));
    t.DeleteHold(1, SpaceRes(10), None);
    ManagedSpaceMarked();
  }

  /**
   * PD 1 has no links, so the sweeps follow.  The sweep over the spaces visits space 9 before it deletes
   * space 10, so space 9 is left marked, with its policy on.  No other PD is marked.
   */
  method SweptTooEarly() returns (t: RootTask)
    ensures fresh(t) && t.Valid() && t.pdLimit == 1 && t.spaceLimit == 1
    ensures t.pds.Keys == {RT_PD_ID, 2} && t.pds[2] == USER && t.pds[RT_PD_ID].depth == 0
    ensures t.spaces == LEFT_SPACES && 9 in t.adss
  {
    hide Inv, HomesOk, NoMarked, NoneDying, NoneDeleting, PolicyOn, ServerDies, PdsCleaned, SameMarks, Led, HoldsStay, SameFrees;
    hide CORE_SPACES, FIRST_SPACES, NEW_PD, FIRST_ORDER, MAPPED_SPACES, LEFT_SPACES, Sweep, SweepPds, ReleaseAll;
    t := ServerFlagged();
    ServerSwept(t.pds);
    t.SpaceSweep();
    ServerReleased(t.pds);
    t.ResourceCleanup(PdRes(1));
    ServerGone(t.pds, t.spaces, t.order);
    t.pds := t.pds - {1};
  }

  /** The registry once PD 1 is unlinked from the root task and flagged. */
  function Begun(pds: Pds): (r: Pds)
    requires RT_PD_ID in pds && 1 in pds
    ensures r.Keys == pds.Keys
  {
    Flagged(UnlinkFromRoot(pds[1 := pds[1].(depth := 0)], PdRes(1)), 1)
  }

  lemma DestructionBegins(pds: Pds, spaces: Spaces, order: seq<SpaceId>)
    requires TwoPds(pds, map[SpaceRes(10) := 1], USER) && Inv(pds, spaces, order)
    ensures 1 in pds && RT_PD_ID in pds
    ensures Inv(Begun(pds), spaces, order) && HomesOk(Begun(pds), spaces, {})
    ensures ServerDies(Begun(pds), map[SpaceRes(10) := 1], USER)
  {
    RootIsLive(pds, spaces, order);
    ServerBegins(pds);
    hide Inv, TwoPds, ServerDies;
    TwoPdsAre(pds, map[SpaceRes(10) := 1], USER);
    DepthCleared(pds, spaces, order, 1);
    RootUnlinkStep(pds[1 := pds[1].(depth := 0)], spaces, order, 1);
    FlagStep(UnlinkFromRoot(pds[1 := pds[1].(depth := 0)], PdRes(1)), spaces, order, 1);
  }

  lemma RootIsLive(pds: Pds, spaces: Spaces, order: seq<SpaceId>)
    requires Inv(pds, spaces, order)
    ensures RT_PD_ID in pds && !pds[RT_PD_ID].toDelete
  {
  }

  lemma ServerBegins(pds: Pds)
    requires TwoPds(pds, map[SpaceRes(10) := 1], USER) && !pds[RT_PD_ID].toDelete
    ensures ServerDies(Begun(pds), map[SpaceRes(10) := 1], USER)
  {
  }

  lemma ServerDiesHolding(pds: Pds, server: map<ResId, Count>, r: ResId)
    requires ServerDies(pds, server, USER)
    ensures 1 in pds && pds[1].holds == server && pds[1].depth == 0
    ensures ServerDies(pds[1 := Unlink(pds[1], r)], server - {r}, USER)
  {
  }

  lemma ManagedSpaceMarked()
    ensures MarkOne(FIRST_SPACES[9 := VMR_9][10 := NewSpace(12, 1)], 10, true) == MAPPED_SPACES
    ensures map[SpaceRes(10) := 1] - {SpaceRes(10)} == map[] && NoneDeleting(MAPPED_SPACES) && PolicyOn(MAPPED_SPACES)
  {
  }

  lemma ServerSwept(pds: Pds)
    requires ServerDies(pds, map[], USER)
    ensures ServerDies(SweepPds(pds, MAPPED_SPACES, FIRST_ORDER + [9, 10], 1, 1), map[], USER)
    ensures Sweep(MAPPED_SPACES, FIRST_ORDER + [9, 10], 1) == LEFT_SPACES
  {
    LeftoverSweep();
    assert FIRST_ORDER + [9, 10] == (FIRST_ORDER + [9]) + [10];
    SweepPdsPasses(pds, MAPPED_SPACES, FIRST_ORDER + [9], [10], 1, 1);
    assert [10][1..] == [];
    var start := UnlinkFromRoot(pds, SpaceRes(10));
    LastSpaceSpares(start);
    assert SweepPds(pds, MAPPED_SPACES, [10], 1, 1) == CleanupSpace(start, 10, MAPPED_SPACES[10], 1);
  }

  /** PD 2 does not depend on space 10. */
  lemma LastSpaceSpares(pds: Pds)
    requires ServerDies(pds, map[], USER)
    ensures ServerDies(CleanupSpace(pds, 10, MAPPED_SPACES[10], 1), map[], USER)
  {
    CleanLeavesAlone(USER, 12, 10);
    assert !Found(USER.rde[12], 12, 10) && !HasResourcesIn(USER, 10);
  }

  lemma ServerReleased(pds: Pds)
    requires ServerDies(pds, map[], USER)
    ensures ServerDies(ReleaseAll(pds, PdRes(1)), map[], USER)
  {
  }

  lemma ServerGone(pds: Pds, spaces: Spaces, order: seq<SpaceId>)
    requires ServerDies(pds, map[], USER) && Inv(pds, spaces, order) && spaces == LEFT_SPACES
    ensures Inv(pds - {1}, spaces, order) && HomesOk(pds - {1}, spaces, {})
    ensures NoMarked(pds - {1}) && NoneDying(pds - {1})
    ensures (pds - {1}).Keys == {RT_PD_ID, 2} && (pds - {1})[2] == USER && (pds - {1})[RT_PD_ID].depth == 0
  {
    RemovePdKeepsInv(pds, spaces, order, 1);
  }

  lemma UserDepends()
    ensures Depends(USER, KIND_VMR, 9)
  {
    assert LookupHit(USER.rde[KIND_VMR][0], KIND_VMR, 9);
  }

  lemma LeftoverSweep()
    ensures Sweep(MAPPED_SPACES, FIRST_ORDER + [9, 10], 1) == LEFT_SPACES
  {
    assert FIRST_ORDER + [9, 10] == (FIRST_ORDER + [9]) + [10];
    SweepPasses(MAPPED_SPACES, FIRST_ORDER + [9], [10], 1);
    assert [10][1..] == [];
    assert Sweep(MAPPED_SPACES, [10], 1) == Kill(MAPPED_SPACES, 10, 1);
    LastSpaceKilled();
  }

  lemma LastSpaceKilled()
    ensures Kill(MAPPED_SPACES, 10, 1) == LEFT_SPACES
  {
    var killed := Kill(MAPPED_SPACES, 10, 1);
    assert MAPPED_SPACES[9].maps[1] == 10;
    assert killed.Keys == LEFT_SPACES.Keys;
    forall x | x in killed ensures killed[x] == LEFT_SPACES[x] {
    }
  }

  /**
   * PD 2 disconnects from its ADS.  The VMR space goes with its policy on, and nothing sweeps afterwards:
   * PD 2 depends on that space, so it is left marked.
   */
  method LeftoverPolicy() returns (t: RootTask)
    ensures fresh(t) && t.Idle() && t.pds.Keys == {RT_PD_ID, 2} && t.pds[2].toDelete && 9 !in t.spaces
    ensures t.pds[2].rde == USER.rde && t.spaces == LEFT_SPACES - {9}
  {
    hide Inv, HomesOk, NoNewCycles, NoMarked, NoneDying, NoneDeleting, PolicyOn;
    hide FIRST_SPACES, LEFT_SPACES, USER, Kill;
    t := SweptTooEarly();
    UserStays(t.pds);
    var error := t.DropCore(2, ADS_9, Some(9));
  }

  lemma UserStays(pds: Pds)
    requires pds.Keys == {RT_PD_ID, 2} && pds[2] == USER && pds[RT_PD_ID].depth == 0
    ensures LastHold(pds, 2, ADS_9) && LosesSpace(LEFT_SPACES, Some(9)) && LossMarks(pds, LEFT_SPACES, 9, 1)
    ensures var after := AfterLoss(pds, LEFT_SPACES, 9, 1);
            after.Keys == pds.Keys && after[2].toDelete && after[2].rde == USER.rde
    ensures Kill(LEFT_SPACES, 9, 1) == LEFT_SPACES - {9}
  {
    UserDepends();
    LeftoverKilled();
  }

  lemma LeftoverKilled()
    ensures Kill(LEFT_SPACES, 9, 1) == LEFT_SPACES - {9}
  {
    assert forall x :: x in LEFT_SPACES && x != 9 ==> LEFT_SPACES[x].maps == [];
  }

  // ===== an entry of a marked PD =====

  /** The marked PD 2 still lists the VMR space 9.  Once PD 3 has a space with that ID, PD 2 shares the old entry with it. */
  method OutdatedEntry() returns (t: RootTask)
    ensures fresh(t) && !t.Idle() && LivePd(t.pds, 3) && 9 in t.spaces && t.spaces[9].kind == 12
    ensures |t.pds[3].rde| == KIND_MAX && Lists(t.pds[3].rde[KIND_VMR], KIND_VMR, 9)
  {
    hide Inv, HomesOk, NoNewCycles, NoMarked, NoneDying, NoneDeleting, PolicyOn, WithEdge, Managing, Outdated, NoSlot, RowFull;
    hide CORE_SPACES, FIRST_SPACES, LEFT_SPACES, NEW_PD, USER, LivePd, AddRde;
    t := LeftoverPolicy();
    var error := t.AllocatePd(RT_PD_ID, 3);
    NewServer(t.pds, 3);
    error := t.CreateSpace(3, 3, 12, 9);
    EntryIsOutdated(t.pds, t.spaces);
    error := t.ShareRde(2, 3, KIND_VMR, 9);
  }

  lemma NewServer(pds: Pds, p: PdId)
    requires p in pds && pds[p] == NEW_PD && p != RT_PD_ID
    ensures var pd := WithEdge(Managing(pds, p, 9), p, 12, 9)[p];
            |pd.rde| == KIND_MAX && pd.rde[KIND_VMR] == EMPTY_ROW && !pd.toDelete
    ensures forall q :: q in pds && q != p ==> WithEdge(Managing(pds, p, 9), p, 12, 9)[q] == pds[q]
  {
  }

  lemma EntryIsOutdated(pds: Pds, spaces: Spaces)
    requires 2 in pds && pds[2].rde == USER.rde && 9 in spaces && spaces[9].kind == 12
    requires 3 in pds && |pds[3].rde| == KIND_MAX && pds[3].rde[KIND_VMR] == EMPTY_ROW && !pds[3].toDelete
    ensures Outdated(pds, spaces, 2, 3, KIND_VMR, 9) && LivePd(pds, 3)
    ensures FirstHit(pds[2].rde[KIND_VMR], KIND_VMR, 9) == 0 && pds[2].rde[KIND_VMR][0].space == 9
    ensures var after := pds[3 := AddRde(pds[3], KIND_VMR, 9)];
            LivePd(after, 3) && |after[3].rde| == KIND_MAX && Lists(after[3].rde[KIND_VMR], KIND_VMR, 9)
  {
    var row := USER.rde[KIND_VMR];
    assert LookupHit(row[0], KIND_VMR, 9);
    assert EMPTY_ROW[0].kind == KIND_NONE;
    assert InsertStop(EMPTY_ROW, KIND_VMR, 9, 0) == 0;
    assert Entry(Insert(EMPTY_ROW, KIND_VMR, 9), KIND_VMR, 9, 0);
  }

  /** Cleaning changes nothing in a PD that has neither a hold in the space nor an entry for it. */
  lemma CleanLeavesAlone(pd: Pd, kind: Kind, s: SpaceId)
    requires kind < |pd.rde| && forall i :: 0 <= i < |pd.rde[kind]| ==> !RemoveHit(pd.rde[kind][i], kind, s)
    requires forall r :: r in pd.holds ==> r.space != s
    ensures Clean(pd, kind, s) == pd
  {
    var row := Remove(pd.rde[kind], kind, s);
    assert row == pd.rde[kind];
    assert pd.rde[kind := row] == pd.rde;
    assert DropHolds(pd, s).holds == pd.holds;
  }
}
