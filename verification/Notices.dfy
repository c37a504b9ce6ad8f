/**
 * Work queued for resource servers.  When PDs are destroyed, the server of each resource they held is
 * told once for each of them, unless the resource's space goes too.
 */
module Notices {
  import opened Common
  import opened Resources
  import opened RequestDirectory
  import opened SpaceGraph
  import opened ProtectionDomains

  /** Work for a resource server: free one resource, destroy a whole space, or note a sent resource. */
  datatype Notice =
    | Free(server: PdId, res: ResId)
    | Destroy(server: PdId, kind: Kind, space: SpaceId)
    | Sent(server: PdId, res: ResId, client: PdId)

  /** Types whose holds are dropped with a reference count or a mark instead of a notice. */
  predicate Counted(k: Kind) {
    CoreKind(k) || k == KIND_VMR
  }

  /** The notice sent when PD `p` loses resource `r`, if any. */
  function FreeNotice(pds: Pds, spaces: Spaces, p: PdId, r: ResId): seq<Notice>
    requires p in pds
  {
    if p == RT_PD_ID || Counted(r.kind) || !pds[p].toDelete then []
    else if r.space !in spaces || spaces[r.space].toDelete || spaces[r.space].manager == p then []
    else [Free(spaces[r.space].manager, r)]
  }

  function DestroyNotice(pds: Pds, s: SpaceId, space: Space): seq<Notice>
    requires space.manager in pds
  {
    if pds[space.manager].toDelete || space.dontNotify || space.manager == RT_PD_ID then []
    else [Destroy(space.manager, space.kind, s)]
  }

  // ----- counting notices and lost holds -----

  function Told(notices: seq<Notice>, m: PdId, r: ResId): nat {
    multiset(notices)[Free(m, r)]
  }

  /** How many of the PDs that are gone held `r`. */
  function Lost(was: Pds, victims: seq<PdId>, r: ResId): nat {
    if victims == [] then 0
    else (if victims[0] in was && r in was[victims[0]].holds then 1 else 0) + Lost(was, victims[1..], r)
  }

  /** `r` is a resource of PD `m`, in a space that is registered and not due for deletion. */
  predicate ServedBy(spaces: Spaces, r: ResId, m: PdId) {
    !Counted(r.kind) && r.space in spaces && !spaces[r.space].toDelete && spaces[r.space].manager == m
  }

  /** PDs only lose holds and request edges, and none in a space that stays. */
  ghost predicate HoldsStay(a: Pds, b: Pds, spaces: Spaces) {
    forall q :: q in b ==> q in a && HoldsOfStay(a[q], b[q], spaces)
  }

  ghost predicate HoldsOfStay(a: Pd, b: Pd, spaces: Spaces) {
    && b.holds.Keys <= a.holds.Keys
    && (forall r :: r in a.holds && Lasting(spaces, r) ==> r in b.holds)
    && RowsStay(a.rde, b.rde, spaces)
  }

  /** A resource of a registered space, other than a space, PD, ADS and so on that the root task itself serves. */
  predicate Lasting(spaces: Spaces, r: ResId) {
    r.space in spaces && (r.space !in CORE_SPACES || !Counted(r.kind))
  }

  /** Request edges only go with their space. */
  ghost predicate RowsStay(a: seq<Row>, b: seq<Row>, spaces: Spaces) {
    |b| == |a| && forall t :: 0 <= t < |a| ==> RowStays(a[t], b[t], spaces)
  }

  predicate RowStays(a: Row, b: Row, spaces: Spaces) {
    |b| == |a| && forall i :: 0 <= i < |a| ==> b[i] == a[i] || (b[i] == CLEARED && a[i].space !in spaces)
  }

  ghost predicate SameFrees(before: seq<Notice>, after: seq<Notice>) {
    forall m, r :: Told(after, m, r) == Told(before, m, r)
  }

  /**
   * What the servers are told when `victims` are destroyed, which leaves `spaces` of the spaces `first`.
   * A resource whose space stays is reported to its server once for each victim that held it.  Nothing
   * is reported to a PD that did not serve the resource at first, or more often than it was held.
   */
  ghost predicate Reported(was: Pds, victims: seq<PdId>, first: Spaces, spaces: Spaces, before: seq<Notice>, after: seq<Notice>) {
    forall m, r ::
      && Told(before, m, r) <= Told(after, m, r) <= Told(before, m, r) + Lost(was, victims, r)
      && (!ServedBy(first, r, m) ==> Told(after, m, r) == Told(before, m, r))
      && (ServedBy(spaces, r, m) ==> Told(after, m, r) == Told(before, m, r) + Lost(was, victims, r))
  }

  lemma ToldMore(notices: seq<Notice>, more: seq<Notice>, m: PdId, r: ResId)
    ensures Told(notices + more, m, r) == Told(notices, m, r) + Told(more, m, r)
  {
    assert multiset(notices + more) == multiset(notices) + multiset(more);
  }

  lemma DestroyIsNoFree(notices: seq<Notice>, pds: Pds, s: SpaceId, space: Space)
    requires space.manager in pds
    ensures SameFrees(notices, notices + DestroyNotice(pds, s, space)) && SameFrees(notices, notices)
  {
    forall m, r ensures Told(notices + DestroyNotice(pds, s, space), m, r) == Told(notices, m, r) {
      ToldMore(notices, DestroyNotice(pds, s, space), m, r);
    }
  }

  lemma SameFreesTrans(a: seq<Notice>, b: seq<Notice>, c: seq<Notice>)
    requires SameFrees(a, b) && SameFrees(b, c)
    ensures SameFrees(a, c)
  {
    hide Told;
  }

  lemma {:induction false} LostTogether(was: Pds, v: seq<PdId>, w: seq<PdId>, r: ResId)
    ensures Lost(was, v + w, r) == Lost(was, v, r) + Lost(was, w, r)
  {
    if v == [] {
      assert v + w == w;
    } else {
      assert (v + w)[1..] == v[1..] + w;
      LostTogether(was, v[1..], w, r);
    }
  }

  /** What PDs lose later is what they would have lost before, as far as their holds stay. */
  lemma {:induction false} LostLater(a: Pds, b: Pds, spaces: Spaces, w: seq<PdId>, r: ResId, m: PdId)
    requires (forall q :: q in w ==> q in a && q in b && HoldsOfStay(a[q], b[q], spaces))
    ensures Lost(b, w, r) <= Lost(a, w, r)
    ensures ServedBy(spaces, r, m) ==> Lost(b, w, r) == Lost(a, w, r)
  {
    if w != [] {
      assert w[0] in w && HoldsOfStay(a[w[0]], b[w[0]], spaces);
      LostLater(a, b, spaces, w[1..], r, m);
    }
  }

  lemma StillServed(a: Spaces, b: Spaces, r: ResId, m: PdId)
    requires SpacesFewer(a, b) && ServedBy(b, r, m)
    ensures ServedBy(a, r, m)
  {
  }

  /** One destruction after another reports what both would. */
  lemma ReportedTogether(a: Pds, b: Pds, v: seq<PdId>, w: seq<PdId>, s0: Spaces, s1: Spaces, s2: Spaces,
                         n0: seq<Notice>, n1: seq<Notice>, n2: seq<Notice>)
    requires Reported(a, v, s0, s1, n0, n1) && Reported(b, w, s1, s2, n1, n2)
    requires SpacesFewer(s0, s1) && SpacesFewer(s1, s2)
    requires forall q :: q in w ==> q in a && q in b && HoldsOfStay(a[q], b[q], s1)
    ensures Reported(a, v + w, s0, s2, n0, n2)
  {
    hide Told, HoldsOfStay, ServedBy, Lost;
    forall m, r
      ensures Told(n0, m, r) <= Told(n2, m, r) <= Told(n0, m, r) + Lost(a, v + w, r)
      ensures !ServedBy(s0, r, m) ==> Told(n2, m, r) == Told(n0, m, r)
      ensures ServedBy(s2, r, m) ==> Told(n2, m, r) == Told(n0, m, r) + Lost(a, v + w, r)
    {
      LostTogether(a, v, w, r);
      LostLater(a, b, s1, w, r, m);
      if ServedBy(s2, r, m) { StillServed(s1, s2, r, m); }
      if ServedBy(s1, r, m) { StillServed(s0, s1, r, m); }
    }
  }

  lemma NothingReported(was: Pds, first: Spaces, spaces: Spaces, before: seq<Notice>, after: seq<Notice>)
    requires SameFrees(before, after)
    ensures Reported(was, [], first, spaces, before, after)
  {
    hide Told;
  }

  lemma StayTrans(a: Pds, b: Pds, c: Pds, s1: Spaces, s2: Spaces)
    requires HoldsStay(a, b, s1) && HoldsStay(b, c, s2) && SpacesFewer(s1, s2)
    ensures HoldsStay(a, c, s2)
  {
    forall q | q in c ensures q in a && HoldsOfStay(a[q], c[q], s2) {
      assert HoldsOfStay(b[q], c[q], s2) && HoldsOfStay(a[q], b[q], s1);
      StayOfTrans(a[q], b[q], c[q], s1, s2);
    }
  }

  lemma StayOfTrans(a: Pd, b: Pd, c: Pd, s1: Spaces, s2: Spaces)
    requires HoldsOfStay(a, b, s1) && HoldsOfStay(b, c, s2) && SpacesFewer(s1, s2)
    ensures HoldsOfStay(a, c, s2)
  {
    forall t | 0 <= t < |a.rde| ensures RowStays(a.rde[t], c.rde[t], s2) {
      assert RowStays(a.rde[t], b.rde[t], s1) && RowStays(b.rde[t], c.rde[t], s2);
    }
  }

  lemma StaySame(a: Pds, b: Pds, spaces: Spaces)
    requires b.Keys <= a.Keys && forall q :: q in b ==> b[q].holds == a[q].holds && b[q].rde == a[q].rde
    ensures HoldsStay(a, b, spaces)
  {
  }

  /** Deleting a space takes no holds in other spaces, except holds of spaces. */
  lemma CleanupStays(pds: Pds, s: SpaceId, space: Space, limit: int, spaces: Spaces)
    requires RT_PD_ID in pds && space.manager in pds && s !in spaces && s != SPACE_ID_NULL
    ensures HoldsStay(pds, CleanupSpace(UnlinkFromRoot(pds, SpaceRes(s)), s, space, limit), spaces)
  {
    var start := UnlinkFromRoot(pds, SpaceRes(s));
    var after := CleanupSpace(start, s, space, limit);
    forall q | q in after ensures HoldsOfStay(pds[q], after[q], spaces) {
      CleanupOfStays(q, start[q], s, space, start[space.manager].depth, limit, spaces);
      UnlinkStays(pds[q], SpaceRes(s), spaces);
    }
  }

  lemma UnlinkStays(pd: Pd, r: ResId, spaces: Spaces)
    requires Counted(r.kind) && r.space in CORE_SPACES
    ensures HoldsOfStay(pd, Unlink(pd, r), spaces) && HoldsOfStay(pd, pd, spaces) && HoldsOfStay(pd, Release(pd, r), spaces)
  {
  }

  lemma CleanupOfStays(q: PdId, pd: Pd, s: SpaceId, space: Space, depth: nat, limit: int, spaces: Spaces)
    requires s !in spaces && s != SPACE_ID_NULL
    ensures HoldsOfStay(pd, CleanupPd(q, pd, s, space, depth, limit), spaces)
  {
    UnlinkStays(pd, SpaceRes(s), spaces);
    CleanupRowsStay(pd, space.kind, s, spaces);
  }

  lemma CleanupRowsStay(pd: Pd, kind: Kind, s: SpaceId, spaces: Spaces)
    requires s !in spaces && s != SPACE_ID_NULL
    ensures RowsStay(pd.rde, DropRde(pd, kind, s).rde, spaces) && RowsStay(pd.rde, pd.rde, spaces)
  {
  }

  lemma StayMinus(a: Pds, b: Pds, p: PdId, spaces: Spaces)
    requires HoldsStay(a, b, spaces)
    ensures HoldsStay(a - {p}, b - {p}, spaces)
  {
    hide HoldsOfStay;
  }

  lemma StayWider(a: Pds, b: Pds, p: PdId, spaces: Spaces)
    requires HoldsStay(a - {p}, b - {p}, spaces)
    ensures HoldsStay(a, b - {p}, spaces)
  {
    hide HoldsOfStay;
  }

  /** PDs that start with the same holds report the same. */
  lemma ReportedFrom(was: Pds, start: Pds, victims: seq<PdId>, first: Spaces, spaces: Spaces, before: seq<Notice>, after: seq<Notice>)
    requires Reported(start, victims, first, spaces, before, after) && HoldsStay(was, start, first) && SpacesFewer(first, spaces)
    requires forall q :: q in victims ==> q in start
    ensures Reported(was, victims, first, spaces, before, after)
  {
    hide Told, HoldsOfStay, Reported;
    FreesAreSame(before);
    NothingReported(was, first, first, before, before);
    FewerSelf(first);
    ReportedTogether(was, start, [], victims, first, first, spaces, before, before, after);
    assert [] + victims == victims;
  }

  lemma FreesAreSame(notices: seq<Notice>)
    ensures SameFrees(notices, notices)
  {
  }

  lemma FewerSelf(spaces: Spaces)
    ensures SpacesFewer(spaces, spaces)
  {
  }

  /** A destruction that begins and ends without a notice. */
  lemma ReportedBetween(a: Pds, b: Pds, p: PdId, s0: Spaces, s1: Spaces, s2: Spaces, s3: Spaces,
                        n0: seq<Notice>, n1: seq<Notice>, n2: seq<Notice>, n3: seq<Notice>)
    requires SameFrees(n0, n1) && Reported(b, [p], s1, s2, n1, n2) && SameFrees(n2, n3)
    requires SpacesFewer(s0, s1) && SpacesFewer(s1, s2) && SpacesFewer(s2, s3) && SpacesFewer(s0, s2)
    requires p in a && p in b && b[p] == a[p]
    ensures Reported(a, [p], s0, s3, n0, n3)
  {
    assert HoldsOfStay(a[p], b[p], s1);
    hide Told, HoldsOfStay, Reported, SameFrees, SpacesFewer;
    NothingReported(a, s0, s1, n0, n1);
    ReportedTogether(a, b, [], [p], s0, s1, s2, n0, n1, n2);
    assert [] + [p] == [p];
    NothingReported(a, s2, s3, n2, n3);
    ReportedTogether(a, a, [p], [], s0, s2, s3, n0, n2, n3);
    assert [p] + [] == [p];
  }
}
