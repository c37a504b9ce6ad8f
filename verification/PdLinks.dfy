/**
 * Links between PDs.  Destroying a PD marks every PD linked to it, directly or through
 * other registered PDs, for deletion.
 */
module PdLinks {
  import opened Resources
  import opened ProtectionDomains

  ghost predicate Step(pds: Pds, p: PdId, q: PdId) {
    p in pds && q in pds && q in pds[p].links
  }

  ghost predicate LinkPath(pds: Pds, path: seq<PdId>) {
    |path| > 1 && forall i :: 0 <= i < |path| - 1 ==> Step(pds, path[i], path[i + 1])
  }

  ghost predicate Linked(pds: Pds, p: PdId, q: PdId) {
    exists path :: LinkPath(pds, path) && path[0] == p && path[|path| - 1] == q
  }

  ghost predicate Acyclic(pds: Pds) {
    forall p :: p in pds ==> !Linked(pds, p, p)
  }

  /** No cycle of links can be reached from `p`. */
  ghost predicate CycleFree(pds: Pds, p: PdId) {
    forall c :: c == p || Linked(pds, p, c) ==> !Linked(pds, c, c)
  }

  /** Every PD from which no cycle could be reached before is still such a PD. */
  ghost predicate NoNewCycles(a: Pds, b: Pds) {
    forall p :: CycleFree(a, p) ==> CycleFree(b, p)
  }

  lemma AcyclicIff(pds: Pds)
    ensures Acyclic(pds) <==> forall p :: CycleFree(pds, p)
  {
    forall c | Linked(pds, c, c) ensures c in pds {
      LinkedUnfolds(pds, c, c);
    }
    if forall p :: CycleFree(pds, p) {
      assert forall p :: p in pds ==> CycleFree(pds, p);
    }
  }

  lemma AcyclicKept(a: Pds, b: Pds)
    requires NoNewCycles(a, b) && Acyclic(a)
    ensures Acyclic(b)
  {
    AcyclicIff(a);
    AcyclicIff(b);
  }

  ghost function LinkedSet(pds: Pds, p: PdId): set<PdId> {
    set q | q in pds && Linked(pds, p, q)
  }

  function Marked(pd: Pd): Pd { pd.(toDelete := true) }
  function Unlinked(pd: Pd): Pd { pd.(links := []) }

  /** Marks exactly the registered PDs linked to `p`; they and `p` lose their links. */
  ghost function LinkClosure(pds: Pds, p: PdId): (r: Pds)
    ensures r.Keys == pds.Keys
  {
    map q | q in pds :: if q == p then Unlinked(pds[q])
                        else if Linked(pds, p, q) then Unlinked(Marked(pds[q]))
                        else pds[q]
  }

  /** From a marked PD: nothing but marks and links changes. */
  lemma ClosureIs(pds: Pds, p: PdId)
    requires p in pds && pds[p].toDelete
    ensures forall q :: q in pds ==>
              LinkClosure(pds, p)[q] ==
              if q == p || Linked(pds, p, q) then pds[q].(toDelete := true, links := []) else pds[q]
  {
  }

  lemma LinkedTrans(pds: Pds, p: PdId, q: PdId, r: PdId)
    requires Linked(pds, p, q) && Linked(pds, q, r)
    ensures Linked(pds, p, r)
  {
    var a :| LinkPath(pds, a) && a[0] == p && a[|a| - 1] == q;
    var b :| LinkPath(pds, b) && b[0] == q && b[|b| - 1] == r;
    var c := a + b[1..];
    assert LinkPath(pds, c) by {
      forall i | 0 <= i < |c| - 1 ensures Step(pds, c[i], c[i + 1]) {
        if i >= |a| - 1 {
          assert c[i] == b[i - (|a| - 1)] && c[i + 1] == b[i + 1 - (|a| - 1)];
        }
      }
    }
  }

  lemma StepLinks(pds: Pds, p: PdId, q: PdId)
    requires Step(pds, p, q)
    ensures Linked(pds, p, q)
  {
    assert LinkPath(pds, [p, q]);
  }

  lemma LinkedUnfolds(pds: Pds, p: PdId, q: PdId)
    ensures Linked(pds, p, q) <==> exists c :: Step(pds, p, c) && (c == q || Linked(pds, c, q))
  {
    if Linked(pds, p, q) {
      var a :| LinkPath(pds, a) && a[0] == p && a[|a| - 1] == q;
      assert Step(pds, a[0], a[1]);
      if |a| > 2 {
        assert LinkPath(pds, a[1..]);
        assert Linked(pds, a[1], q);
      }
    }
    if c :| Step(pds, p, c) && (c == q || Linked(pds, c, q)) {
      StepLinks(pds, p, c);
      if c != q {
        LinkedTrans(pds, p, c, q);
      }
    }
  }

  /** Every step of `b` is a step of `a`. */
  ghost predicate FewerLinks(a: Pds, b: Pds) {
    forall p, q :: Step(b, p, q) ==> Step(a, p, q)
  }

  lemma FewerLinksLinked(a: Pds, b: Pds, p: PdId, q: PdId)
    requires FewerLinks(a, b) && Linked(b, p, q)
    ensures Linked(a, p, q)
  {
    var path :| LinkPath(b, path) && path[0] == p && path[|path| - 1] == q;
    assert LinkPath(a, path);
  }

  lemma AcyclicShrinks(a: Pds, b: Pds)
    requires Acyclic(a) && FewerLinks(a, b)
    ensures Acyclic(b)
  {
    forall p | p in b ensures !Linked(b, p, p) {
      if Linked(b, p, p) {
        var path :| LinkPath(b, path) && path[0] == p && path[|path| - 1] == p;
        assert Step(b, path[0], path[1]);
        FewerLinksLinked(a, b, p, p);
      }
    }
  }

  lemma CycleFreeShrinks(a: Pds, b: Pds, p: PdId)
    requires CycleFree(a, p) && FewerLinks(a, b)
    ensures CycleFree(b, p)
  {
    forall c | c == p || Linked(b, p, c) ensures !Linked(b, c, c) {
      if Linked(b, p, c) {
        FewerLinksLinked(a, b, p, c);
      }
      if Linked(b, c, c) {
        FewerLinksLinked(a, b, c, c);
      }
    }
  }

  lemma FewerLinksNoNewCycles(a: Pds, b: Pds)
    requires FewerLinks(a, b)
    ensures NoNewCycles(a, b)
  {
    forall p | CycleFree(a, p) ensures CycleFree(b, p) {
      CycleFreeShrinks(a, b, p);
    }
  }

  lemma CycleFreeChild(pds: Pds, p: PdId, c: PdId)
    requires CycleFree(pds, p) && Step(pds, p, c)
    ensures CycleFree(pds, c)
  {
    StepLinks(pds, p, c);
    forall d | c == d || Linked(pds, c, d) ensures !Linked(pds, d, d) {
      if c != d {
        LinkedTrans(pds, p, c, d);
      }
    }
  }

  /** The set of linked PDs strictly shrinks from a PD to one of its children. */
  lemma ChildReachesFewer(a: Pds, b: Pds, p: PdId, c: PdId)
    requires CycleFree(a, p) && Step(a, p, c) && FewerLinks(a, b) && b.Keys == a.Keys
    ensures LinkedSet(b, c) < LinkedSet(a, p)
  {
    StepLinks(a, p, c);
    forall q | q in LinkedSet(b, c) ensures q in LinkedSet(a, p) {
      FewerLinksLinked(a, b, c, q);
      LinkedTrans(a, p, c, q);
    }
    if c in LinkedSet(b, c) {
      FewerLinksLinked(a, b, c, c);
    }
    assert c in LinkedSet(a, p) && c !in LinkedSet(b, c);
  }

  // ----- the marking loop after `k` of the links of `p` have been deleted -----

  ghost predicate TouchedBy(pds: Pds, p: PdId, k: nat, q: PdId)
    requires p in pds && k <= |pds[p].links|
  {
    exists j :: 0 <= j < k && pds[p].links[j] in pds &&
                (pds[p].links[j] == q || Linked(pds, pds[p].links[j], q))
  }

  ghost function Partial(pds: Pds, p: PdId, k: nat): (r: Pds)
    requires p in pds && k <= |pds[p].links|
    ensures r.Keys == pds.Keys
  {
    map q | q in pds :: if q == p then pds[q].(links := pds[q].links[k..])
                        else if TouchedBy(pds, p, k, q) then Unlinked(Marked(pds[q]))
                        else pds[q]
  }

  lemma PartialIsFewer(pds: Pds, p: PdId, k: nat)
    requires p in pds && k <= |pds[p].links|
    ensures FewerLinks(pds, Partial(pds, p, k))
  {
  }

  lemma TouchedIsClosed(pds: Pds, p: PdId, k: nat, q: PdId, r: PdId)
    requires p in pds && k <= |pds[p].links|
    requires TouchedBy(pds, p, k, q) && (q == r || Linked(pds, q, r))
    ensures TouchedBy(pds, p, k, r)
  {
    var j :| 0 <= j < k && pds[p].links[j] in pds && (pds[p].links[j] == q || Linked(pds, pds[p].links[j], q));
    if pds[p].links[j] != q && q != r {
      LinkedTrans(pds, pds[p].links[j], q, r);
    }
  }

  /** Away from what is already touched, the next child still reaches what it reached before. */
  lemma ChildStillReaches(pds: Pds, p: PdId, k: nat, mid: Pds, c: PdId, q: PdId)
    requires p in pds && k < |pds[p].links| && c == pds[p].links[k] && c in pds && CycleFree(pds, p)
    requires mid == Partial(pds, p, k)[c := Marked(Partial(pds, p, k)[c])]
    requires q in pds && !TouchedBy(pds, p, k, q)
    ensures Linked(mid, c, q) <==> Linked(pds, c, q)
  {
    PartialIsFewer(pds, p, k);
    assert FewerLinks(pds, mid);
    if Linked(mid, c, q) {
      FewerLinksLinked(pds, mid, c, q);
    }
    if Linked(pds, c, q) {
      var path :| LinkPath(pds, path) && path[0] == c && path[|path| - 1] == q;
      forall i | 0 <= i < |path| - 1 ensures Step(mid, path[i], path[i + 1]) {
        assert Step(pds, path[i], path[i + 1]);
        assert LinkPath(pds, path[i..]);
        assert Linked(pds, path[i], q);
        if TouchedBy(pds, p, k, path[i]) {
          TouchedIsClosed(pds, p, k, path[i], q);
        }
        if path[i] == p {
          StepLinks(pds, p, c);
          if i > 0 {
            assert LinkPath(pds, path[..i + 1]);
            assert Linked(pds, c, p);
            LinkedTrans(pds, p, c, p);
          }
        }
      }
      assert LinkPath(mid, path);
    }
  }

  lemma TouchedNext(pds: Pds, p: PdId, k: nat, q: PdId)
    requires p in pds && k < |pds[p].links|
    ensures TouchedBy(pds, p, k + 1, q) <==>
            TouchedBy(pds, p, k, q) ||
            (pds[p].links[k] in pds && (pds[p].links[k] == q || Linked(pds, pds[p].links[k], q)))
  {
  }

  /** One turn of the loop: mark the child, mark what is linked to it, drop the link. */
  lemma PartialStep(pds: Pds, p: PdId, k: nat, mid: Pds, closed: Pds)
    requires p in pds && k < |pds[p].links| && pds[p].links[k] in pds && CycleFree(pds, p)
    requires var c := pds[p].links[k];
             && mid == Partial(pds, p, k)[c := Marked(Partial(pds, p, k)[c])]
             && closed == LinkClosure(mid, c)
    ensures closed[p] == pds[p].(links := pds[p].links[k..])
    ensures closed[p := closed[p].(links := pds[p].links[k + 1..])] == Partial(pds, p, k + 1)
  {
    hide TouchedBy, Linked, CycleFree;
    var c := pds[p].links[k];
    ChildMissesParent(pds, p, k, mid, c);
    var next := closed[p := closed[p].(links := pds[p].links[k + 1..])];
    forall q | q in pds && q != p ensures next[q] == Partial(pds, p, k + 1)[q] {
      PartialStepAt(pds, p, k, mid, c, q);
    }
  }

  lemma ChildMissesParent(pds: Pds, p: PdId, k: nat, mid: Pds, c: PdId)
    requires p in pds && k < |pds[p].links| && c == pds[p].links[k] && c in pds && CycleFree(pds, p)
    requires mid == Partial(pds, p, k)[c := Marked(Partial(pds, p, k)[c])]
    ensures c != p && !Linked(mid, c, p)
  {
    StepLinks(pds, p, c);
    PartialIsFewer(pds, p, k);
    assert FewerLinks(pds, mid);
    if Linked(mid, c, p) {
      FewerLinksLinked(pds, mid, c, p);
      LinkedTrans(pds, p, c, p);
    }
  }

  lemma PartialStepAt(pds: Pds, p: PdId, k: nat, mid: Pds, c: PdId, q: PdId)
    requires p in pds && k < |pds[p].links| && c == pds[p].links[k] && c in pds && CycleFree(pds, p)
    requires mid == Partial(pds, p, k)[c := Marked(Partial(pds, p, k)[c])]
    requires q in pds && q != p && c != p
    ensures LinkClosure(mid, c)[q] == Partial(pds, p, k + 1)[q]
  {
    TouchedNext(pds, p, k, q);
    if !TouchedBy(pds, p, k, q) {
      ChildStillReaches(pds, p, k, mid, c, q);
    }
  }

  lemma PartialSkip(pds: Pds, p: PdId, k: nat)
    requires p in pds && k < |pds[p].links| && pds[p].links[k] !in pds
    ensures Partial(pds, p, k)[p := pds[p].(links := pds[p].links[k + 1..])] == Partial(pds, p, k + 1)
  {
    forall q | q in pds {
      TouchedNext(pds, p, k, q);
    }
  }

  lemma PartialEnds(pds: Pds, p: PdId)
    requires p in pds && CycleFree(pds, p)
    ensures Partial(pds, p, 0) == pds
    ensures Partial(pds, p, |pds[p].links|) == LinkClosure(pds, p)
  {
    var n := |pds[p].links|;
    assert pds[p].links[0..] == pds[p].links && pds[p].links[n..] == [];
    forall q | q in pds && q != p ensures TouchedBy(pds, p, n, q) <==> Linked(pds, p, q) {
      LinkedUnfolds(pds, p, q);
      if c :| Step(pds, p, c) && (c == q || Linked(pds, c, q)) {
        var j :| 0 <= j < n && pds[p].links[j] == c;
      }
      if TouchedBy(pds, p, n, q) {
        var j :| 0 <= j < n && pds[p].links[j] in pds && (pds[p].links[j] == q || Linked(pds, pds[p].links[j], q));
        assert Step(pds, p, pds[p].links[j]);
      }
    }
  }

  lemma EvolveFewer(a: Pds, b: Pds)
    requires PdsEvolve(a, b)
    ensures FewerLinks(a, b)
    ensures Acyclic(a) ==> Acyclic(b)
  {
    if Acyclic(a) {
      AcyclicShrinks(a, b);
    }
  }

  lemma ClosureEvolves(a: Pds, p: PdId)
    requires p in a && a[p].toDelete
    ensures PdsEvolve(a, LinkClosure(a, p))
  {
    forall q | q in a ensures LinksHonoured(a[q].links, q, LinkClosure(a, p)) {
      forall r | r in a[q].links && r in a && (q == p || Linked(a, p, q)) ensures Linked(a, p, r) {
        StepLinks(a, q, r);
        if q != p {
          LinkedTrans(a, p, q, r);
        }
      }
    }
  }

  // ----- how far marks can spread when only links spread them -----

  /** `zone` is closed under links and holds every marked PD. */
  ghost predicate Confined(pds: Pds, zone: set<PdId>) {
    && (forall q, r :: q in zone && Step(pds, q, r) ==> r in zone)
    && (forall q :: q in pds && pds[q].toDelete ==> q in zone)
  }

  lemma {:induction false} PathStaysInside(pds: Pds, zone: set<PdId>, path: seq<PdId>)
    requires Confined(pds, zone) && LinkPath(pds, path) && path[0] in zone
    ensures path[|path| - 1] in zone
    decreases |path|
  {
    assert Step(pds, path[0], path[1]);
    if |path| > 2 {
      assert LinkPath(pds, path[1..]);
      PathStaysInside(pds, zone, path[1..]);
    }
  }

  lemma ConfinedClosure(pds: Pds, zone: set<PdId>, p: PdId)
    requires Confined(pds, zone) && p in zone
    ensures Confined(LinkClosure(pds, p), zone)
  {
    forall q | q in pds && Linked(pds, p, q) ensures q in zone {
      var path :| LinkPath(pds, path) && path[0] == p && path[|path| - 1] == q;
      PathStaysInside(pds, zone, path);
    }
    assert FewerLinks(pds, LinkClosure(pds, p));
  }

  /** Marks stay within `zone`, where no cycle is; unless PD cleanup has depth 0, every PD may come to be marked. */
  ghost predicate Bounded(pds: Pds, zone: set<PdId>, limit: int) {
    Confined(pds, zone) && (forall c :: c in zone ==> !Linked(pds, c, c)) && (limit != 0 ==> pds.Keys <= zone)
  }

  lemma BoundedStep(a: Pds, b: Pds, zone: set<PdId>, limit: int)
    requires Bounded(a, zone, limit) && FewerLinks(a, b) && b.Keys <= a.Keys
    requires limit == 0 ==> forall q :: q in b && b[q].toDelete ==> q in zone
    ensures Bounded(b, zone, limit)
  {
    forall c | c in zone ensures !Linked(b, c, c) {
      if Linked(b, c, c) {
        FewerLinksLinked(a, b, c, c);
      }
    }
  }

  lemma BoundedKept(a: Pds, b: Pds, zone: set<PdId>, limit: int)
    requires Bounded(a, zone, limit) && PdsKept(a, b) && (limit == 0 ==> SameMarks(a, b))
    ensures Bounded(b, zone, limit)
  {
    assert FewerLinks(a, b);
    BoundedStep(a, b, zone, limit);
  }

  lemma BoundedClosure(pds: Pds, zone: set<PdId>, limit: int, p: PdId)
    requires Bounded(pds, zone, limit) && p in zone
    ensures Bounded(LinkClosure(pds, p), zone, limit)
  {
    ConfinedClosure(pds, zone, p);
    assert FewerLinks(pds, LinkClosure(pds, p));
    BoundedStep(pds, LinkClosure(pds, p), zone, limit);
  }

  lemma BoundedIsCycleFree(pds: Pds, zone: set<PdId>, limit: int, p: PdId)
    requires Bounded(pds, zone, limit) && p in zone
    ensures CycleFree(pds, p)
  {
    forall c | Linked(pds, p, c) ensures c in zone {
      var path :| LinkPath(pds, path) && path[0] == p && path[|path| - 1] == c;
      PathStaysInside(pds, zone, path);
    }
  }

  /** `q` goes when `p` is destroyed: it is `p` or already marked, or linked to such a PD. */
  ghost predicate Fated(pds: Pds, p: PdId, q: PdId) {
    exists m :: m in pds && (m == p || pds[m].toDelete) && (m == q || Linked(pds, m, q))
  }

  /** The PDs that may go when `p` is destroyed. */
  ghost function Zone(pds: Pds, p: PdId, limit: int): set<PdId> {
    set q | q in pds && (limit != 0 || Fated(pds, p, q))
  }

  lemma ZoneIsConfined(pds: Pds, p: PdId, limit: int)
    ensures Confined(pds, Zone(pds, p, limit))
  {
    forall q, r | q in Zone(pds, p, limit) && Step(pds, q, r) ensures r in Zone(pds, p, limit) {
      if limit == 0 {
        var m :| m in pds && (m == p || pds[m].toDelete) && (m == q || Linked(pds, m, q));
        StepLinks(pds, q, r);
        if m != q {
          LinkedTrans(pds, m, q, r);
        }
        assert Fated(pds, p, r);
      }
    }
    forall q | q in pds && pds[q].toDelete ensures q in Zone(pds, p, limit) {
      assert Fated(pds, p, q);
    }
  }

  /** When nothing is left marked, every PD linked to one that is gone is gone too. */
  lemma {:induction false} GoneAlong(a: Pds, b: Pds, path: seq<PdId>)
    requires PdsEvolve(a, b) && (forall q :: q in b ==> !b[q].toDelete)
    requires LinkPath(a, path) && path[0] !in b
    ensures path[|path| - 1] !in b
    decreases |path|
  {
    assert Step(a, path[0], path[1]) && LinksHonoured(a[path[0]].links, path[0], b);
    if |path| > 2 {
      assert LinkPath(a, path[1..]);
      GoneAlong(a, b, path[1..]);
    }
  }

  /** Every fated PD is gone in the end. */
  lemma FatedAreGone(a: Pds, b: Pds, p: PdId)
    requires PdsEvolve(a, b) && (forall q :: q in b ==> !b[q].toDelete) && p !in b
    ensures forall q :: Fated(a, p, q) ==> q !in b
  {
    forall q | Fated(a, p, q) ensures q !in b {
      var m :| m in a && (m == p || a[m].toDelete) && (m == q || Linked(a, m, q));
      assert m !in b;
      if m != q {
        var path :| LinkPath(a, path) && path[0] == m && path[|path| - 1] == q;
        GoneAlong(a, b, path);
      }
    }
  }

  lemma FatedWithoutMarks(pds: Pds, p: PdId)
    requires p in pds && forall q :: q in pds ==> !pds[q].toDelete
    ensures forall q :: Fated(pds, p, q) <==> q == p || Linked(pds, p, q)
  {
  }

  lemma SameLinksLinked(a: Pds, b: Pds, p: PdId, q: PdId)
    requires b.Keys == a.Keys && forall x :: x in a ==> b[x].links == a[x].links
    ensures Linked(a, p, q) <==> Linked(b, p, q)
  {
    assert FewerLinks(a, b) && FewerLinks(b, a);
    if Linked(a, p, q) {
      FewerLinksLinked(b, a, p, q);
    }
    if Linked(b, p, q) {
      FewerLinksLinked(a, b, p, q);
    }
  }
}
