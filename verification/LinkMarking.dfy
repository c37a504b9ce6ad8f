/**
 * The mutual recursion of marking linked PDs and deleting links, with a bound on its depth: it ends
 * exactly if no cycle of links can be reached from the PD it starts at.
 */
module LinkMarking {
  import opened Common
  import opened Resources
  import opened ProtectionDomains
  import opened PdLinks

  /** What is left of the links of `p` once the callback of its first link is through. */
  function PopLink(pds: Pds, p: PdId): Pds {
    if p in pds && pds[p].links != [] then pds[p := pds[p].(links := pds[p].links[1..])] else pds
  }

  /** The callback of a link to `c`: mark `c`, if it is registered. */
  function MarkChild(pds: Pds, c: PdId): Pds {
    if c in pds then pds[c := Marked(pds[c])] else pds
  }

  /**
   * Delete the links of `p` one by one.  The callback marks the linked PD and deletes that PD's links,
   * and only then the link itself goes.  Nothing is returned when more than `fuel` calls are nested
   * or chained.
   */
  function MarkFrom(pds: Pds, p: PdId, fuel: nat): Option<Pds>
    decreases fuel
  {
    if p !in pds || pds[p].links == [] then Some(pds)
    else if fuel == 0 then None
    else
      match MarkFrom(MarkChild(pds, pds[p].links[0]), pds[p].links[0], fuel - 1)
      case None => None
      case Some(mid) => MarkFrom(PopLink(mid, p), p, fuel - 1)
  }

  lemma MarkFromUnfolds(pds: Pds, p: PdId, fuel: nat)
    requires p in pds && pds[p].links != []
    ensures fuel == 0 ==> MarkFrom(pds, p, fuel) == None
    ensures fuel > 0 ==>
              var deeper := MarkFrom(MarkChild(pds, pds[p].links[0]), pds[p].links[0], fuel - 1);
              MarkFrom(pds, p, fuel) == if deeper.None? then None else MarkFrom(PopLink(deeper.value, p), p, fuel - 1)
  {
  }

  lemma {:induction false} MoreFuel(pds: Pds, p: PdId, fuel: nat, more: nat)
    requires fuel <= more && MarkFrom(pds, p, fuel).Some?
    ensures MarkFrom(pds, p, more) == MarkFrom(pds, p, fuel)
    decreases fuel
  {
    if p in pds && pds[p].links != [] {
      MarkFromUnfolds(pds, p, fuel);
      MarkFromUnfolds(pds, p, more);
      hide MarkFrom, MarkChild, PopLink;
      var c := pds[p].links[0];
      var first := MarkChild(pds, c);
      MoreFuel(first, c, fuel - 1, more - 1);
      MoreFuel(PopLink(MarkFrom(first, c, fuel - 1).value, p), p, fuel - 1, more - 1);
    }
  }

  // ----- without a cycle -----

  lemma OneTurn(pds: Pds, p: PdId, c: PdId, mid: Pds, a: nat, last: Pds, b: nat) returns (fuel: nat)
    requires p in pds && pds[p].links != [] && c == pds[p].links[0]
    requires MarkFrom(MarkChild(pds, c), c, a) == Some(mid) && MarkFrom(PopLink(mid, p), p, b) == Some(last)
    ensures MarkFrom(pds, p, fuel) == Some(last)
  {
    fuel := a + b + 1;
    MarkFromUnfolds(pds, p, fuel);
    hide MarkFrom, MarkChild, PopLink;
    MoreFuel(MarkChild(pds, c), c, a, a + b);
    MoreFuel(PopLink(mid, p), p, b, a + b);
  }

  /** From the point where `k` links of `p` are gone, the loop ends with everything linked to `p` marked. */
  lemma {:induction false} MarkingEnds(was: Pds, p: PdId, k: nat) returns (fuel: nat)
    requires p in was && k <= |was[p].links| && CycleFree(was, p)
    ensures MarkFrom(Partial(was, p, k), p, fuel) == Some(LinkClosure(was, p))
    decreases LinkedSet(was, p), |was[p].links| - k
  {
    hide MarkFrom, CycleFree, LinkedSet, TouchedBy, LinkClosure;
    var now := Partial(was, p, k);
    if k == |was[p].links| {
      PartialEnds(was, p);
      NoLinksLeft(now, p);
      return 0;
    }
    var c := was[p].links[k];
    var mid, a;
    if c in was {
      StepMarksChild(was, p, k, c);
      mid := LinkClosure(MarkChild(now, c), c);
      a := MarkingEnds(MarkChild(now, c), c, 0);
      PartialStart(MarkChild(now, c), c);
      PartialStep(was, p, k, MarkChild(now, c), mid);
    } else {
      mid, a := now, 0;
      NoLinksLeft(now, c);
      PartialSkip(was, p, k);
    }
    assert PopLink(mid, p) == Partial(was, p, k + 1);
    var b := MarkingEnds(was, p, k + 1);
    fuel := OneTurn(now, p, c, mid, a, LinkClosure(was, p), b);
  }

  lemma NoLinksLeft(pds: Pds, p: PdId)
    requires p in pds ==> pds[p].links == []
    ensures MarkFrom(pds, p, 0) == Some(pds)
  {
  }

  lemma PartialStart(pds: Pds, p: PdId)
    requires p in pds
    ensures Partial(pds, p, 0) == pds
  {
  }

  lemma StepMarksChild(was: Pds, p: PdId, k: nat, c: PdId)
    requires p in was && k < |was[p].links| && c == was[p].links[k] && c in was && CycleFree(was, p)
    ensures var mid := MarkChild(Partial(was, p, k), c); CycleFree(mid, c) && LinkedSet(mid, c) < LinkedSet(was, p)
  {
    PartialIsFewer(was, p, k);
    var mid := MarkChild(Partial(was, p, k), c);
    assert FewerLinks(was, mid);
    CycleFreeChild(was, p, c);
    CycleFreeShrinks(was, mid, c);
    ChildReachesFewer(was, mid, p, c);
  }

  // ----- with a cycle -----

  predicate LinksInto(links: seq<PdId>, trap: set<PdId>) {
    exists c :: c in links && c in trap
  }

  /** Each PD in `trap` has a link into it, and no other PD has. */
  ghost predicate Trap(pds: Pds, trap: set<PdId>) {
    trap <= pds.Keys && forall q :: q in pds ==> (LinksInto(pds[q].links, trap) <==> q in trap)
  }

  /** The PDs in the trap keep their links, and the others gain none. */
  ghost predicate TrapKept(a: Pds, b: Pds, trap: set<PdId>) {
    && b.Keys == a.Keys
    && forall q :: q in a ==> if q in trap then b[q].links == a[q].links else forall c :: c in b[q].links ==> c in a[q].links
  }

  lemma KeptTrap(a: Pds, b: Pds, trap: set<PdId>)
    requires Trap(a, trap) && TrapKept(a, b, trap)
    ensures Trap(b, trap)
  {
    forall q | q in b ensures LinksInto(b[q].links, trap) <==> q in trap {
      assert LinksInto(a[q].links, trap) <==> q in trap;
    }
  }

  lemma MarkKeepsTrap(pds: Pds, c: PdId, trap: set<PdId>)
    ensures TrapKept(pds, MarkChild(pds, c), trap)
  {
  }

  lemma PopKeepsTrap(pds: Pds, p: PdId, trap: set<PdId>)
    requires p !in trap
    ensures TrapKept(pds, PopLink(pds, p), trap)
  {
  }

  lemma FirstOutside(pds: Pds, p: PdId, trap: set<PdId>)
    requires Trap(pds, trap) && p in pds && p !in trap && pds[p].links != []
    ensures pds[p].links[0] !in trap
  {
    assert pds[p].links[0] in pds[p].links;
  }

  /** Marking from outside the trap leaves it intact. */
  lemma {:induction false} OutsideKeepsTrap(pds: Pds, p: PdId, fuel: nat, trap: set<PdId>)
    requires Trap(pds, trap) && p !in trap && MarkFrom(pds, p, fuel).Some?
    ensures TrapKept(pds, MarkFrom(pds, p, fuel).value, trap)
    decreases fuel
  {
    hide Trap, MarkChild, PopLink;
    if p in pds && pds[p].links != [] {
      var c := pds[p].links[0];
      var first := MarkChild(pds, c);
      FirstOutside(pds, p, trap);
      MarkKeepsTrap(pds, c, trap);
      KeptTrap(pds, first, trap);
      OutsideKeepsTrap(first, c, fuel - 1, trap);
      var mid := MarkFrom(first, c, fuel - 1).value;
      KeptTrap(first, mid, trap);
      PopKeepsTrap(mid, p, trap);
      KeptTrap(mid, PopLink(mid, p), trap);
      OutsideKeepsTrap(PopLink(mid, p), p, fuel - 1, trap);
    }
  }

  /** Marking from inside the trap never ends. */
  lemma {:induction false} InsideNeverEnds(pds: Pds, p: PdId, fuel: nat, trap: set<PdId>)
    requires Trap(pds, trap) && p in trap
    ensures MarkFrom(pds, p, fuel) == None
    decreases fuel
  {
    hide Trap, MarkFrom;
    if MarkFrom(pds, p, fuel).Some? {
      var next, q := InsideStaysInside(pds, p, fuel, trap);
      InsideNeverEnds(next, q, fuel - 1, trap);
    }
  }

  /** One turn from inside the trap leads to another PD inside it. */
  lemma InsideStaysInside(pds: Pds, p: PdId, fuel: nat, trap: set<PdId>) returns (next: Pds, q: PdId)
    requires Trap(pds, trap) && p in trap && MarkFrom(pds, p, fuel).Some?
    ensures fuel > 0 && Trap(next, trap) && q in trap && MarkFrom(next, q, fuel - 1).Some?
  {
    hide Trap, MarkChild, PopLink, MarkFrom;
    InsideHasLinks(pds, p, trap);
    MarkFromUnfolds(pds, p, fuel);
    var c := pds[p].links[0];
    var first := MarkChild(pds, c);
    MarkedTrap(pds, c, trap);
    if c in trap {
      return first, c;
    }
    LinkOutDeleted(pds, p, c, fuel - 1, trap);
    var mid := MarkFrom(first, c, fuel - 1).value;
    return PopLink(mid, p), p;
  }

  lemma MarkedTrap(pds: Pds, c: PdId, trap: set<PdId>)
    requires Trap(pds, trap)
    ensures Trap(MarkChild(pds, c), trap)
  {
    MarkKeepsTrap(pds, c, trap);
    KeptTrap(pds, MarkChild(pds, c), trap);
  }

  /** A link that leads out of the trap is deleted, and the trap stays. */
  lemma LinkOutDeleted(pds: Pds, p: PdId, c: PdId, fuel: nat, trap: set<PdId>)
    requires Trap(pds, trap) && p in trap && p in pds && pds[p].links != [] && c == pds[p].links[0] && c !in trap
    requires MarkFrom(MarkChild(pds, c), c, fuel).Some?
    ensures Trap(PopLink(MarkFrom(MarkChild(pds, c), c, fuel).value, p), trap)
  {
    hide Trap, MarkChild, PopLink, TrapKept, MarkFrom;
    var first := MarkChild(pds, c);
    MarkedTrap(pds, c, trap);
    MarkKeepsTrap(pds, c, trap);
    OutsideKeepsTrap(first, c, fuel, trap);
    var mid := MarkFrom(first, c, fuel).value;
    KeptTrap(first, mid, trap);
    SameLinks(pds, first, mid, p, trap);
    PoppedTrap(mid, p, trap);
  }

  lemma InsideHasLinks(pds: Pds, p: PdId, trap: set<PdId>)
    requires Trap(pds, trap) && p in trap
    ensures p in pds && pds[p].links != []
  {
    assert LinksInto(pds[p].links, trap);
  }

  lemma LinksLeft(links: seq<PdId>, trap: set<PdId>)
    requires LinksInto(links, trap) && links[0] !in trap
    ensures LinksInto(links[1..], trap)
  {
    var d :| d in links && d in trap;
    assert d in links[1..];
  }

  lemma TrapWith(pds: Pds, p: PdId, pd: Pd, trap: set<PdId>)
    requires Trap(pds, trap) && p in trap && p in pds && LinksInto(pd.links, trap)
    ensures Trap(pds[p := pd], trap)
  {
    hide LinksInto;
  }

  /** The link that is deleted first leads out of the trap, so another one leads into it. */
  lemma PoppedTrap(mid: Pds, p: PdId, trap: set<PdId>)
    requires Trap(mid, trap) && p in trap && p in mid && mid[p].links != [] && mid[p].links[0] !in trap
    ensures Trap(PopLink(mid, p), trap)
  {
    assert LinksInto(mid[p].links, trap);
    LinksLeft(mid[p].links, trap);
    hide LinksInto, Trap;
    TrapWith(mid, p, mid[p].(links := mid[p].links[1..]), trap);
  }

  lemma SameLinks(a: Pds, b: Pds, c: Pds, p: PdId, trap: set<PdId>)
    requires TrapKept(a, b, trap) && TrapKept(b, c, trap) && p in trap && p in a
    ensures p in c && c[p].links == a[p].links
  {
  }

  /** The PDs from which a cycle can be reached. */
  ghost function ReachesCycle(pds: Pds): set<PdId> {
    set q | q in pds && !CycleFree(pds, q)
  }

  lemma CyclesAreTraps(pds: Pds)
    ensures Trap(pds, ReachesCycle(pds))
    ensures forall q :: q in ReachesCycle(pds) <==> q in pds && !CycleFree(pds, q)
  {
    var trap := ReachesCycle(pds);
    forall q | q in pds ensures LinksInto(pds[q].links, trap) <==> q in trap {
      if !CycleFree(pds, q) {
        var c :| (c == q || Linked(pds, q, c)) && Linked(pds, c, c);
        LinkedUnfolds(pds, q, c);
        var d :| Step(pds, q, d) && (d == c || Linked(pds, d, c));
        assert !CycleFree(pds, d);
        assert d in trap && d in pds[q].links;
      }
      if LinksInto(pds[q].links, trap) && CycleFree(pds, q) {
        var d :| d in pds[q].links && d in trap;
        CycleFreeChild(pds, q, d);
      }
    }
  }

  /** Marking ends if and only if no cycle can be reached, and then exactly the linked PDs are marked. */
  lemma MarkingEndsIff(pds: Pds, p: PdId)
    requires p in pds
    ensures (exists fuel :: MarkFrom(pds, p, fuel).Some?) <==> CycleFree(pds, p)
    ensures forall fuel :: MarkFrom(pds, p, fuel).Some? ==> MarkFrom(pds, p, fuel).value == LinkClosure(pds, p)
  {
    hide MarkFrom, CycleFree, LinkClosure, Partial, Trap, ReachesCycle;
    if CycleFree(pds, p) {
      var enough := MarkingEnds(pds, p, 0);
      PartialStart(pds, p);
      forall fuel | MarkFrom(pds, p, fuel).Some? ensures MarkFrom(pds, p, fuel).value == LinkClosure(pds, p) {
        if fuel <= enough {
          MoreFuel(pds, p, fuel, enough);
        } else {
          MoreFuel(pds, p, enough, fuel);
        }
      }
    } else {
      CyclesAreTraps(pds);
      forall fuel ensures MarkFrom(pds, p, fuel) == None {
        InsideNeverEnds(pds, p, fuel, ReachesCycle(pds));
      }
    }
  }
}
