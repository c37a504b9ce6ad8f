/**
 * Steps that add to the registries: new PDs, spaces, holds, request edges, map edges and
 * links.  Each keeps the registry invariant and, links aside, acyclicity.
 */
module Registration {
  import opened Resources
  import opened RequestDirectory
  import opened SpaceGraph
  import opened ProtectionDomains
  import opened PdLinks

  const NEW_PD := Pd(map[], seq(KIND_MAX, _ => EMPTY_ROW), [], false, false, 0)

  function NewSpace(kind: Kind, manager: PdId): Space {
    Space(kind, manager, [], false, false, false, 0, false)
  }

  ghost predicate NoMarked(pds: Pds) {
    forall p :: p in pds ==> !pds[p].toDelete
  }

  ghost predicate NoneDying(pds: Pds) {
    forall p :: p in pds ==> !pds[p].deleting
  }

  /** A PD that is neither the root task's nor marked. */
  predicate LivePd(pds: Pds, p: PdId) {
    p in pds && p != RT_PD_ID && !pds[p].toDelete
  }

  /** Between requests every hold and request edge of every live PD names a registered space. */
  lemma UnmarkedMeansGrounded(pds: Pds, spaces: Spaces, order: seq<SpaceId>)
    requires Inv(pds, spaces, order)
    ensures forall p, r :: LivePd(pds, p) && r in pds[p].holds ==> r.space in spaces
    ensures forall p :: p in pds && p != RT_PD_ID ==> |pds[p].rde| == KIND_MAX
    ensures forall p, t: Kind, s: SpaceId ::
              (LivePd(pds, p) && KIND_NONE < t < KIND_MAX && Lists(pds[p].rde[t], t, s)) ==>
                s in spaces && spaces[s].kind == t
  {
    forall p | p in pds && p != RT_PD_ID
      ensures |pds[p].rde| == KIND_MAX && (!pds[p].toDelete ==> Grounded(pds[p], spaces))
    {
      assert PdOk(pds[p], spaces);
    }
    forall p, t: Kind, s: SpaceId | LivePd(pds, p) && KIND_NONE < t < KIND_MAX
                                    && Lists(pds[p].rde[t], t, s)
      ensures s in spaces && spaces[s].kind == t
    {
      assert Grounded(pds[p], spaces) && RowOk(pds[p].rde[t], t, spaces);
    }
  }

  // ----- holds -----

  /** A hold on `r` may be given to any PD: its space is registered and of the right sort. */
  ghost predicate Givable(r: ResId, spaces: Spaces) {
    && r.space in spaces
    && (CoreKind(r.kind) ==> r.space in CORE_SPACES)
    && (r.kind == KIND_ADS || r.kind == KIND_RESSPC ==> r.obj !in CORE_SPACES)
  }

  lemma HeldIsGivable(pds: Pds, spaces: Spaces, order: seq<SpaceId>, p: PdId, r: ResId)
    requires Inv(pds, spaces, order) && p in pds && p != RT_PD_ID && r in pds[p].holds
    ensures Givable(r, spaces) <==> r.space in spaces
    ensures !pds[p].toDelete ==> r.space in spaces
  {
    assert PdOk(pds[p], spaces);
  }

  lemma AcquireKeepsInv(pds: Pds, spaces: Spaces, order: seq<SpaceId>, p: PdId, r: ResId)
    requires Inv(pds, spaces, order) && p in pds && Givable(r, spaces)
    ensures Inv(pds[p := Acquire(pds[p], r)], spaces, order)
  {
    var pds' := pds[p := Acquire(pds[p], r)];
    if p != RT_PD_ID {
      assert PdOk(pds[p], spaces);
      ReplacePdKeepsInv(pds, spaces, order, p, pds'[p]);
    } else {
      forall x | x in spaces ensures SpaceOk(pds', x, spaces[x]) {
        assert SpaceOk(pds, x, spaces[x]);
      }
    }
  }

  lemma RootReleaseKeepsInv(pds: Pds, spaces: Spaces, order: seq<SpaceId>, pd: Pd)
    requires Inv(pds, spaces, order) && pd == pds[RT_PD_ID].(holds := pd.holds)
    ensures Inv(pds[RT_PD_ID := pd], spaces, order)
  {
    var pds' := pds[RT_PD_ID := pd];
    forall x | x in spaces ensures SpaceOk(pds', x, spaces[x]) {
      assert SpaceOk(pds, x, spaces[x]);
    }
  }

  // ----- request edges -----

  function AddRde(pd: Pd, kind: Kind, s: SpaceId): Pd
    requires kind < |pd.rde|
  {
    pd.(rde := pd.rde[kind := Insert(pd.rde[kind], kind, s)])
  }

  lemma AddRdeKeepsInv(pds: Pds, spaces: Spaces, order: seq<SpaceId>, p: PdId, kind: Kind, s: SpaceId)
    requires Inv(pds, spaces, order) && p in pds && p != RT_PD_ID
    requires KIND_NONE < kind < KIND_MAX && s in spaces && |pds[p].rde| == KIND_MAX
    requires pds[p].toDelete || (spaces[s].kind == kind && !Lists(pds[p].rde[kind], kind, s))
    ensures Inv(pds[p := AddRde(pds[p], kind, s)], spaces, order)
  {
    assert PdOk(pds[p], spaces);
    var pd := AddRde(pds[p], kind, s);
    if !pds[p].toDelete {
      var row := pds[p].rde[kind];
      assert RowOk(row, kind, spaces);
      InsertEntries(row, kind, s);
      InsertKeepsUniqueIff(row, kind, s);
      forall t | 0 <= t < KIND_MAX ensures RowOk(pd.rde[t], t, spaces) {
        assert RowOk(pds[p].rde[t], t, spaces);
      }
    }
    ReplacePdKeepsInv(pds, spaces, order, p, pd);
  }

  /** A space ID that is not registered is listed in no live directory, even if it was used before. */
  lemma FreshSpaceUnlisted(pds: Pds, spaces: Spaces, order: seq<SpaceId>, p: PdId, kind: Kind, s: SpaceId)
    requires Inv(pds, spaces, order) && p in pds && p != RT_PD_ID
    requires KIND_NONE < kind < KIND_MAX && s !in spaces
    ensures |pds[p].rde| == KIND_MAX && (!pds[p].toDelete ==> !Lists(pds[p].rde[kind], kind, s))
  {
    assert PdOk(pds[p], spaces);
    if !pds[p].toDelete {
      assert RowOk(pds[p].rde[kind], kind, spaces);
    }
  }

  /**
   * The slot a lookup stops at is an entry of the row's type whenever its space is
   * registered, and a row in which the same lookup fails does not list that entry.
   */
  lemma SharedEntryIsSound(source: Row, target: Row, kind: Kind, asked: SpaceId, idx: nat, spaces: Spaces)
    requires RowOk(source, kind, spaces) && RowOf(target, kind)
    requires idx < |source| && LookupHit(source[idx], kind, asked)
    requires source[idx].space in spaces && 0 !in spaces && SPACE_ID_NULL !in spaces
    ensures kind != KIND_NONE && spaces[source[idx].space].kind == kind
    ensures !Found(target, kind, asked) ==> !Lists(target, kind, source[idx].space)
  {
    assert Entry(source, kind, source[idx].space, idx);
  }

  /** A row in which a lookup fails does not list the registered space that the lookup finds in another row. */
  lemma SharedEntryIsNew(source: Row, target: Row, kind: Kind, asked: SpaceId, idx: nat, spaces: Spaces)
    requires RowOf(source, kind) && RowOf(target, kind)
    requires idx < |source| && LookupHit(source[idx], kind, asked)
    requires source[idx].space in spaces && 0 !in spaces && SPACE_ID_NULL !in spaces
    ensures kind != KIND_NONE
    ensures !Found(target, kind, asked) ==> !Lists(target, kind, source[idx].space)
  {
  }

  lemma ReservedSpaceIds(pds: Pds, spaces: Spaces, order: seq<SpaceId>)
    requires Inv(pds, spaces, order)
    ensures 0 !in spaces && SPACE_ID_NULL !in spaces
  {
    forall x | x in spaces ensures 0 < x < SPACE_ID_NULL {
      assert SpaceOk(pds, x, spaces[x]);
    }
  }

  // ----- spaces -----

  lemma NewSpaceKeepsInv(pds: Pds, spaces: Spaces, order: seq<SpaceId>, s: SpaceId, kind: Kind, m: PdId)
    requires Inv(pds, spaces, order) && s !in spaces && 0 < s < SPACE_ID_NULL && SpaceKind(kind) && m in pds
    ensures m == RT_PD_ID ==> Inv(pds, spaces[s := NewSpace(kind, m)], order + [s])
    ensures m != RT_PD_ID ==>
              Inv(pds[m := Acquire(pds[m], SpaceRes(s))], spaces[s := NewSpace(kind, m)], order + [s])
  {
    var wider := spaces[s := NewSpace(kind, m)];
    var pds' := if m == RT_PD_ID then pds else pds[m := Acquire(pds[m], SpaceRes(s))];
    assert s !in order;
    forall p | p in pds' && p != RT_PD_ID ensures PdOk(pds'[p], wider) {
      assert PdOk(pds[p], spaces);
      if !pds[p].toDelete {
        forall t | 0 <= t < KIND_MAX ensures RowOk(pds[p].rde[t], t, wider) {
          assert RowOk(pds[p].rde[t], t, spaces);
        }
      }
    }
    forall x | x in wider ensures SpaceOk(pds', x, wider[x]) {
      if x != s {
        assert SpaceOk(pds, x, spaces[x]);
      }
    }
  }

  lemma AddMapKeepsInv(pds: Pds, spaces: Spaces, order: seq<SpaceId>, s: SpaceId, t: SpaceId)
    requires Inv(pds, spaces, order) && s in spaces && s !in CORE_SPACES
    ensures Inv(pds, spaces[s := spaces[s].(maps := spaces[s].maps + [t])], order)
  {
    RemarkKeepsInv(pds, spaces, spaces[s := spaces[s].(maps := spaces[s].maps + [t])], order);
  }

  // ----- PDs and links -----

  lemma NewPdKeepsInv(pds: Pds, spaces: Spaces, order: seq<SpaceId>, p: PdId)
    requires Inv(pds, spaces, order) && p !in pds
    ensures Inv(pds[p := NEW_PD], spaces, order)
  {
    var pds' := pds[p := NEW_PD];
    assert PdOk(NEW_PD, spaces);
    forall x | x in spaces ensures SpaceOk(pds', x, spaces[x]) {
      assert SpaceOk(pds, x, spaces[x]);
    }
  }

  /** No path goes on from a PD without links, so all links of a path that a cycle continues are old. */
  lemma PathMissesLeaf(pds: Pds, p: PdId, q: PdId, c: PdId)
    requires p !in pds && c != p && Linked(pds[p := NEW_PD], q, c)
    ensures Linked(pds, q, c)
  {
    var pds' := pds[p := NEW_PD];
    var path :| LinkPath(pds', path) && path[0] == q && path[|path| - 1] == c;
    forall i | 0 <= i < |path| - 1 ensures Step(pds, path[i], path[i + 1]) {
      assert Step(pds', path[i], path[i + 1]);
      if i + 2 < |path| {
        assert Step(pds', path[i + 1], path[i + 2]);
      }
    }
    assert LinkPath(pds, path);
  }

  lemma NewPdClosesNoCycle(pds: Pds, p: PdId)
    requires p !in pds
    ensures NoNewCycles(pds, pds[p := NEW_PD])
  {
    var pds' := pds[p := NEW_PD];
    forall q, c | CycleFree(pds, q) && (c == q || Linked(pds', q, c)) ensures !Linked(pds', c, c) {
      if Linked(pds', c, c) {
        LinkedUnfolds(pds', c, c);
        PathMissesLeaf(pds, p, c, c);
        if c != q {
          PathMissesLeaf(pds, p, q, c);
        }
      }
    }
  }

  lemma NoNewCyclesTrans(a: Pds, b: Pds, c: Pds)
    requires NoNewCycles(a, b) && NoNewCycles(b, c)
    ensures NoNewCycles(a, c)
  {
  }

  /** A hold or mark change leaves every link alone. */
  lemma SameLinksNoNewCycles(a: Pds, b: Pds)
    requires b.Keys == a.Keys && forall p :: p in a ==> b[p].links == a[p].links
    ensures NoNewCycles(a, b)
  {
    assert FewerLinks(a, b);
    FewerLinksNoNewCycles(a, b);
  }

  function AddLink(pds: Pds, p: PdId, c: PdId): (r: Pds)
    requires p in pds
    ensures r.Keys == pds.Keys
  {
    pds[p := pds[p].(links := pds[p].links + [c])]
  }

  /** A new link keeps the graph acyclic exactly when the child does not already lead back. */
  lemma AddLinkAcyclicIff(pds: Pds, p: PdId, c: PdId)
    requires p in pds && c in pds && Acyclic(pds)
    ensures Acyclic(AddLink(pds, p, c)) <==> c != p && !Linked(pds, c, p)
  {
    var b := AddLink(pds, p, c);
    assert Step(b, p, c);
    StepLinks(b, p, c);
    assert FewerLinks(b, pds);
    if Linked(pds, c, p) {
      FewerLinksLinked(b, pds, c, p);
      LinkedTrans(b, p, c, p);
    }
    if c != p && !Linked(pds, c, p) {
      forall q | q in b ensures !Linked(b, q, q) {
        if Linked(b, q, q) {
          var path :| LinkPath(b, path) && path[0] == q && path[|path| - 1] == q;
          NoNewCycle(pds, p, c, path);
        }
      }
    }
  }

  /** A path that uses the new link splits into a path to `p` and a path from `c` in the old graph. */
  lemma {:induction false} PathThroughNewLink(pds: Pds, p: PdId, c: PdId, path: seq<PdId>)
    requires p in pds && c in pds && LinkPath(AddLink(pds, p, c), path)
    ensures var (x, y) := (path[0], path[|path| - 1]);
            Linked(pds, x, y) || ((x == p || Linked(pds, x, p)) && (y == c || Linked(pds, c, y)))
    decreases |path|
  {
    var b := AddLink(pds, p, c);
    var x, z, y := path[0], path[1], path[|path| - 1];
    assert Step(b, x, z);
    if Step(pds, x, z) {
      StepLinks(pds, x, z);
    }
    if |path| > 2 {
      assert LinkPath(b, path[1..]);
      PathThroughNewLink(pds, p, c, path[1..]);
      if Step(pds, x, z) {
        if Linked(pds, z, y) {
          LinkedTrans(pds, x, z, y);
        } else if z != p {
          LinkedTrans(pds, x, z, p);
        }
      }
    }
  }

  lemma PathInto(pds: Pds, p: PdId, c: PdId, x: PdId, y: PdId)
    requires p in pds && c in pds && Linked(AddLink(pds, p, c), x, y)
    ensures Linked(pds, x, y) || ((x == p || Linked(pds, x, p)) && (y == c || Linked(pds, c, y)))
  {
    var path :| LinkPath(AddLink(pds, p, c), path) && path[0] == x && path[|path| - 1] == y;
    PathThroughNewLink(pds, p, c, path);
  }

  /** Where the new link leads is harmless: it closes no cycle, and none can be reached there. */
  ghost predicate Harmless(pds: Pds, p: PdId, c: PdId) {
    c != p && !Linked(pds, c, p) && CycleFree(pds, c)
  }

  /** From which PDs a cycle can be reached after a link is added: from those that reach the link, unless it is harmless. */
  lemma AddLinkCycleFreeIff(pds: Pds, p: PdId, c: PdId, q: PdId)
    requires p in pds && c in pds
    ensures CycleFree(AddLink(pds, p, c), q) <==>
            CycleFree(pds, q) && (q == p || Linked(pds, q, p) ==> Harmless(pds, p, c))
  {
    var b := AddLink(pds, p, c);
    assert FewerLinks(b, pds);
    if CycleFree(b, q) {
      CycleFreeShrinks(b, pds, q);
      if q == p || Linked(pds, q, p) {
        assert CycleFree(b, p) by {
          if q != p {
            FewerLinksLinked(b, pds, q, p);
            CycleFreeBelow(b, q, p);
          }
        }
        LinkBeyondFree(pds, p, c);
      }
    }
    if CycleFree(pds, q) && (q == p || Linked(pds, q, p) ==> Harmless(pds, p, c)) {
      forall d | d == q || Linked(b, q, d) ensures !Linked(b, d, d) {
        NoCycleBelow(pds, p, c, q, d);
      }
    }
  }

  lemma CycleFreeBelow(pds: Pds, q: PdId, p: PdId)
    requires CycleFree(pds, q) && Linked(pds, q, p)
    ensures CycleFree(pds, p)
  {
    forall d | d == p || Linked(pds, p, d) ensures !Linked(pds, d, d) {
      if d != p {
        LinkedTrans(pds, q, p, d);
      }
    }
  }

  lemma LinkBeyondFree(pds: Pds, p: PdId, c: PdId)
    requires p in pds && c in pds && CycleFree(AddLink(pds, p, c), p)
    ensures Harmless(pds, p, c)
  {
    var b := AddLink(pds, p, c);
    assert Step(b, p, c) && FewerLinks(b, pds);
    StepLinks(b, p, c);
    CycleFreeChild(b, p, c);
    CycleFreeShrinks(b, pds, c);
    if Linked(pds, c, p) {
      FewerLinksLinked(b, pds, c, p);
      LinkedTrans(b, p, c, p);
    }
  }

  /** A cycle through `d` would be old, or need the new link, which `q` reaches only if it is harmless. */
  lemma NoCycleBelow(pds: Pds, p: PdId, c: PdId, q: PdId, d: PdId)
    requires p in pds && c in pds && CycleFree(pds, q)
    requires d == q || Linked(AddLink(pds, p, c), q, d)
    requires q == p || Linked(pds, q, p) ==> Harmless(pds, p, c)
    ensures !Linked(AddLink(pds, p, c), d, d)
  {
    if Linked(AddLink(pds, p, c), d, d) {
      PathInto(pds, p, c, d, d);
      if d != q {
        PathInto(pds, p, c, q, d);
      }
      if !Linked(pds, d, d) {
        if d != p && d != c {
          LinkedTrans(pds, c, d, p);
        }
        if d != q && Linked(pds, q, d) && d != p {
          LinkedTrans(pds, q, d, p);
        }
      }
    }
  }

  lemma NoNewCycle(pds: Pds, p: PdId, c: PdId, path: seq<PdId>)
    requires p in pds && c in pds && Acyclic(pds) && c != p && !Linked(pds, c, p)
    requires LinkPath(AddLink(pds, p, c), path)
    ensures path[0] != path[|path| - 1]
  {
    PathThroughNewLink(pds, p, c, path);
    var q := path[0];
    assert Step(AddLink(pds, p, c), path[0], path[1]);
    if q == path[|path| - 1] && q != c && q != p && Linked(pds, c, q) && Linked(pds, q, p) {
      LinkedTrans(pds, c, q, p);
    }
  }

  lemma AddLinkKeepsInv(pds: Pds, spaces: Spaces, order: seq<SpaceId>, p: PdId, c: PdId)
    requires Inv(pds, spaces, order) && p in pds && p != RT_PD_ID && c != RT_PD_ID
    ensures Inv(AddLink(pds, p, c), spaces, order)
  {
    assert PdOk(pds[p], spaces);
    ReplacePdKeepsInv(pds, spaces, order, p, AddLink(pds, p, c)[p]);
  }
}
