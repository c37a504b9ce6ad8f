/**
 * Memory objects (MOs), the address spaces (ADSs) that attach them, and the references that
 * keep an MO alive: PDs that hold it, reservations that attach it, CPUs that use it as IPC
 * buffer, and the creation reference of an MO that the root task allocated for itself.
 */
module Memory {
  import opened Common
  import opened Resources

  type MoId = ObjId
  type AdsId = SpaceId
  type CpuId = ObjId
  type Vaddr = nat
  type Frame = nat

  // Reservation types.  The header that numbers them is not part of this model.
  const RES_NONE: nat := 0
  const RES_GENERIC: nat := 1
  const RES_SHARED_FRAMES: nat := 2
  const RES_DEVICE: nat := 3
  const RES_MAX: nat := 10

  function PageBytes(bits: nat): (n: nat)
    ensures n > 0
  {
    if bits == 0 then 1 else 2 * PageBytes(bits - 1)
  }

  function Extent(pages: nat, bits: nat): nat {
    pages * PageBytes(bits)
  }

  datatype Attachment = Attachment(mo: MoId, offset: nat)

  /** A reservation, keyed by its start address; `id` is its short object ID. */
  datatype Node = Node(
    id: ObjId, pages: nat, pageBits: nat, kind: nat, cacheable: bool, rights: nat,
    attached: Option<Attachment>)
  {
    function Size(): nat { Extent(pages, pageBits) }

    predicate Attaches(m: MoId) { attached.Some? && attached.value.mo == m }
  }

  datatype Ads = Ads(idMap: map<ObjId, Vaddr>, attach: map<Vaddr, Node>)

  datatype Mo = Mo(count: nat, frames: seq<Frame>, pageBits: nat)

  /** The registries, the frame capabilities copied for each attachment, and the frames freed so far. */
  datatype Mem = Mem(
    mos: map<MoId, Mo>,
    holders: map<PdId, map<MoId, Count>>,
    adss: map<AdsId, Ads>,
    cpus: map<CpuId, Option<MoId>>,
    creation: set<MoId>,
    frameCaps: map<(AdsId, Vaddr), seq<Frame>>,
    freed: seq<Frame>,
    minted: set<Frame>)

  // ===== references =====

  datatype Ref = Held(pd: PdId) | Attached(ads: AdsId, vaddr: Vaddr) | IpcBuffer(cpu: CpuId) | Creation

  predicate IsRef(s: Mem, m: MoId, r: Ref) {
    match r
    case Held(p) => p in s.holders && m in s.holders[p]
    case Attached(a, v) => a in s.adss && v in s.adss[a].attach && s.adss[a].attach[v].Attaches(m)
    case IpcBuffer(c) => c in s.cpus && s.cpus[c] == Some(m)
    case Creation => m in s.creation
  }

  function HeldRefs(s: Mem, m: MoId): set<Ref> {
    set p | p in s.holders && m in s.holders[p] :: Held(p)
  }

  function AttachedRefs(s: Mem, m: MoId): set<Ref> {
    set a, v | a in s.adss && v in s.adss[a].attach && s.adss[a].attach[v].Attaches(m) :: Attached(a, v)
  }

  function IpcRefs(s: Mem, m: MoId): set<Ref> {
    set c | c in s.cpus && s.cpus[c] == Some(m) :: IpcBuffer(c)
  }

  function Refs(s: Mem, m: MoId): (refs: set<Ref>)
    ensures forall r :: r in refs <==> IsRef(s, m, r)
  {
    HeldRefs(s, m) + AttachedRefs(s, m) + IpcRefs(s, m) + (if m in s.creation then {Creation} else {})
  }

  /** The four sorts of reference are counted separately and add up. */
  lemma RefsAddUp(s: Mem, m: MoId)
    ensures |Refs(s, m)| == |HeldRefs(s, m)| + |AttachedRefs(s, m)| + |IpcRefs(s, m)| + (if m in s.creation then 1 else 0)
  {
    var h, a, i := HeldRefs(s, m), AttachedRefs(s, m), IpcRefs(s, m);
    var c: set<Ref> := if m in s.creation then {Creation} else {};
    assert h !! a && (h + a) !! i && (h + a + i) !! c;
    assert |h + a| == |h| + |a| && |h + a + i| == |h + a| + |i| && |h + a + i + c| == |h + a + i| + |c|;
  }

  /** Every MO that anything refers to is registered, with a count that covers its references. */
  ghost predicate Covered(s: Mem) {
    && (forall m :: m in s.mos ==> 0 < s.mos[m].count && |Refs(s, m)| <= s.mos[m].count)
    && (forall m, r :: IsRef(s, m, r) ==> m in s.mos)
  }

  /** The count is exactly the number of references. */
  ghost predicate Exact(s: Mem) {
    forall m :: m in s.mos ==> s.mos[m].count == |Refs(s, m)|
  }

  // ===== counting =====

  function Inc(mos: map<MoId, Mo>, m: MoId): map<MoId, Mo>
    requires m in mos
  {
    mos[m := mos[m].(count := mos[m].count + 1)]
  }

  function DecCount(mos: map<MoId, Mo>, m: MoId): map<MoId, Mo>
    requires m in mos
  {
    if mos[m].count > 1 then mos[m := mos[m].(count := mos[m].count - 1)] else mos - {m}
  }

  /** A CPU drops one IPC buffer and takes another, each if there is one. */
  function Rebound(mos: map<MoId, Mo>, before: Option<MoId>, after: Option<MoId>): map<MoId, Mo>
    requires before.Some? ==> before.value in mos
  {
    var less := if before.Some? then DecCount(mos, before.value) else mos;
    if after.Some? && after.value in less then Inc(less, after.value) else less
  }

  /** One more reference to each of the given MOs. */
  function RaiseCounts(mos: map<MoId, Mo>, which: set<MoId>): map<MoId, Mo> {
    map m | m in mos :: if m in which then mos[m].(count := mos[m].count + 1) else mos[m]
  }

  /** One reference less to each of the given MOs; those that had just one are gone. */
  function LowerCounts(mos: map<MoId, Mo>, which: set<MoId>): map<MoId, Mo> {
    map m | m in mos && (m in which ==> mos[m].count > 1) ::
      if m in which then mos[m].(count := mos[m].count - 1) else mos[m]
  }

  lemma LowerOneMore(mos: map<MoId, Mo>, which: set<MoId>, m: MoId)
    requires m in mos && m !in which
    ensures m in LowerCounts(mos, which)
    ensures DecCount(LowerCounts(mos, which), m) == LowerCounts(mos, which + {m})
  {
  }

  /** Drop one reference; the last one destroys the MO and frees its frames. */
  function Dec(s: Mem, m: MoId): Mem
    requires m in s.mos
  {
    s.(mos := DecCount(s.mos, m), freed := s.freed + if s.mos[m].count > 1 then [] else s.mos[m].frames)
  }

  ghost predicate RefsDrop(s: Mem, t: Mem, m: MoId, r: Ref) {
    forall x, q :: IsRef(t, x, q) <==> IsRef(s, x, q) && !(x == m && q == r)
  }

  ghost predicate RefsGain(s: Mem, t: Mem, m: MoId, r: Ref) {
    forall x, q :: IsRef(t, x, q) <==> IsRef(s, x, q) || (x == m && q == r)
  }

  ghost predicate SameRefs(s: Mem, t: Mem) {
    forall x, q :: IsRef(t, x, q) <==> IsRef(s, x, q)
  }

  lemma DropShrinksRefs(s: Mem, t: Mem, m: MoId, r: Ref)
    requires IsRef(s, m, r) && RefsDrop(s, t, m, r)
    ensures forall x :: Refs(t, x) == if x == m then Refs(s, x) - {r} else Refs(s, x)
    ensures |Refs(t, m)| == |Refs(s, m)| - 1
  {
    hide IsRef, HeldRefs, AttachedRefs, IpcRefs;
    forall x ensures Refs(t, x) == if x == m then Refs(s, x) - {r} else Refs(s, x) {
    }
    assert r in Refs(s, m);
  }

  lemma LastRefGone(s: Mem, t: Mem, m: MoId, r: Ref)
    requires IsRef(s, m, r) && RefsDrop(s, t, m, r) && |Refs(s, m)| <= 1
    ensures Refs(s, m) == {r} && forall q :: !IsRef(t, m, q)
  {
    hide IsRef, HeldRefs, AttachedRefs, IpcRefs;
    DropShrinksRefs(s, t, m, r);
    assert Refs(t, m) == {};
    assert Refs(s, m) == Refs(t, m) + {r};
  }

  lemma DropKeepsCovered(s: Mem, t: Mem, m: MoId, r: Ref)
    requires Covered(s) && IsRef(s, m, r) && RefsDrop(s, t, m, r) && t.mos == DecCount(s.mos, m)
    ensures Covered(t)
    ensures Exact(s) ==> Exact(t)
    ensures m !in t.mos ==> Refs(s, m) == {r}
  {
    hide Refs, IsRef;
    DropShrinksRefs(s, t, m, r);
    assert forall x :: x in t.mos ==> x in s.mos;
    forall x | x in t.mos ensures 0 < t.mos[x].count && |Refs(t, x)| <= t.mos[x].count {
    }
    if m !in t.mos {
      LastRefGone(s, t, m, r);
    }
    forall x, q | IsRef(t, x, q) ensures x in t.mos {
      assert IsRef(s, x, q);
    }
  }

  lemma GainKeepsCovered(s: Mem, t: Mem, m: MoId, r: Ref)
    requires Covered(s) && m in s.mos && RefsGain(s, t, m, r) && t.mos == Inc(s.mos, m)
    ensures Covered(t)
    ensures Exact(s) && !IsRef(s, m, r) ==> Exact(t)
    ensures Exact(s) && IsRef(s, m, r) ==> !Exact(t)
  {
    hide Refs, IsRef;
    RefsAfterGain(s, t, m, r);
  }

  lemma SameRefsKeepCovered(s: Mem, t: Mem)
    requires Covered(s) && SameRefs(s, t) && t.mos == s.mos
    ensures Covered(t)
    ensures Exact(s) ==> Exact(t)
  {
    hide Refs, IsRef;
    RefsAfterSame(s, t);
  }

  // ===== frames and their capability copies =====

  /** Every frame ever minted belongs to exactly one registered MO or was freed exactly once. */
  ghost predicate FramesOwned(mos: map<MoId, Mo>, freed: seq<Frame>, minted: set<Frame>) {
    && Distinct(freed)
    && (forall m :: m in mos ==> Distinct(mos[m].frames))
    && (forall m, n, f :: m in mos && n in mos && f in mos[m].frames && f in mos[n].frames ==> m == n)
    && (forall m, f :: m in mos && f in mos[m].frames ==> f in minted && f !in freed)
    && (forall f :: f in freed ==> f in minted)
    && (forall f :: f in minted && f !in freed ==> exists m :: m in mos && f in mos[m].frames)
  }

  predicate IsNode(adss: map<AdsId, Ads>, a: AdsId, v: Vaddr) {
    a in adss && v in adss[a].attach
  }

  /** Each attached reservation has its own copy of every frame capability of its MO, and nothing else has. */
  ghost predicate CapsOk(adss: map<AdsId, Ads>, caps: map<(AdsId, Vaddr), seq<Frame>>, mos: map<MoId, Mo>) {
    && (forall a: AdsId, v: Vaddr :: (a, v) in caps <==> IsNode(adss, a, v) && adss[a].attach[v].attached.Some?)
    && (forall a: AdsId, v: Vaddr {:trigger IsNode(adss, a, v)} ::
          IsNode(adss, a, v) && adss[a].attach[v].attached.Some? ==>
            var m := adss[a].attach[v].attached.value.mo;
            m in mos && (a, v) in caps && caps[(a, v)] == mos[m].frames && mos[m].pageBits == adss[a].attach[v].pageBits)
  }

  lemma CountKeepsFrames(mos: map<MoId, Mo>, freed: seq<Frame>, minted: set<Frame>, m: MoId, count: nat)
    requires FramesOwned(mos, freed, minted) && m in mos
    ensures FramesOwned(mos[m := mos[m].(count := count)], freed, minted)
  {
    var t := mos[m := mos[m].(count := count)];
    assert forall x :: x in mos ==> x in t && t[x].frames == mos[x].frames;
    forall f | f in minted && f !in freed ensures exists x :: x in t && f in t[x].frames {
      var x :| x in mos && f in mos[x].frames;
      assert x in t && f in t[x].frames;
    }
  }

  lemma DestroyKeepsFrames(mos: map<MoId, Mo>, freed: seq<Frame>, minted: set<Frame>, m: MoId)
    requires FramesOwned(mos, freed, minted) && m in mos
    ensures FramesOwned(mos - {m}, freed + mos[m].frames, minted)
  {
    var all := freed + mos[m].frames;
    forall i, j | 0 <= i < j < |all| ensures all[i] != all[j] {
      if i < |freed| <= j {
        assert all[i] in freed && all[j] in mos[m].frames;
      }
    }
    forall f | f in minted && f !in all ensures exists x :: x in mos - {m} && f in (mos - {m})[x].frames {
      var x :| x in mos && f in mos[x].frames;
      assert x in mos - {m};
    }
  }

  lemma DecKeepsFrames(s: Mem, m: MoId)
    requires FramesOwned(s.mos, s.freed, s.minted) && m in s.mos
    ensures FramesOwned(Dec(s, m).mos, Dec(s, m).freed, s.minted)
  {
    hide FramesOwned;
    if s.mos[m].count > 1 {
      CountKeepsFrames(s.mos, s.freed, s.minted, m, s.mos[m].count - 1);
      assert s.freed + [] == s.freed;
    } else {
      DestroyKeepsFrames(s.mos, s.freed, s.minted, m);
    }
  }

  lemma MintKeepsFrames(mos: map<MoId, Mo>, freed: seq<Frame>, minted: set<Frame>, m: MoId, mo: Mo)
    requires FramesOwned(mos, freed, minted) && m !in mos && Distinct(mo.frames)
    requires forall f :: f in mo.frames ==> f !in minted
    ensures FramesOwned(mos[m := mo], freed, minted + set f | f in mo.frames)
  {
    var wider := mos[m := mo];
    forall f | f in minted + (set g | g in mo.frames) && f !in freed
      ensures exists x :: x in wider && f in wider[x].frames
    {
      if f in mo.frames {
        assert f in wider[m].frames;
      } else {
        var x :| x in mos && f in mos[x].frames;
        assert f in wider[x].frames;
      }
    }
  }

  lemma CapsAfterDec(adss: map<AdsId, Ads>, caps: map<(AdsId, Vaddr), seq<Frame>>, mos: map<MoId, Mo>, m: MoId)
    requires CapsOk(adss, caps, mos) && m in mos
    requires mos[m].count <= 1 ==> forall a, v :: IsNode(adss, a, v) ==> !adss[a].attach[v].Attaches(m)
    ensures CapsOk(adss, caps, DecCount(mos, m))
  {
  }

  /** No copied capability is left for any frame of `m`. */
  ghost predicate LastCopies(s: Mem, m: MoId)
    requires m in s.mos
  {
    forall k, f :: k in s.frameCaps && f in s.mos[m].frames ==> f !in s.frameCaps[k]
  }

  lemma UnattachedHasNoCopies(s: Mem, m: MoId)
    requires CapsOk(s.adss, s.frameCaps, s.mos) && FramesOwned(s.mos, s.freed, s.minted) && m in s.mos
    requires forall a, v :: IsNode(s.adss, a, v) ==> !s.adss[a].attach[v].Attaches(m)
    ensures LastCopies(s, m)
  {
    forall k, f | k in s.frameCaps && f in s.mos[m].frames ensures f !in s.frameCaps[k] {
      var (a, v) := k;
      assert (a, v) in s.frameCaps;
      assert IsNode(s.adss, a, v);
    }
  }

  // ===== address spaces =====

  predicate Disjoint(v: Vaddr, n: nat, w: Vaddr, k: nat) {
    v + n <= w || w + k <= v
  }

  /** The vspace hands out only ranges above address 0 that overlap no reservation. */
  predicate Unreserved(a: Ads, v: Vaddr, size: nat) {
    v != 0 && v !in a.attach && forall w :: w in a.attach ==> Disjoint(v, size, w, a.attach[w].Size())
  }

  /** The two registries are inverse to each other, and reserved ranges do not overlap. */
  ghost predicate AdsOk(a: Ads) {
    && 0 !in a.attach
    && (forall v :: v in a.attach && a.attach[v].kind == RES_DEVICE ==> !a.attach[v].cacheable)
    && (forall id :: id in a.idMap ==> a.idMap[id] in a.attach && a.attach[a.idMap[id]].id == id)
    && (forall v :: v in a.attach ==> a.attach[v].id in a.idMap && a.idMap[a.attach[v].id] == v)
    && (forall v, w :: v in a.attach && w in a.attach && v != w ==>
          Disjoint(v, a.attach[v].Size(), w, a.attach[w].Size()))
  }

  function GetByVaddr(a: Ads, v: Vaddr): Option<Node> {
    if v in a.attach then Some(a.attach[v]) else None
  }

  function GetById(a: Ads, id: ObjId): Option<Node> {
    if id in a.idMap then GetByVaddr(a, a.idMap[id]) else None
  }

  /** Looking a reservation up by its ID or by its address gives the same reservation. */
  lemma LookupsAgree(a: Ads, id: ObjId, n: Node)
    requires AdsOk(a)
    ensures GetById(a, id) == Some(n) <==> n.id == id && exists v :: v in a.attach && a.attach[v] == n
    ensures forall v :: GetByVaddr(a, v) == Some(n) <==> v in a.attach && a.attach[v] == n
  {
  }

  function AddNode(a: Ads, v: Vaddr, n: Node): Ads {
    Ads(a.idMap[n.id := v], a.attach[v := n])
  }

  function RemoveNode(a: Ads, v: Vaddr): Ads
    requires v in a.attach
  {
    Ads(a.idMap - {a.attach[v].id}, a.attach - {v})
  }

  lemma AddNodeKeepsOk(a: Ads, v: Vaddr, n: Node)
    requires AdsOk(a) && Unreserved(a, v, n.Size()) && n.id !in a.idMap && (n.kind == RES_DEVICE ==> !n.cacheable)
    ensures AdsOk(AddNode(a, v, n))
  {
    hide Extent;
  }

  // ----- reservations in addresses -----

  /** Two to the power of `n`. */
  function TwoTo(n: nat): (r: nat)
    ensures r > 0
  {
    if n == 0 then 1 else TwoTo(n - 1) + TwoTo(n - 1)
  }

  lemma {:induction false} PageBytesIsPower(bits: nat)
    ensures PageBytes(bits) == TwoTo(bits)
  {
    if bits > 0 {
      PageBytesIsPower(bits - 1);
    }
  }

  lemma {:induction false} PageBytesOfSum(a: nat, b: nat)
    ensures PageBytes(0) == 1 && PageBytes(a + b) == PageBytes(a) * PageBytes(b)
  {
    if a > 0 {
      PageBytesOfSum(a - 1, b);
    }
  }

  lemma SmallPage()
    ensures PageBytes(12) == 4096
  {
    PageBytesOfSum(6, 6);
    assert PageBytes(6) == 64;
  }

  /** Address `x` lies in the range of `pages` pages of 2^bits bytes at `v`. */
  predicate Covers(v: Vaddr, pages: nat, bits: nat, x: nat) {
    v <= x < v + pages * TwoTo(bits)
  }

  /** No address lies in two reservations. */
  lemma NoAddressTwice(a: Ads, v: Vaddr, w: Vaddr, x: nat)
    requires AdsOk(a) && v in a.attach && w in a.attach && v != w
    ensures !(Covers(v, a.attach[v].pages, a.attach[v].pageBits, x) && Covers(w, a.attach[w].pages, a.attach[w].pageBits, x))
  {
    PageBytesIsPower(a.attach[v].pageBits);
    PageBytesIsPower(a.attach[w].pageBits);
  }

  /** Some address of the new range is reserved already. */
  ghost predicate Overlaps(a: Ads, v: Vaddr, pages: nat, bits: nat) {
    exists w, x :: w in a.attach && Covers(v, pages, bits, x) && Covers(w, a.attach[w].pages, a.attach[w].pageBits, x)
  }

  ghost predicate NoneEmpty(a: Ads) {
    forall w :: w in a.attach ==> a.attach[w].pages > 0
  }

  /** A range of at least one page may be reserved exactly if none of its addresses is reserved. */
  lemma UnreservedIff(a: Ads, v: Vaddr, pages: nat, bits: nat)
    requires pages > 0 && NoneEmpty(a)
    ensures Unreserved(a, v, Extent(pages, bits)) <==> v != 0 && !Overlaps(a, v, pages, bits)
  {
    PageBytesIsPower(bits);
    forall w | w in a.attach
      ensures Disjoint(v, Extent(pages, bits), w, a.attach[w].Size()) <==>
              !exists x :: Covers(v, pages, bits, x) && Covers(w, a.attach[w].pages, a.attach[w].pageBits, x)
    {
      PageBytesIsPower(a.attach[w].pageBits);
      SharedAddress(v, pages, bits, w, a.attach[w].pages, a.attach[w].pageBits);
    }
    if v in a.attach {
      assert Covers(v, pages, bits, v) by { Positive(pages, TwoTo(bits)); }
      assert Covers(v, a.attach[v].pages, a.attach[v].pageBits, v) by { Positive(a.attach[v].pages, TwoTo(a.attach[v].pageBits)); }
    }
  }

  lemma Positive(n: nat, k: nat)
    requires n > 0 && k > 0
    ensures n * k > 0
  {
  }

  lemma SharedAddress(v: Vaddr, n: nat, b: nat, w: Vaddr, m: nat, c: nat)
    requires n > 0 && m > 0
    ensures Disjoint(v, n * TwoTo(b), w, m * TwoTo(c)) <==> !exists x :: Covers(v, n, b, x) && Covers(w, m, c, x)
  {
    Positive(n, TwoTo(b));
    Positive(m, TwoTo(c));
    if !Disjoint(v, n * TwoTo(b), w, m * TwoTo(c)) {
      assert Covers(v, n, b, if v < w then w else v) && Covers(w, m, c, if v < w then w else v);
    }
  }

  /** Reserving and removing leaves the address space as it was. */
  lemma ReserveThenRemove(a: Ads, v: Vaddr, n: Node)
    requires v !in a.attach && n.id !in a.idMap
    ensures RemoveNode(AddNode(a, v, n), v) == a
  {
    assert (a.idMap[n.id := v] - {n.id}) == a.idMap;
    assert (a.attach[v := n] - {v}) == a.attach;
  }

  lemma RemoveNodeKeepsOk(a: Ads, v: Vaddr)
    requires AdsOk(a) && v in a.attach
    ensures AdsOk(RemoveNode(a, v))
  {
  }

  lemma ReplaceNodeKeepsOk(a: Ads, v: Vaddr, n: Node)
    requires AdsOk(a) && v in a.attach && n.id == a.attach[v].id && n.Size() == a.attach[v].Size()
    requires n.kind == a.attach[v].kind && n.cacheable == a.attach[v].cacheable
    ensures AdsOk(a.(attach := a.attach[v := n]))
  {
  }

  // ===== the whole invariant =====

  ghost predicate Inv(s: Mem) {
    && Covered(s)
    && FramesOwned(s.mos, s.freed, s.minted)
    && CapsOk(s.adss, s.frameCaps, s.mos)
    && (forall a :: a in s.adss ==> AdsOk(s.adss[a]))
  }

  function Key(a: AdsId, v: Vaddr): (AdsId, Vaddr) { (a, v) }

  /** The state once reference `r` to `m` is gone; `rest` is the state without that reference, before counting. */
  lemma DropKeepsInv(s: Mem, rest: Mem, m: MoId, r: Ref)
    requires Inv(s) && m in s.mos && IsRef(s, m, r) && RefsDrop(s, rest, m, r)
    requires rest.mos == s.mos && rest.freed == s.freed && rest.minted == s.minted
    requires CapsOk(rest.adss, rest.frameCaps, s.mos)
    requires forall a :: a in rest.adss ==> AdsOk(rest.adss[a])
    ensures Inv(Dec(rest, m))
    ensures Exact(s) ==> Exact(Dec(rest, m))
    ensures s.mos[m].count <= 1 ==> LastCopies(rest, m)
  {
    hide AdsOk, Covered, FramesOwned, CapsOk, Refs, IsRef, LastCopies;
    var t := Dec(rest, m);
    DecKeepsRefs(rest, m);
    assert RefsDrop(s, t, m, r);
    DropKeepsCovered(s, t, m, r);
    DecKeepsFrames(rest, m);
    if s.mos[m].count <= 1 {
      OnlyThatRef(s, rest, m, r);
      UnattachedHasNoCopies(rest, m);
    }
    CapsAfterDec(rest.adss, rest.frameCaps, s.mos, m);
  }

  lemma DecKeepsRefs(s: Mem, m: MoId)
    requires m in s.mos
    ensures SameRefs(s, Dec(s, m))
  {
  }

  lemma AttachedIsRef(s: Mem, m: MoId, a: AdsId, v: Vaddr)
    ensures IsRef(s, m, Attached(a, v)) <==> IsNode(s.adss, a, v) && s.adss[a].attach[v].Attaches(m)
  {
  }

  lemma OnlyThatRef(s: Mem, rest: Mem, m: MoId, r: Ref)
    requires Covered(s) && IsRef(s, m, r) && RefsDrop(s, rest, m, r) && m in s.mos && s.mos[m].count <= 1
    ensures forall a, v :: IsNode(rest.adss, a, v) ==> !rest.adss[a].attach[v].Attaches(m)
  {
    hide Refs, IsRef, RefsDrop;
    LastRefGone(s, rest, m, r);
    forall a, v | IsNode(rest.adss, a, v) ensures !rest.adss[a].attach[v].Attaches(m) {
      AttachedIsRef(rest, m, a, v);
    }
  }

  // ===== taking references away and adding them, one at a time =====

  function WithoutHold(s: Mem, p: PdId, m: MoId): Mem
    requires p in s.holders
  {
    s.(holders := s.holders[p := s.holders[p] - {m}])
  }

  function WithoutNode(s: Mem, a: AdsId, v: Vaddr): Mem
    requires IsNode(s.adss, a, v)
  {
    s.(adss := s.adss[a := RemoveNode(s.adss[a], v)], frameCaps := s.frameCaps - {(a, v)})
  }

  function WithoutIpc(s: Mem, c: CpuId): Mem {
    s.(cpus := s.cpus[c := None])
  }

  function WithoutCreation(s: Mem, m: MoId): Mem {
    s.(creation := s.creation - {m})
  }

  lemma WithoutHoldDrops(s: Mem, p: PdId, m: MoId)
    requires p in s.holders && m in s.holders[p]
    ensures RefsDrop(s, WithoutHold(s, p, m), m, Held(p))
  {
  }

  lemma WithoutIpcDrops(s: Mem, c: CpuId, m: MoId)
    requires c in s.cpus && s.cpus[c] == Some(m)
    ensures RefsDrop(s, WithoutIpc(s, c), m, IpcBuffer(c))
  {
  }

  lemma WithoutCreationDrops(s: Mem, m: MoId)
    requires m in s.creation
    ensures RefsDrop(s, WithoutCreation(s, m), m, Creation)
  {
  }

  lemma WithoutNodeDrops(s: Mem, a: AdsId, v: Vaddr)
    requires IsNode(s.adss, a, v)
    ensures s.adss[a].attach[v].attached.Some? ==>
              RefsDrop(s, WithoutNode(s, a, v), s.adss[a].attach[v].attached.value.mo, Attached(a, v))
    ensures s.adss[a].attach[v].attached.None? ==> SameRefs(s, WithoutNode(s, a, v))
  {
  }

  lemma WithoutNodeCaps(s: Mem, a: AdsId, v: Vaddr)
    requires CapsOk(s.adss, s.frameCaps, s.mos) && IsNode(s.adss, a, v)
    ensures CapsOk(WithoutNode(s, a, v).adss, WithoutNode(s, a, v).frameCaps, s.mos)
  {
    var t := WithoutNode(s, a, v);
    assert forall b: AdsId, w: Vaddr :: IsNode(t.adss, b, w) ==> t.adss[b].attach[w] == s.adss[b].attach[w];
    assert forall b: AdsId, w: Vaddr :: IsNode(t.adss, b, w) <==> IsNode(s.adss, b, w) && (b != a || w != v);
  }

  lemma WithoutNodeKeepsRest(s: Mem, a: AdsId, v: Vaddr)
    requires Inv(s) && IsNode(s.adss, a, v)
    ensures CapsOk(WithoutNode(s, a, v).adss, WithoutNode(s, a, v).frameCaps, s.mos)
    ensures forall x :: x in WithoutNode(s, a, v).adss ==> AdsOk(WithoutNode(s, a, v).adss[x])
  {
    hide AdsOk, CapsOk, Covered, FramesOwned, RemoveNode;
    RemoveNodeKeepsOk(s.adss[a], v);
    WithoutNodeCaps(s, a, v);
  }

  lemma RefIsRegistered(s: Mem, m: MoId, r: Ref)
    requires Inv(s) && IsRef(s, m, r)
    ensures m in s.mos && 0 < s.mos[m].count
  {
  }

  lemma DropHoldOk(s: Mem, p: PdId, m: MoId)
    requires Inv(s) && p in s.holders && m in s.holders[p]
    ensures m in s.mos && Inv(Dec(WithoutHold(s, p, m), m)) && (Exact(s) ==> Exact(Dec(WithoutHold(s, p, m), m)))
    ensures s.mos[m].count <= 1 ==> LastCopies(s, m)
  {
    hide LastCopies, AdsOk, CapsOk, Exact;
    RefIsRegistered(s, m, Held(p));
    WithoutHoldDrops(s, p, m);
    DropKeepsInv(s, WithoutHold(s, p, m), m, Held(p));
    SameCopies(s, WithoutHold(s, p, m), m);
  }

  lemma DropIpcOk(s: Mem, c: CpuId, m: MoId)
    requires Inv(s) && c in s.cpus && s.cpus[c] == Some(m)
    ensures m in s.mos && Inv(Dec(WithoutIpc(s, c), m)) && (Exact(s) ==> Exact(Dec(WithoutIpc(s, c), m)))
    ensures s.mos[m].count <= 1 ==> LastCopies(s, m)
  {
    hide LastCopies, AdsOk, CapsOk, Exact;
    RefIsRegistered(s, m, IpcBuffer(c));
    WithoutIpcDrops(s, c, m);
    DropKeepsInv(s, WithoutIpc(s, c), m, IpcBuffer(c));
    SameCopies(s, WithoutIpc(s, c), m);
  }

  lemma DropCreationOk(s: Mem, m: MoId)
    requires Inv(s) && m in s.creation
    ensures m in s.mos && Inv(Dec(WithoutCreation(s, m), m)) && (Exact(s) ==> Exact(Dec(WithoutCreation(s, m), m)))
    ensures s.mos[m].count <= 1 ==> LastCopies(s, m)
  {
    hide LastCopies, AdsOk, CapsOk, Exact;
    RefIsRegistered(s, m, Creation);
    WithoutCreationDrops(s, m);
    DropKeepsInv(s, WithoutCreation(s, m), m, Creation);
    SameCopies(s, WithoutCreation(s, m), m);
  }

  lemma SameCopies(s: Mem, t: Mem, m: MoId)
    requires m in s.mos && t.mos == s.mos && t.frameCaps == s.frameCaps
    ensures LastCopies(s, m) <==> LastCopies(t, m)
  {
  }

  function AfterNode(s: Mem, a: AdsId, v: Vaddr): Mem
    requires IsNode(s.adss, a, v)
    requires s.adss[a].attach[v].attached.Some? ==> s.adss[a].attach[v].attached.value.mo in s.mos
  {
    var rest := WithoutNode(s, a, v);
    var att := s.adss[a].attach[v].attached;
    if att.Some? then Dec(rest, att.value.mo) else rest
  }

  lemma NodeMoRegistered(s: Mem, a: AdsId, v: Vaddr)
    requires Inv(s) && IsNode(s.adss, a, v)
    ensures s.adss[a].attach[v].attached.Some? ==> s.adss[a].attach[v].attached.value.mo in s.mos
  {
  }

  lemma DropNodeOk(s: Mem, a: AdsId, v: Vaddr)
    requires Inv(s) && IsNode(s.adss, a, v)
    requires s.adss[a].attach[v].attached.Some? ==> s.adss[a].attach[v].attached.value.mo in s.mos
    ensures Inv(AfterNode(s, a, v)) && (Exact(s) ==> Exact(AfterNode(s, a, v)))
    ensures var att := s.adss[a].attach[v].attached;
            att.Some? && s.mos[att.value.mo].count <= 1 ==> LastCopies(WithoutNode(s, a, v), att.value.mo)
  {
    WithoutNodeDrops(s, a, v);
    WithoutNodeKeepsRest(s, a, v);
    var att := s.adss[a].attach[v].attached;
    if att.Some? {
      AttachedIsRef(s, att.value.mo, a, v);
      hide LastCopies, AdsOk, CapsOk, Exact, IsRef, WithoutNode;
      DropKeepsInv(s, WithoutNode(s, a, v), att.value.mo, Attached(a, v));
    } else {
      hide LastCopies, AdsOk, CapsOk, IsRef, Refs;
      SameRefsKeepCovered(s, WithoutNode(s, a, v));
    }
  }

  function AddHold(held: map<MoId, Count>, m: MoId): map<MoId, Count> {
    held[m := if m in held then held[m] + 1 else 1]
  }

  function LessHold(held: map<MoId, Count>, m: MoId): map<MoId, Count>
    requires m in held && held[m] > 1
  {
    held[m := held[m] - 1]
  }

  /** How many references `p` has to `m`. */
  function HoldCount(holders: map<PdId, map<MoId, Count>>, p: PdId, m: MoId): nat {
    if p in holders && m in holders[p] then holders[p][m] else 0
  }

  /** The references of `p` to `m` are all that changes: there are `n` now, and with none the hold is gone. */
  ghost predicate HoldCounts(a: map<PdId, map<MoId, Count>>, b: map<PdId, map<MoId, Count>>, p: PdId, m: MoId, n: nat) {
    && b.Keys == a.Keys && p in a && (forall q :: q in a && q != p ==> b[q] == a[q])
    && (m in b[p] <==> n > 0) && (n > 0 ==> b[p][m] == n)
    && forall x :: x != m ==> (x in b[p] <==> x in a[p]) && (x in b[p] ==> b[p][x] == a[p][x])
  }

  lemma AddHoldCounts(holders: map<PdId, map<MoId, Count>>, p: PdId, m: MoId)
    requires p in holders
    ensures HoldCounts(holders, holders[p := AddHold(holders[p], m)], p, m, HoldCount(holders, p, m) + 1)
  {
  }

  function WithHold(s: Mem, p: PdId, m: MoId): Mem
    requires p in s.holders
  {
    s.(holders := s.holders[p := AddHold(s.holders[p], m)])
  }

  function WithIpc(s: Mem, c: CpuId, m: MoId): Mem {
    s.(cpus := s.cpus[c := Some(m)])
  }

  /** The reservation has the MO attached, with a copy of each of its frame capabilities and one more reference counted. */
  ghost predicate AttachedAt(s: Mem, t: Mem, a: AdsId, v: Vaddr, offset: nat, m: MoId) {
    && IsNode(s.adss, a, v) && m in s.mos
    && t.adss == s.adss[a := Ads(s.adss[a].idMap, s.adss[a].attach[v := s.adss[a].attach[v].(attached := Some(Attachment(m, offset)))])]
    && t.frameCaps == s.frameCaps[(a, v) := s.mos[m].frames]
    && t.mos == s.mos[m := Mo(s.mos[m].count + 1, s.mos[m].frames, s.mos[m].pageBits)]
    && t.holders == s.holders && t.cpus == s.cpus && t.creation == s.creation && t.freed == s.freed
  }

  function WithAttachment(s: Mem, a: AdsId, v: Vaddr, offset: nat, m: MoId): Mem
    requires IsNode(s.adss, a, v) && m in s.mos
  {
    var n := s.adss[a].attach[v].(attached := Some(Attachment(m, offset)));
    s.(adss := s.adss[a := s.adss[a].(attach := s.adss[a].attach[v := n])],
       frameCaps := s.frameCaps[(a, v) := s.mos[m].frames])
  }

  function Counted(s: Mem, m: MoId): Mem
    requires m in s.mos
  {
    s.(mos := Inc(s.mos, m))
  }

  lemma GainKeepsInv(s: Mem, more: Mem, m: MoId, r: Ref)
    requires Inv(s) && m in s.mos && RefsGain(s, more, m, r)
    requires more.mos == s.mos && more.freed == s.freed && more.minted == s.minted
    requires CapsOk(more.adss, more.frameCaps, s.mos)
    requires forall a :: a in more.adss ==> AdsOk(more.adss[a])
    ensures Inv(Counted(more, m))
    ensures Exact(s) ==> (Exact(Counted(more, m)) <==> !IsRef(s, m, r))
  {
    hide AdsOk, FramesOwned, CapsOk, Refs, IsRef, Covered;
    var t := Counted(more, m);
    CountKeepsFrames(s.mos, s.freed, s.minted, m, s.mos[m].count + 1);
    CapsAfterInc(more.adss, more.frameCaps, s.mos, m);
    CountKeepsRefs(more, m);
    GainKeepsCovered(s, t, m, r);
  }

  lemma CountKeepsRefs(s: Mem, m: MoId)
    requires m in s.mos
    ensures SameRefs(s, Counted(s, m))
  {
  }

  lemma CapsAfterInc(adss: map<AdsId, Ads>, caps: map<(AdsId, Vaddr), seq<Frame>>, mos: map<MoId, Mo>, m: MoId)
    requires CapsOk(adss, caps, mos) && m in mos
    ensures CapsOk(adss, caps, Inc(mos, m))
  {
  }

  lemma WithHoldOk(s: Mem, p: PdId, m: MoId)
    requires Inv(s) && m in s.mos && p in s.holders
    ensures Inv(Counted(WithHold(s, p, m), m))
    ensures Exact(s) ==> (Exact(Counted(WithHold(s, p, m), m)) <==> m !in s.holders[p])
  {
    hide Inv, AdsOk, CapsOk, IsRef, Exact, RefsGain;
    HoldGains(s, p, m);
    InvParts(s);
    GainKeepsInv(s, WithHold(s, p, m), m, Held(p));
  }

  lemma InvParts(s: Mem)
    requires Inv(s)
    ensures CapsOk(s.adss, s.frameCaps, s.mos) && forall a :: a in s.adss ==> AdsOk(s.adss[a])
  {
  }

  lemma HoldGains(s: Mem, p: PdId, m: MoId)
    requires p in s.holders
    ensures RefsGain(s, WithHold(s, p, m), m, Held(p))
    ensures IsRef(s, m, Held(p)) <==> m in s.holders[p]
  {
  }

  lemma IpcGains(s: Mem, c: CpuId, m: MoId)
    requires c in s.cpus && s.cpus[c] == None
    ensures RefsGain(s, WithIpc(s, c, m), m, IpcBuffer(c)) && !IsRef(s, m, IpcBuffer(c))
  {
  }

  lemma WithIpcOk(s: Mem, c: CpuId, m: MoId)
    requires Inv(s) && m in s.mos && c in s.cpus && s.cpus[c] == None
    ensures Inv(Counted(WithIpc(s, c, m), m))
    ensures Exact(s) ==> Exact(Counted(WithIpc(s, c, m), m))
  {
    hide Inv, AdsOk, CapsOk, IsRef, Exact, RefsGain;
    IpcGains(s, c, m);
    InvParts(s);
    GainKeepsInv(s, WithIpc(s, c, m), m, IpcBuffer(c));
  }

  lemma WithAttachmentOk(s: Mem, a: AdsId, v: Vaddr, offset: nat, m: MoId)
    requires Inv(s) && m in s.mos && IsNode(s.adss, a, v)
    requires s.adss[a].attach[v].attached == None && s.adss[a].attach[v].pageBits == s.mos[m].pageBits
    ensures Inv(Counted(WithAttachment(s, a, v, offset, m), m))
    ensures Exact(s) ==> Exact(Counted(WithAttachment(s, a, v, offset, m), m))
  {
    hide Inv, AdsOk, CapsOk, IsRef, Exact, RefsGain;
    var more := WithAttachment(s, a, v, offset, m);
    AttachmentGains(s, a, v, offset, m);
    InvParts(s);
    AttachmentCaps(s, a, v, offset, m);
    ReplaceNodeKeepsOk(s.adss[a], v, more.adss[a].attach[v]);
    GainKeepsInv(s, more, m, Attached(a, v));
  }

  lemma AttachmentGains(s: Mem, a: AdsId, v: Vaddr, offset: nat, m: MoId)
    requires m in s.mos && IsNode(s.adss, a, v) && s.adss[a].attach[v].attached == None
    ensures RefsGain(s, WithAttachment(s, a, v, offset, m), m, Attached(a, v))
    ensures !IsRef(s, m, Attached(a, v))
  {
  }

  lemma AttachmentCaps(s: Mem, a: AdsId, v: Vaddr, offset: nat, m: MoId)
    requires CapsOk(s.adss, s.frameCaps, s.mos) && m in s.mos && IsNode(s.adss, a, v)
    requires s.adss[a].attach[v].attached == None && s.adss[a].attach[v].pageBits == s.mos[m].pageBits
    ensures var t := WithAttachment(s, a, v, offset, m); CapsOk(t.adss, t.frameCaps, s.mos)
  {
    var t := WithAttachment(s, a, v, offset, m);
    assert forall b: AdsId, w: Vaddr :: IsNode(t.adss, b, w) <==> IsNode(s.adss, b, w);
    assert forall b: AdsId, w: Vaddr :: IsNode(s.adss, b, w) && (b, w) != (a, v) ==>
        t.adss[b].attach[w] == s.adss[b].attach[w];
  }

  // ===== adding empty reservations and objects =====

  /** The reservation that fits an MO exactly, with the MO attached at its start. */
  function FitNode(mo: Mo, kind: nat, cacheable: bool, rights: nat, id: ObjId, m: MoId): Node {
    Node(id, |mo.frames|, mo.pageBits, kind, kind != RES_DEVICE && cacheable, rights, Some(Attachment(m, 0)))
  }

  function WithNode(s: Mem, a: AdsId, v: Vaddr, n: Node): Mem
    requires a in s.adss
  {
    s.(adss := s.adss[a := AddNode(s.adss[a], v, n)])
  }

  lemma WithNodeOk(s: Mem, a: AdsId, v: Vaddr, n: Node)
    requires Inv(s) && a in s.adss && n.attached == None && (n.kind == RES_DEVICE ==> !n.cacheable)
    requires Unreserved(s.adss[a], v, n.Size()) && n.id !in s.adss[a].idMap
    ensures Inv(WithNode(s, a, v, n)) && (Exact(s) ==> Exact(WithNode(s, a, v, n)))
  {
    hide AdsOk, CapsOk, IsRef, Refs, FramesOwned, AddNode, Covered, Exact, SameRefs;
    AddNodeKeepsOk(s.adss[a], v, n);
    NodeCaps(s, a, v, n);
    NodeKeepsRefs(s, a, v, n);
    SameRefsKeepCovered(s, WithNode(s, a, v, n));
  }

  lemma NodeKeepsRefs(s: Mem, a: AdsId, v: Vaddr, n: Node)
    requires a in s.adss && n.attached == None && v !in s.adss[a].attach
    ensures SameRefs(s, WithNode(s, a, v, n))
  {
  }

  lemma NodeCaps(s: Mem, a: AdsId, v: Vaddr, n: Node)
    requires CapsOk(s.adss, s.frameCaps, s.mos) && a in s.adss && n.attached == None && v !in s.adss[a].attach
    ensures CapsOk(WithNode(s, a, v, n).adss, s.frameCaps, s.mos)
  {
    var t := WithNode(s, a, v, n);
    assert forall b: AdsId, w: Vaddr :: IsNode(t.adss, b, w) <==> IsNode(s.adss, b, w) || (b, w) == (a, v);
    assert forall b: AdsId, w: Vaddr :: IsNode(s.adss, b, w) ==> t.adss[b].attach[w] == s.adss[b].attach[w];
  }

  // ===== new objects =====

  function WithNewMo(s: Mem, m: MoId, frames: seq<Frame>, bits: nat, client: PdId): Mem {
    var t := s.(mos := s.mos[m := Mo(1, frames, bits)], minted := s.minted + set f | f in frames);
    if client == RT_PD_ID then t.(creation := s.creation + {m})
    else if client in s.holders then t.(holders := s.holders[client := AddHold(s.holders[client], m)])
    else t
  }

  lemma NewMoRefs(s: Mem, m: MoId, frames: seq<Frame>, bits: nat, client: PdId)
    requires forall r :: !IsRef(s, m, r)
    ensures var t := WithNewMo(s, m, frames, bits, client);
            var r := if client == RT_PD_ID then Creation else Held(client);
            if client == RT_PD_ID || client in s.holders then RefsGain(s, t, m, r) else SameRefs(s, t)
  {
  }

  lemma NewMoCaps(s: Mem, m: MoId, mo: Mo)
    requires CapsOk(s.adss, s.frameCaps, s.mos) && m !in s.mos
    ensures CapsOk(s.adss, s.frameCaps, s.mos[m := mo])
  {
  }

  lemma NewMoCovered(s: Mem, t: Mem, m: MoId, mo: Mo, r: Ref)
    requires Covered(s) && m !in s.mos && t.mos == s.mos[m := mo] && mo.count == 1
    requires RefsGain(s, t, m, r) || SameRefs(s, t)
    ensures Covered(t)
    ensures Exact(s) && RefsGain(s, t, m, r) ==> Exact(t)
  {
    hide IsRef, Refs;
    if RefsGain(s, t, m, r) {
      RefsAfterGain(s, t, m, r);
      assert Refs(s, m) == {} && Refs(t, m) == {r};
    } else {
      RefsAfterSame(s, t);
      assert Refs(s, m) == {};
    }
  }

  lemma RefsAfterGain(s: Mem, t: Mem, m: MoId, r: Ref)
    requires RefsGain(s, t, m, r)
    ensures forall x :: Refs(t, x) == if x == m then Refs(s, x) + {r} else Refs(s, x)
    ensures IsRef(s, m, r) ==> Refs(t, m) == Refs(s, m)
    ensures !IsRef(s, m, r) ==> |Refs(t, m)| == |Refs(s, m)| + 1
  {
    hide IsRef, Refs;
    forall x ensures Refs(t, x) == if x == m then Refs(s, x) + {r} else Refs(s, x) {
    }
  }

  lemma RefsAfterSame(s: Mem, t: Mem)
    requires SameRefs(s, t)
    ensures forall x :: Refs(t, x) == Refs(s, x)
  {
    hide IsRef, Refs;
    forall x ensures Refs(t, x) == Refs(s, x) {
    }
  }

  lemma WithNewMoOk(s: Mem, m: MoId, frames: seq<Frame>, bits: nat, client: PdId)
    requires Inv(s) && m !in s.mos && Distinct(frames) && forall f :: f in frames ==> f !in s.minted
    ensures Inv(WithNewMo(s, m, frames, bits, client))
    ensures Exact(s) && (client == RT_PD_ID || client in s.holders) ==> Exact(WithNewMo(s, m, frames, bits, client))
  {
    UnregisteredHasNoRefs(s, m);
    hide IsRef, Refs, Covered, FramesOwned, CapsOk, AdsOk, Exact, RefsGain, SameRefs, Distinct;
    var t := WithNewMo(s, m, frames, bits, client);
    NewMoRefs(s, m, frames, bits, client);
    NewMoCovered(s, t, m, Mo(1, frames, bits), if client == RT_PD_ID then Creation else Held(client));
    MintKeepsFrames(s.mos, s.freed, s.minted, m, Mo(1, frames, bits));
    NewMoCaps(s, m, Mo(1, frames, bits));
  }

  lemma UnregisteredHasNoRefs(s: Mem, m: MoId)
    requires Inv(s) && m !in s.mos
    ensures forall r :: !IsRef(s, m, r)
  {
  }

  /** Changing only what no reference, frame or reservation depends on. */
  lemma SameRefsOk(s: Mem, t: Mem)
    requires Inv(s) && SameRefs(s, t) && t.mos == s.mos && t.freed == s.freed && t.minted == s.minted
    requires CapsOk(t.adss, t.frameCaps, t.mos) && forall a :: a in t.adss ==> AdsOk(t.adss[a])
    ensures Inv(t) && (Exact(s) ==> Exact(t))
  {
    hide IsRef, Refs, Covered, FramesOwned, CapsOk, AdsOk, Exact, SameRefs;
    SameRefsKeepCovered(s, t);
  }

  /**
   * Giving an MO without counting it keeps the count sufficient exactly when the receiver
   * already holds the MO or the count has a reference to spare.
   */
  lemma UncountedGiveIff(s: Mem, p: PdId, m: MoId)
    requires Covered(s) && m in s.mos && p in s.holders
    ensures Covered(WithHold(s, p, m)) <==> m in s.holders[p] || |Refs(s, m)| < s.mos[m].count
  {
    HoldGains(s, p, m);
    UncountedGain(s, WithHold(s, p, m), m, Held(p));
  }

  lemma UncountedGiveValid(s: Mem, p: PdId, m: MoId)
    requires Inv(s) && m in s.mos && p in s.holders
    ensures Inv(WithHold(s, p, m)) <==> m in s.holders[p] || |Refs(s, m)| < s.mos[m].count
  {
    UncountedGiveIff(s, p, m);
    hide Covered, FramesOwned, CapsOk, AdsOk, Refs;
  }

  lemma UncountedGain(s: Mem, t: Mem, m: MoId, r: Ref)
    requires Covered(s) && m in s.mos && t.mos == s.mos && RefsGain(s, t, m, r)
    ensures Covered(t) <==> IsRef(s, m, r) || |Refs(s, m)| < s.mos[m].count
  {
    hide IsRef, Refs;
    RefsAfterGain(s, t, m, r);
    forall x, q | IsRef(t, x, q) ensures x in s.mos {
      assert IsRef(s, x, q) || x == m;
    }
  }

  // ===== copying reservations =====

  datatype CopyConfig = CopyConfig(kind: nat, start: Vaddr, destStart: Vaddr)  // address 0 stands for "not given"

  predicate ByType(cfg: CopyConfig) {
    cfg.start == 0 && cfg.kind != RES_SHARED_FRAMES && cfg.kind != RES_GENERIC
  }

  /** The source reservations that a copy request selects: by type, or the one at the given address. */
  function Picked(a: Ads, cfg: CopyConfig): set<Vaddr> {
    set v | v in a.attach && (if ByType(cfg) then a.attach[v].kind == cfg.kind else v == cfg.start)
  }

  /** What a request selects: all regions of a type, if it names no start and the type is neither generic nor shared frames; else one region. */
  lemma PickedIff(a: Ads, cfg: CopyConfig, v: Vaddr)
    ensures v in Picked(a, cfg) <==>
              v in a.attach && if cfg.start == 0 && cfg.kind !in {1, 2} then a.attach[v].kind == cfg.kind else v == cfg.start
    ensures Target(cfg, v) == if cfg.destStart == 0 then v else cfg.destStart
  {
  }

  function Target(cfg: CopyConfig, v: Vaddr): Vaddr {
    if cfg.destStart != 0 then cfg.destStart else v
  }

  /** The copy agrees with its source in everything but the reservation ID. */
  predicate SameRegion(n: Node, copy: Node) {
    copy == n.(id := copy.id)
  }

  /** When a copy from `sa` to `da` fails. */
  ghost predicate CopyRefused(sa: Ads, da: Ads, cfg: CopyConfig) {
    || cfg.kind <= RES_NONE || cfg.kind >= RES_MAX
    || Picked(sa, cfg) == {}
    || (|Picked(sa, cfg)| > 1 && cfg.destStart != 0)
    || exists v :: v in Picked(sa, cfg) && Blocked(sa, da, cfg, v)
  }

  predicate Blocked(sa: Ads, da: Ads, cfg: CopyConfig, v: Vaddr)
    requires v in sa.attach
  {
    sa.attach[v].attached.None? || !Unreserved(da, Target(cfg, v), sa.attach[v].Size())
  }

  ghost predicate CopiesPresent(sa: Ads, da: Ads, ta: Ads, cfg: CopyConfig, done: set<Vaddr>) {
    forall v :: v in done ==>
      v in sa.attach && Target(cfg, v) !in da.attach && Target(cfg, v) in ta.attach &&
      SameRegion(sa.attach[v], ta.attach[Target(cfg, v)])
  }

  ghost predicate DestinationKept(da: Ads, ta: Ads) {
    forall w :: w in da.attach ==> w in ta.attach && ta.attach[w] == da.attach[w]
  }

  ghost predicate NothingElse(da: Ads, ta: Ads, cfg: CopyConfig, done: set<Vaddr>) {
    forall w :: w in ta.attach ==> w in da.attach || exists v :: v in done && w == Target(cfg, v)
  }

  /** `ta` is `da` plus exactly one faithful copy of each reservation of `done`. */
  ghost predicate Copied(sa: Ads, da: Ads, ta: Ads, cfg: CopyConfig, done: set<Vaddr>) {
    && CopiesPresent(sa, da, ta, cfg, done)
    && DestinationKept(da, ta)
    && NothingElse(da, ta, cfg, done)
    && |ta.attach| == |da.attach| + |done|
  }

  /** The reservations of `done` that attach `m`. */
  function CopiesOf(a: Ads, done: set<Vaddr>, m: MoId): set<Vaddr> {
    set v | v in done && v in a.attach && a.attach[v].Attaches(m)
  }

  /** Each MO has one more reference for each of its copied regions. */
  function CountCopies(mos: map<MoId, Mo>, a: Ads, done: set<Vaddr>): map<MoId, Mo> {
    map m | m in mos :: mos[m].(count := mos[m].count + |CopiesOf(a, done, m)|)
  }

  lemma NoCopies(mos: map<MoId, Mo>, a: Ads)
    ensures CountCopies(mos, a, {}) == mos
  {
    assert forall m :: CopiesOf(a, {}, m) == {};
  }

  lemma CountOneCopy(mos: map<MoId, Mo>, a: Ads, done: set<Vaddr>, v: Vaddr)
    requires v in a.attach && v !in done && a.attach[v].attached.Some? && a.attach[v].attached.value.mo in mos
    ensures CountCopies(mos, a, done + {v}) == Inc(CountCopies(mos, a, done), a.attach[v].attached.value.mo)
  {
    hide CopiesOf;
    forall m | m in mos
      ensures |CopiesOf(a, done + {v}, m)| == |CopiesOf(a, done, m)| + if a.attach[v].Attaches(m) then 1 else 0
    {
      OneMoreCopy(a, done, v, m);
    }
  }

  lemma OneMoreCopy(a: Ads, done: set<Vaddr>, v: Vaddr, m: MoId)
    requires v in a.attach && v !in done
    ensures |CopiesOf(a, done + {v}, m)| == |CopiesOf(a, done, m)| + if a.attach[v].Attaches(m) then 1 else 0
  {
    assert CopiesOf(a, done + {v}, m) == CopiesOf(a, done, m) + if a.attach[v].Attaches(m) then {v} else {};
  }

  /** Copies made so far never get in the way of the next one. */
  lemma StillUnreserved(sa: Ads, da: Ads, ta: Ads, cfg: CopyConfig, done: set<Vaddr>, v: Vaddr)
    requires AdsOk(sa) && Copied(sa, da, ta, cfg, done)
    requires v in sa.attach && v !in done && (cfg.destStart == 0 || done == {})
    ensures Unreserved(ta, Target(cfg, v), sa.attach[v].Size()) <==> Unreserved(da, Target(cfg, v), sa.attach[v].Size())
  {
    var t, size := Target(cfg, v), sa.attach[v].Size();
    if Unreserved(da, t, size) {
      forall w | w in ta.attach ensures w != t && Disjoint(t, size, w, ta.attach[w].Size()) {
        if w !in da.attach {
          var u :| u in done && w == Target(cfg, u);
          assert u == w && t == v;
        }
      }
    }
  }

  lemma CopyOne(sa: Ads, da: Ads, ta: Ads, cfg: CopyConfig, done: set<Vaddr>, v: Vaddr, n: Node)
    requires Copied(sa, da, ta, cfg, done) && v in sa.attach && v !in done
    requires Target(cfg, v) !in ta.attach && SameRegion(sa.attach[v], n)
    ensures Copied(sa, da, AddNode(ta, Target(cfg, v), n), cfg, done + {v})
  {
    hide Target, SameRegion, CopiesPresent, NothingElse, DestinationKept;
    CopyKeepsDestination(da, ta, Target(cfg, v), n);
    var t := Target(cfg, v);
    KeyAdded(ta.attach, t, n);
    assert |done + {v}| == |done| + 1;
    CopyPresent(sa, da, ta, cfg, done, v, n);
    CopyAddsNothingElse(da, ta, cfg, done, v, n);
  }

  lemma CopyKeepsDestination(da: Ads, ta: Ads, t: Vaddr, n: Node)
    requires DestinationKept(da, ta) && t !in ta.attach
    ensures DestinationKept(da, AddNode(ta, t, n)) && forall w :: w in da.attach ==> w in ta.attach
  {
  }

  lemma CopyAddsNothingElse(da: Ads, ta: Ads, cfg: CopyConfig, done: set<Vaddr>, v: Vaddr, n: Node)
    requires NothingElse(da, ta, cfg, done)
    ensures NothingElse(da, AddNode(ta, Target(cfg, v), n), cfg, done + {v})
  {
    hide Target;
    forall w | w in AddNode(ta, Target(cfg, v), n).attach && w !in da.attach
      ensures exists u :: u in done + {v} && w == Target(cfg, u)
    {
      if w == Target(cfg, v) {
        assert v in done + {v};
      } else {
        var u :| u in done && w == Target(cfg, u);
        assert u in done + {v};
      }
    }
  }

  lemma CopyPresent(sa: Ads, da: Ads, ta: Ads, cfg: CopyConfig, done: set<Vaddr>, v: Vaddr, n: Node)
    requires CopiesPresent(sa, da, ta, cfg, done) && v in sa.attach && v !in done
    requires forall w :: w in da.attach ==> w in ta.attach
    requires Target(cfg, v) !in ta.attach && SameRegion(sa.attach[v], n)
    ensures CopiesPresent(sa, da, AddNode(ta, Target(cfg, v), n), cfg, done + {v})
  {
    hide Target, SameRegion;
  }

  // ===== the server =====

  class MemoryServer {
    var mos: map<MoId, Mo>
    var holders: map<PdId, map<MoId, Count>>
    var adss: map<AdsId, Ads>
    var cpus: map<CpuId, Option<MoId>>
    var creation: set<MoId>
    var frameCaps: map<(AdsId, Vaddr), seq<Frame>>
    var freed: seq<Frame>
    ghost var minted: set<Frame>

    ghost function State(): Mem
      reads this
    {
      Mem(mos, holders, adss, cpus, creation, frameCaps, freed, minted)
    }

    ghost predicate Valid()
      reads this
    {
      Inv(State())
    }

    constructor ()
      ensures Valid() && Exact(State())
      ensures mos == map[] && holders == map[] && adss == map[] && cpus == map[] && freed == [] && minted == {} && creation == {}
    {
      mos, holders, adss, cpus := map[], map[], map[], map[];
      creation, frameCaps, freed, minted := {}, map[], [], {};
    }

    // ----- new PDs, address spaces and CPUs -----

    method NewPd(p: PdId)
      requires Valid() && p !in holders && p != RT_PD_ID
      modifies this`holders
      ensures Valid() && (Exact(old(State())) ==> Exact(State()))
      ensures holders == old(holders)[p := map[]]
    {
      hide Inv, Exact;
      NewOwnerOk(State(), p);
      holders := holders[p := map[]];
    }

    method NewAds(a: AdsId)
      requires Valid() && a !in adss
      modifies this`adss
      ensures Valid() && (Exact(old(State())) ==> Exact(State()))
      ensures adss == old(adss)[a := Ads(map[], map[])]
    {
      hide Inv, Exact;
      NewAdsOk(State(), a);
      adss := adss[a := Ads(map[], map[])];
    }

    method NewCpu(c: CpuId)
      requires Valid() && c !in cpus
      modifies this`cpus
      ensures Valid() && (Exact(old(State())) ==> Exact(State()))
      ensures cpus == old(cpus)[c := None]
    {
      hide Inv, Exact;
      NewCpuOk(State(), c);
      cpus := cpus[c := None];
    }

    // ----- destroying memory objects -----

    /** The allocator expects the last capability to the frame. */
    method FreeFrame(f: Frame)
      requires forall k :: k in frameCaps ==> f !in frameCaps[k]
      modifies this`freed
      ensures freed == old(freed) + [f]
    {
      freed := freed + [f];
    }

    /** The callback that runs before an MO is unlinked: free all its frames. */
    method DestroyMo(m: MoId)
      requires m in mos && LastCopies(State(), m)
      modifies this`freed
      ensures freed == old(freed) + mos[m].frames
    {
      var frames := mos[m].frames;
      for i := 0 to |frames|
        invariant freed == old(freed) + frames[..i]
      {
        assert frames[i] in mos[m].frames;
        FreeFrame(frames[i]);
      }
      assert frames[..|frames|] == frames;
    }

    /** resource_component_dec on the MO registry. */
    method DecMo(m: MoId)
      requires m in mos && 0 < mos[m].count
      requires mos[m].count <= 1 ==> LastCopies(State(), m)
      modifies this`mos, this`freed
      ensures State() == Dec(old(State()), m)
    {
      if mos[m].count > 1 {
        mos := mos[m := mos[m].(count := mos[m].count - 1)];
      } else {
        DestroyMo(m);
        mos := mos - {m};
      }
    }

    // ----- dropping references -----

    /** A hold is deleted, callback first. */
    method DeleteHold(p: PdId, m: MoId)
      requires Valid() && p in holders && m in holders[p]
      modifies this`mos, this`freed, this`holders
      ensures m in old(mos) && State() == Dec(WithoutHold(old(State()), p, m), m)
      ensures holders == old(holders)[p := old(holders)[p] - {m}] && mos == DecCount(old(mos), m)
      ensures Valid() && (Exact(old(State())) ==> Exact(State()))
    {
      hide Inv, Exact, LastCopies;
      RefIsRegistered(State(), m, Held(p));
      DropHoldOk(State(), p, m);
      DecMo(m);
      holders := holders[p := holders[p] - {m}];
    }

    /** MO disconnect, or revoking an MO: drop one reference of the hold. */
    method RemoveMo(p: PdId, m: MoId) returns (error: bool)
      requires Valid()
      modifies this`mos, this`freed, this`holders
      ensures Valid() && (Exact(old(State())) ==> Exact(State()))
      ensures error <==> p !in old(holders)
      ensures error || m !in old(holders)[p] ==> State() == old(State())
      ensures !error ==>
                HoldCounts(old(holders), holders, p, m,
                           if HoldCount(old(holders), p, m) > 0 then HoldCount(old(holders), p, m) - 1 else 0)
      ensures !error && m in old(holders)[p] && old(holders)[p][m] > 1 ==>
                holders == old(holders)[p := LessHold(old(holders)[p], m)] && mos == old(mos)
      ensures !error && m in old(holders)[p] && old(holders)[p][m] == 1 ==>
                m in old(mos) && State() == Dec(WithoutHold(old(State()), p, m), m)
    {
      hide Inv, Exact;
      if p !in holders {
        return true;
      }
      error := false;
      if m in holders[p] {
        if holders[p][m] == 1 {
          DeleteHold(p, m);
        } else {
          FewerHoldsOk(State(), p, m);
          holders := holders[p := LessHold(holders[p], m)];
        }
      }
    }

    /** A PD is destroyed: all its holds go, then the PD. */
    method DestroyPd(p: PdId)
      requires Valid() && p in holders
      modifies this`mos, this`freed, this`holders
      ensures Valid() && (Exact(old(State())) ==> Exact(State()))
      ensures holders == old(holders) - {p}
      ensures adss == old(adss) && cpus == old(cpus) && creation == old(creation)
      ensures old(holders)[p].Keys <= old(mos).Keys && mos == LowerCounts(old(mos), old(holders)[p].Keys)
    {
      hide Inv, Exact, Dec, WithoutHold, PartlyDropped;
      HeldAreRegistered(State(), p);
      NothingDropped(State(), p);
      while holders[p] != map[]
        invariant Valid() && (Exact(old(State())) ==> Exact(State()))
        invariant p in holders && PartlyDropped(old(State()), State(), p)
        decreases |holders[p]|
      {
        var m :| m in holders[p];
        HoldDropped(old(State()), State(), p, m);
        KeyRemoved(holders[p], m);
        DeleteHold(p, m);
      }
      AllDropped(old(State()), State(), p);
      LastHoldGone(State(), p);
      holders := holders - {p};
    }

    /** The callback of a deleted reservation, then its removal from both registries. */
    method DeleteNode(a: AdsId, v: Vaddr)
      requires Valid() && IsNode(adss, a, v)
      modifies this`mos, this`freed, this`adss, this`frameCaps
      ensures var att := old(adss)[a].attach[v].attached; att.Some? ==> att.value.mo in old(mos)
      ensures State() == AfterNode(old(State()), a, v)
      ensures Valid() && (Exact(old(State())) ==> Exact(State()))
    {
      hide Inv, Exact, LastCopies, CapsOk, AdsOk;
      NodeMoRegistered(State(), a, v);
      DropNodeOk(State(), a, v);
      NodeCapsPresent(State(), a, v);
      var node := adss[a].attach[v];
      if node.attached.Some? {
        // the copied capabilities go before the count is dropped: it may free the frames
        frameCaps := frameCaps - {(a, v)};
        SameCopies(WithoutNode(old(State()), a, v), State(), node.attached.value.mo);
        DecMo(node.attached.value.mo);
      }
      adss := adss[a := adss[a].(idMap := adss[a].idMap - {node.id})];
      adss := adss[a := adss[a].(attach := adss[a].attach - {v})];
    }

    /** ads_rm. */
    method RemoveReservation(a: AdsId, v: Vaddr) returns (error: bool)
      requires Valid()
      modifies this`mos, this`freed, this`adss, this`frameCaps
      ensures Valid() && (Exact(old(State())) ==> Exact(State()))
      ensures error <==> !IsNode(old(adss), a, v)
      ensures error ==> State() == old(State())
      ensures !error ==> adss == old(adss)[a := RemoveNode(old(adss)[a], v)]
      ensures !error ==> var att := old(adss)[a].attach[v].attached;
                if att.Some? then att.value.mo in old(mos) && mos == DecCount(old(mos), att.value.mo) else mos == old(mos)
    {
      hide Inv, Exact;
      if a !in adss || v !in adss[a].attach {
        return true;
      }
      error := false;
      DeleteNode(a, v);
    }

    /** Every reservation goes, then the address space. */
    method DestroyAds(a: AdsId)
      requires Valid() && a in adss
      modifies this`mos, this`freed, this`adss, this`frameCaps
      ensures Valid() && (Exact(old(State())) ==> Exact(State()))
      ensures adss == old(adss) - {a} && holders == old(holders) && cpus == old(cpus)
    {
      hide Inv, Exact;
      while adss[a].attach != map[]
        invariant Valid() && (Exact(old(State())) ==> Exact(State()))
        invariant a in adss && adss == old(adss)[a := adss[a]]
        decreases |adss[a].attach|
      {
        var v :| v in adss[a].attach;
        ghost var attach := adss[a].attach;
        DeleteNode(a, v);
        KeyRemoved(attach, v);
      }
      EmptyAdsGone(State(), a);
      adss := adss - {a};
    }

    // ----- CPUs -----

    /** Replace the IPC buffer of a CPU: the old reference is dropped before the new one is taken. */
    method ConfigureCpu(c: CpuId, buffer: Option<MoId>) returns (error: bool)
      requires Valid() && c in cpus
      requires buffer.Some? ==> buffer.value in mos
      modifies this`mos, this`freed, this`cpus
      ensures Valid() && (Exact(old(State())) ==> Exact(State()))
      ensures error <==> buffer.Some? && old(cpus)[c] == buffer && old(mos)[buffer.value].count <= 1
      ensures cpus == old(cpus)[c := if error then None else buffer]
      ensures old(cpus)[c].Some? ==> old(cpus)[c].value in old(mos)
      ensures mos == Rebound(old(mos), old(cpus)[c], if error then None else buffer)
      ensures freed == old(freed) + if old(cpus)[c].Some? && old(mos)[old(cpus)[c].value].count <= 1
                                    then old(mos)[old(cpus)[c].value].frames else []
    {
      hide Inv, Exact, LastCopies;
      if cpus[c].Some? { RefIsRegistered(State(), cpus[c].value, IpcBuffer(c)); }
      if cpus[c].Some? {
        ReleaseBuffer(c);
      }
      if buffer.Some? {
        if buffer.value !in mos {
          return true;
        }
        WithIpcOk(State(), c, buffer.value);
        mos := Inc(mos, buffer.value);
        cpus := cpus[c := buffer];
      }
      error := false;
    }

    method ReleaseBuffer(c: CpuId)
      requires Valid() && c in cpus && cpus[c].Some?
      modifies this`mos, this`freed, this`cpus
      ensures Valid() && (Exact(old(State())) ==> Exact(State()))
      ensures old(cpus)[c].value in old(mos)
      ensures State() == Dec(WithoutIpc(old(State()), c), old(cpus)[c].value)
    {
      hide Inv, Exact, LastCopies;
      RefIsRegistered(State(), cpus[c].value, IpcBuffer(c));
      DropIpcOk(State(), c, cpus[c].value);
      DecMo(cpus[c].value);
      cpus := cpus[c := None];
    }

    method DestroyCpu(c: CpuId)
      requires Valid() && c in cpus
      modifies this`mos, this`freed, this`cpus
      ensures Valid() && (Exact(old(State())) ==> Exact(State()))
      ensures cpus == old(cpus) - {c} && holders == old(holders) && adss == old(adss)
    {
      hide Inv, Exact;
      if cpus[c].Some? {
        ReleaseBuffer(c);
      }
      IdleCpuGone(State(), c);
      cpus := cpus - {c};
    }

    // ----- the root task's own allocations -----

    method AllocateMo(client: PdId, m: MoId, frames: seq<Frame>, bits: nat)
      requires Valid() && m !in mos && Distinct(frames) && forall f :: f in frames ==> f !in minted
      modifies this`mos, this`holders, this`creation, this`minted
      ensures Valid() && State() == WithNewMo(old(State()), m, frames, bits, client)
      ensures client != RT_PD_ID && client in old(holders) ==>
                HoldCounts(old(holders), holders, client, m, HoldCount(old(holders), client, m) + 1)
      ensures client == RT_PD_ID || client !in old(holders) ==> holders == old(holders)
      ensures mos == old(mos)[m := Mo(1, frames, bits)] && frames == mos[m].frames
      ensures Exact(old(State())) && (client == RT_PD_ID || client in holders) ==> Exact(State())
    {
      hide Inv, Exact, Distinct, HoldCounts, HoldCount;
      WithNewMoOk(State(), m, frames, bits, client);
      mos := mos[m := Mo(1, frames, bits)];
      minted := minted + set f | f in frames;
      if client == RT_PD_ID {
        creation := creation + {m};
      } else if client in holders {
        AddHoldCounts(holders, client, m);
        holders := holders[client := AddHold(holders[client], m)];
      }
    }

    /** The root task gives up the reference that an MO it allocated was created with. */
    method DropCreation(m: MoId)
      requires Valid() && m in creation
      modifies this`mos, this`freed, this`creation
      ensures Valid() && (Exact(old(State())) ==> Exact(State()))
      ensures m in old(mos) && State() == Dec(WithoutCreation(old(State()), m), m)
    {
      hide Inv, Exact, LastCopies;
      RefIsRegistered(State(), m, Creation);
      DropCreationOk(State(), m);
      DecMo(m);
      creation := creation - {m};
    }

    // ----- giving memory objects to PDs -----

    /** A copied capability: the count goes up even if the receiver already holds the MO. */
    method SendMo(to: PdId, m: MoId) returns (error: bool)
      requires Valid() && m in mos
      modifies this`mos, this`holders
      ensures Valid()
      ensures error <==> to !in old(holders)
      ensures error ==> State() == old(State())
      ensures !error ==> State() == Counted(WithHold(old(State()), to, m), m)
      ensures !error ==> HoldCounts(old(holders), holders, to, m, HoldCount(old(holders), to, m) + 1)
      ensures !error && Exact(old(State())) ==> (Exact(State()) <==> m !in old(holders)[to])
    {
      hide Inv, Exact;
      if to !in holders {
        return true;
      }
      error := false;
      WithHoldOk(State(), to, m);
      mos := Inc(mos, m);
      AddHoldCounts(holders, to, m);
      holders := holders[to := AddHold(holders[to], m)];
    }

    /** give_resource on an MO: the receiver holds it, and nothing is counted. */
    method GiveMo(from: PdId, to: PdId, m: MoId) returns (error: bool)
      requires Valid()
      modifies this`holders
      ensures error <==> from !in old(holders) || to !in old(holders) || m !in old(holders)[from]
      ensures error ==> State() == old(State())
      ensures !error ==> m in mos && State() == WithHold(old(State()), to, m)
      ensures !error ==> HoldCounts(old(holders), holders, to, m, HoldCount(old(holders), to, m) + 1)
      ensures !error ==> (Valid() <==> m in old(holders)[to] || |Refs(old(State()), m)| < mos[m].count)
    {
      hide Inv, Refs, AddHold;
      if from !in holders || to !in holders || m !in holders[from] {
        return true;
      }
      error := false;
      HeldAreRegistered(State(), from);
      UncountedGiveValid(State(), to, m);
      AddHoldCounts(holders, to, m);
      holders := holders[to := AddHold(holders[to], m)];
    }

    /** Share every MO that one PD holds with another. */
    method ShareMos(from: PdId, to: PdId) returns (error: bool)
      requires Valid()
      modifies this`mos, this`holders
      ensures Valid()
      ensures error <==> from !in old(holders) || to !in old(holders) || from == to
      ensures error ==> State() == old(State())
      ensures !error ==> from in holders && to in holders && holders == old(holders)[to := holders[to]]
      ensures !error ==> forall m ::
                HoldCount(holders, to, m) == HoldCount(old(holders), to, m) + if m in old(holders)[from] then 1 else 0
      ensures !error ==> mos == RaiseCounts(old(mos), old(holders)[from].Keys)
      ensures !error ==> mos.Keys == old(mos).Keys && forall m :: m in mos ==>
                mos[m] == old(mos)[m].(count := old(mos)[m].count + if m in old(holders)[from] then 1 else 0)
      ensures !error && Exact(old(State())) && old(holders)[from].Keys !! old(holders)[to].Keys ==> Exact(State())
    {
      hide Inv, Exact, Shared, Counted, WithHold;
      if from !in holders || to !in holders || from == to {
        return true;
      }
      error := false;
      HeldAreRegistered(State(), from);
      var todo := holders[from].Keys;
      NoneShared(State(), from, to);
      while todo != {}
        invariant Valid() && todo <= old(holders)[from].Keys && to in holders
        invariant Shared(old(State()), State(), from, to, todo)
        invariant Exact(old(State())) && old(holders)[from].Keys !! old(holders)[to].Keys ==> Exact(State())
        decreases |todo|
      {
        var m :| m in todo;
        OneShared(old(State()), State(), from, to, todo, m);
        todo := todo - {m};
        var failed := SendMo(to, m);
      }
      AllShared(old(State()), State(), from, to);
    }

    // ----- reservations -----

    /** Reserve a range: at `want`, or, when that is 0, where the vspace found room (`found`). */
    method Reserve(a: AdsId, want: Vaddr, found: Vaddr, pages: nat, bits: nat, kind: nat, cacheable: bool,
                   rights: nat, id: ObjId) returns (error: bool, v: Vaddr)
      requires Valid() && a in adss && id !in adss[a].idMap
      requires want == 0 ==> Unreserved(adss[a], found, Extent(pages, bits))
      modifies this`adss
      ensures Valid() && (Exact(old(State())) ==> Exact(State()))
      ensures v == if want == 0 then found else want
      ensures error <==> !Unreserved(old(adss)[a], v, Extent(pages, bits))
      ensures pages > 0 && NoneEmpty(old(adss)[a]) ==> (error <==> v == 0 || Overlaps(old(adss)[a], v, pages, bits))
      ensures error ==> adss == old(adss)
      ensures !error ==> State() == WithNode(old(State()), a, v,
                Node(id, pages, bits, kind, if kind == RES_DEVICE then false else cacheable, rights, None))
    {
      hide Inv, Exact, Overlaps, NoneEmpty;
      v := if want == 0 then found else want;
      if pages > 0 && NoneEmpty(adss[a]) { UnreservedIff(adss[a], v, pages, bits); }
      if !Unreserved(adss[a], v, Extent(pages, bits)) {
        return true, v;
      }
      error := false;
      var node := Node(id, pages, bits, kind, if kind == RES_DEVICE then false else cacheable, rights, None);
      WithNodeOk(State(), a, v, node);
      adss := adss[a := Ads(adss[a].idMap[id := v], adss[a].attach[v := node])];
    }

    /** Attach an MO to a reservation that has none yet. */
    method AttachToReservation(a: AdsId, v: Vaddr, offset: nat, m: MoId) returns (error: bool)
      requires Valid() && IsNode(adss, a, v) && m in mos && adss[a].attach[v].attached == None
      modifies this`mos, this`adss, this`frameCaps
      ensures Valid() && (Exact(old(State())) ==> Exact(State()))
      ensures error <==> old(mos)[m].pageBits != old(adss)[a].attach[v].pageBits
      ensures error ==> State() == old(State())
      ensures !error ==> State() == Counted(WithAttachment(old(State()), a, v, offset, m), m)
      ensures !error ==> AttachedAt(old(State()), State(), a, v, offset, m)
    {
      hide Inv, Exact;
      if mos[m].pageBits != adss[a].attach[v].pageBits {
        return true;
      }
      error := false;
      WithAttachmentOk(State(), a, v, offset, m);
      var node := adss[a].attach[v].(attached := Some(Attachment(m, offset)));
      frameCaps := frameCaps[(a, v) := mos[m].frames];
      adss := adss[a := adss[a].(attach := adss[a].attach[v := node])];
      mos := Inc(mos, m);
    }

    /** Reserve a range that fits the MO and attach it there. */
    method Attach(a: AdsId, want: Vaddr, found: Vaddr, m: MoId, kind: nat, cacheable: bool, rights: nat, id: ObjId)
      returns (error: bool, v: Vaddr)
      requires Valid() && a in adss && m in mos && id !in adss[a].idMap
      requires want == 0 ==> Unreserved(adss[a], found, Extent(|mos[m].frames|, mos[m].pageBits))
      modifies this`mos, this`adss, this`frameCaps
      ensures Valid() && (Exact(old(State())) ==> Exact(State()))
      ensures error ==> State() == old(State())
      ensures !error ==> Unreserved(old(adss)[a], v, Extent(|old(mos)[m].frames|, old(mos)[m].pageBits))
      ensures !error ==> adss == old(adss)[a := AddNode(old(adss)[a], v, FitNode(old(mos)[m], kind, cacheable, rights, id, m))]
      ensures !error ==>
                var n := Node(id, |old(mos)[m].frames|, old(mos)[m].pageBits, kind, cacheable && kind != 3, rights, Some(Attachment(m, 0)));
                adss == old(adss)[a := Ads(old(adss)[a].idMap[id := v], old(adss)[a].attach[v := n])]
      ensures !error ==> mos == Inc(old(mos), m) && frameCaps == old(frameCaps)[(a, v) := old(mos)[m].frames]
    {
      hide Inv, Exact, Inc, Unreserved;
      error, v := Reserve(a, want, found, |mos[m].frames|, mos[m].pageBits, kind, cacheable, rights, id);
      if !error {
        error := AttachToReservation(a, v, 0, m);
        assert adss[a] == AddNode(old(adss)[a], v, FitNode(old(mos)[m], kind, cacheable, rights, id, m));
      }
    }

    // ----- copying between address spaces -----

    /** An ID that the address space does not use yet. */
    method FreshId(a: AdsId) returns (id: ObjId)
      requires a in adss
      ensures id !in adss[a].idMap
    {
      id := 1;
      ghost var ahead := adss[a].idMap.Keys;
      while id in adss[a].idMap
        invariant ahead <= adss[a].idMap.Keys && forall k :: k in adss[a].idMap && k >= id ==> k in ahead
        decreases |ahead|
      {
        ahead := ahead - {id};
        id := id + 1;
      }
    }

    /** One region: reserve, find the MO of the source, attach it. */
    method CopyRegion(src: AdsId, dst: AdsId, v: Vaddr, target: Vaddr) returns (error: bool, ghost n: Node)
      requires Valid() && src in adss && dst in adss && v in adss[src].attach && target != 0
      modifies this`mos, this`adss, this`frameCaps
      ensures Valid() && (Exact(old(State())) ==> Exact(State()))
      ensures error <==> (old(adss)[src].attach[v].attached.None? ||
                          !Unreserved(old(adss)[dst], target, old(adss)[src].attach[v].Size()))
      ensures dst in adss && adss == old(adss)[dst := adss[dst]]
      ensures error ==> mos == old(mos)
      ensures forall w :: w in old(adss)[dst].attach ==>
                w in adss[dst].attach && adss[dst].attach[w] == old(adss)[dst].attach[w]
      ensures !error ==> n == old(adss)[src].attach[v].(id := n.id)
      ensures !error ==> SameRegion(old(adss)[src].attach[v], n) && adss[dst] == AddNode(old(adss)[dst], target, n)
      ensures !error ==> old(adss)[src].attach[v].attached.value.mo in old(mos)
      ensures !error ==> mos == Inc(old(mos), old(adss)[src].attach[v].attached.value.mo)
    {
      hide Inv, Exact, Inc;
      var node := adss[src].attach[v];
      var id := FreshId(dst);
      SourceMoFits(State(), src, v);
      var at;
      error, at := Reserve(dst, target, target, node.pages, node.pageBits, node.kind, node.cacheable, node.rights, id);
      n := node.(id := id);
      if error {
        return;
      }
      if node.attached.None? {
        return true, n;
      }
      error := AttachToReservation(dst, target, node.attached.value.offset, node.attached.value.mo);
      assert adss[dst].attach == AddNode(old(adss)[dst], target, n).attach;
    }

    /** The source reservations, in the order of the registry. */
    method SelectRegions(src: AdsId, cfg: CopyConfig) returns (error: bool, regions: seq<Vaddr>)
      requires src in adss
      ensures error <==> Picked(adss[src], cfg) == {}
      ensures !error ==> Distinct(regions) && Members(regions) == Picked(adss[src], cfg)
    {
      var a := adss[src];
      regions := [];
      if ByType(cfg) {
        var left := a.attach.Keys;
        while left != {}
          invariant left <= a.attach.Keys && Distinct(regions)
          invariant forall v :: v in regions <==> v in a.attach && v !in left && a.attach[v].kind == cfg.kind
          decreases |left|
        {
          var v :| v in left;
          left := left - {v};
          if a.attach[v].kind == cfg.kind {
            regions := regions + [v];
          }
        }
        assert Members(regions) == Picked(a, cfg);
        error := regions == [];
        assert !error ==> regions[0] in Members(regions);
      } else {
        if cfg.start !in a.attach {
          return true, [];
        }
        regions := [cfg.start];
        error := false;
        assert cfg.start in Picked(a, cfg);
      }
    }

    /** ads_shallow_copy.  The source may be the destination: the regions are selected before any is copied. */
    method ShallowCopy(src: AdsId, dst: AdsId, cfg: CopyConfig) returns (error: bool)
      requires Valid() && src in adss && dst in adss
      modifies this`mos, this`adss, this`frameCaps
      ensures Valid() && (Exact(old(State())) ==> Exact(State()))
      ensures dst in adss && adss == old(adss)[dst := adss[dst]]
      ensures error <==> CopyRefused(old(adss)[src], old(adss)[dst], cfg)
      ensures forall v :: v in old(adss)[dst].attach ==>
                v in adss[dst].attach && adss[dst].attach[v] == old(adss)[dst].attach[v]
      ensures !error ==> CopiesAt(old(adss)[src], old(adss)[dst], adss[dst], cfg)
      ensures !error ==> Copied(old(adss)[src], old(adss)[dst], adss[dst], cfg, Picked(old(adss)[src], cfg))
      ensures !error ==> mos == CountCopies(old(mos), old(adss)[src], Picked(old(adss)[src], cfg))
    {
      hide Inv, Exact, Blocked, Picked, Copied, CopyRefused, CountCopies, AddNode, Inc, Unreserved, Members, Distinct, CopiesAt;
      ghost var sa, da, old_mos := adss[src], adss[dst], mos;
      if cfg.kind <= RES_NONE || cfg.kind >= RES_MAX {
        RefusedAtOnce(sa, da, cfg);
        return true;
      }
      var regions;
      error, regions := SelectRegions(src, cfg);
      if error {
        RefusedAtOnce(sa, da, cfg);
        return true;
      }
      MembersCount(regions);
      if |regions| > 1 && cfg.destStart != 0 {
        RefusedAtOnce(sa, da, cfg);
        return true;
      }
      RegionsPresent(sa, cfg, regions);
      error := CopyRegions(src, dst, cfg, regions);
      if error {
        ghost var v :| v in regions && v in sa.attach && Blocked(sa, da, cfg, v);
        InMembers(regions, v);
        BlockedMeansRefused(sa, da, cfg, v);
      } else {
        NotRefused(sa, da, cfg, regions);
        CopiedKeeps(sa, da, adss[dst], cfg, Members(regions));
        CopiedMeans(sa, da, adss[dst], cfg);
      }
    }

    method CopyRegions(src: AdsId, dst: AdsId, cfg: CopyConfig, regions: seq<Vaddr>) returns (error: bool)
      requires Valid() && src in adss && dst in adss
      requires Distinct(regions) && (|regions| <= 1 || cfg.destStart == 0)
      requires forall v :: v in regions ==> v in adss[src].attach
      modifies this`mos, this`adss, this`frameCaps
      ensures Valid() && (Exact(old(State())) ==> Exact(State()))
      ensures dst in adss && adss == old(adss)[dst := adss[dst]]
      ensures forall v :: v in old(adss)[dst].attach ==>
                v in adss[dst].attach && adss[dst].attach[v] == old(adss)[dst].attach[v]
      ensures error <==> exists v :: v in regions && Blocked(old(adss)[src], old(adss)[dst], cfg, v)
      ensures !error ==> Copied(old(adss)[src], old(adss)[dst], adss[dst], cfg, Members(regions))
      ensures !error ==> mos == CountCopies(old(mos), old(adss)[src], Members(regions))
    {
      hide Inv, Exact, Blocked, Copied, CountCopies, AddNode, Inc, Unreserved, Members, Distinct, Target, SameRegion, AdsOk;
      ghost var sa, da, old_mos := adss[src], adss[dst], mos;
      SourceIsOk(State(), src);
      NothingCopied(sa, da, cfg, old_mos);
      assert regions[..0] == [];
      for i := 0 to |regions|
        invariant Valid() && (Exact(old(State())) ==> Exact(State()))
        invariant dst in adss && adss == old(adss)[dst := adss[dst]]
        invariant forall v :: v in sa.attach ==> v in adss[src].attach && adss[src].attach[v] == sa.attach[v]
        invariant Copied(sa, da, adss[dst], cfg, Members(regions[..i]))
        invariant mos == CountCopies(old_mos, sa, Members(regions[..i]))
        invariant forall v :: v in regions[..i] ==> v in sa.attach && !Blocked(sa, da, cfg, v)
      {
        var v := regions[i];
        ghost var ta, before := adss[dst], mos;
        SourceIsPresent(State(), src, cfg, v);
        NextRegion(sa, da, ta, cfg, regions, i);
        CopiedKeeps(sa, da, ta, cfg, Members(regions[..i]));
        var target := if cfg.destStart != 0 && |regions| == 1 then cfg.destStart else v;
        TargetIs(cfg, v);
        ghost var n;
        ghost var mid := adss;
        error, n := CopyRegion(src, dst, v, target);
        UpdatedTwice(old(adss), mid, adss, dst);
        if error {
          return;
        }
        CopyOne(sa, da, ta, cfg, Members(regions[..i]), v, n);
        CountKeepsKeys(old_mos, sa, Members(regions[..i]));
        CountOneCopy(old_mos, sa, Members(regions[..i]), v);
        assert regions[..i + 1] == regions[..i] + [v];
      }
      assert regions[..|regions|] == regions;
      CopiedKeeps(sa, da, adss[dst], cfg, Members(regions));
      error := false;
    }
  }

  // ===== sharing all MOs of a PD =====

  /** `t` is `s` once all MOs of `from` but those in `todo` are shared with `to`. */
  ghost predicate Shared(s: Mem, t: Mem, from: PdId, to: PdId, todo: set<MoId>)
    requires from in s.holders && to in s.holders
  {
    && from != to && to in t.holders && t.holders == s.holders[to := t.holders[to]] && s.holders[from].Keys <= s.mos.Keys
    && t.mos == RaiseCounts(s.mos, s.holders[from].Keys - todo)
    && forall m :: HoldCount(t.holders, to, m) == HoldCount(s.holders, to, m) + if m in s.holders[from].Keys - todo then 1 else 0
  }

  lemma NoneShared(s: Mem, from: PdId, to: PdId)
    requires from in s.holders && to in s.holders && from != to && s.holders[from].Keys <= s.mos.Keys
    ensures Shared(s, s, from, to, s.holders[from].Keys)
  {
    assert s.holders[from].Keys - s.holders[from].Keys == {};
  }

  lemma OneShared(s: Mem, t: Mem, from: PdId, to: PdId, todo: set<MoId>, m: MoId)
    requires from in s.holders && to in s.holders && Shared(s, t, from, to, todo)
    requires m in todo && todo <= s.holders[from].Keys
    ensures m in t.mos && Shared(s, Counted(WithHold(t, to, m), m), from, to, todo - {m})
    ensures s.holders[from].Keys !! s.holders[to].Keys ==> m !in t.holders[to]
  {
    assert s.holders[from].Keys - (todo - {m}) == s.holders[from].Keys - todo + {m};
  }

  lemma AllShared(s: Mem, t: Mem, from: PdId, to: PdId)
    requires from in s.holders && to in s.holders && Shared(s, t, from, to, {})
    ensures to in t.holders && from in t.holders && t.holders == s.holders[to := t.holders[to]]
    ensures t.mos == RaiseCounts(s.mos, s.holders[from].Keys)
    ensures forall m :: HoldCount(t.holders, to, m) == HoldCount(s.holders, to, m) + if m in s.holders[from] then 1 else 0
  {
    assert s.holders[from].Keys - {} == s.holders[from].Keys;
  }

  // ===== two runs that go wrong =====

  /**
   * PD 1 allocates MO 1 and gives it to PD 2: two PDs hold an MO with count 1.  When PD 1 lets go,
   * the MO is destroyed although PD 2 still holds it.
   */
  method GivenUncounted() returns (s: MemoryServer)
    ensures fresh(s) && !s.Valid() && IsRef(s.State(), 1, Held(1)) && IsRef(s.State(), 1, Held(2))
    ensures 1 in s.mos && s.mos[1].count == 1 && 1 in s.holders
    ensures var gone := Dec(WithoutHold(s.State(), 1, 1), 1);
            1 !in gone.mos && gone.freed == [5] && IsRef(gone, 1, Held(2))
  {
    hide Inv, Refs, Distinct;
    OneFrame(5);
    s := new MemoryServer();
    s.NewPd(1);
    s.NewPd(2);
    s.AllocateMo(1, 1, [5], 12);
    ghost var before := s.State();
    var error := s.GiveMo(1, 2, 1);
    assert before.mos[1].count == |Refs(before, 1)|;
  }

  lemma OneFrame(f: Frame)
    ensures Distinct([f])
  {
  }

  /** PD 1 makes its MO the IPC buffer of CPU 1 and lets go of it. */
  method BufferOnly() returns (s: MemoryServer)
    ensures fresh(s) && s.Valid() && s.cpus == map[1 := Some(1)] && s.freed == []
    ensures 1 in s.mos && s.mos[1] == Mo(1, [5], 12)
  {
    hide Inv, Refs, Exact, Distinct, LastCopies;
    OneFrame(5);
    s := new MemoryServer();
    s.NewPd(1);
    s.NewCpu(1);
    s.AllocateMo(1, 1, [5], 12);
    var error := s.ConfigureCpu(1, Some(1));
    assert s.cpus == map[1 := Some(1)];
    error := s.RemoveMo(1, 1);
  }

  /** Configuring the CPU with the same buffer again frees its frames, and the server goes on with the freed entry. */
  method BufferFreedInUse() returns (s: MemoryServer)
    ensures fresh(s) && s.Valid() && 1 !in s.mos && s.freed == [5] && s.cpus == map[1 := None]
  {
    hide Inv, Refs, Exact, Distinct, LastCopies;
    s := BufferOnly();
    var error := s.ConfigureCpu(1, Some(1));
  }

  // ===== facts used by the server's methods =====

  function Members(s: seq<Vaddr>): set<Vaddr> {
    set v | v in s
  }

  lemma {:induction false} MembersCount(s: seq<Vaddr>)
    requires Distinct(s)
    ensures |Members(s)| == |s|
  {
    if s != [] {
      var init, v := s[..|s| - 1], s[|s| - 1];
      MembersCount(init);
      assert v !in init && Members(s) == Members(init) + {v};
    }
  }

  lemma RefusedAtOnce(sa: Ads, da: Ads, cfg: CopyConfig)
    requires cfg.kind <= RES_NONE || cfg.kind >= RES_MAX || Picked(sa, cfg) == {} || (|Picked(sa, cfg)| > 1 && cfg.destStart != 0)
    ensures CopyRefused(sa, da, cfg)
  {
  }

  lemma BlockedMeansRefused(sa: Ads, da: Ads, cfg: CopyConfig, v: Vaddr)
    requires v in Picked(sa, cfg) && Blocked(sa, da, cfg, v)
    ensures CopyRefused(sa, da, cfg)
  {
  }

  lemma NotRefused(sa: Ads, da: Ads, cfg: CopyConfig, regions: seq<Vaddr>)
    requires RES_NONE < cfg.kind < RES_MAX && Members(regions) == Picked(sa, cfg) != {}
    requires |Picked(sa, cfg)| <= 1 || cfg.destStart == 0
    requires forall v :: v in regions ==> v in sa.attach && !Blocked(sa, da, cfg, v)
    ensures !CopyRefused(sa, da, cfg)
  {
    hide Blocked, Picked;
    assert forall v :: v in Picked(sa, cfg) ==> v in Members(regions);
  }

  lemma UpdatedTwice<K, V>(a: map<K, V>, b: map<K, V>, c: map<K, V>, k: K)
    requires k in a && k in b && k in c && b == a[k := b[k]] && c == b[k := c[k]]
    ensures c == a[k := c[k]]
  {
  }

  lemma InMembers(s: seq<Vaddr>, v: Vaddr)
    ensures v in s <==> v in Members(s)
  {
  }

  lemma RegionsPresent(a: Ads, cfg: CopyConfig, regions: seq<Vaddr>)
    requires Members(regions) == Picked(a, cfg)
    ensures forall v :: v in regions ==> v in a.attach
  {
    forall v | v in regions ensures v in a.attach {
      assert v in Members(regions);
    }
  }

  /** Each selected region is copied, under a new ID, to where the request or the region says; nothing else is new. */
  ghost predicate CopiesAt(sa: Ads, da: Ads, ta: Ads, cfg: CopyConfig) {
    && (forall v: Vaddr :: Selected(sa, cfg, v) ==>
          var t := if cfg.destStart == 0 then v else cfg.destStart;
          t !in da.attach && t in ta.attach && ta.attach[t] == sa.attach[v].(id := ta.attach[t].id))
    && (forall t: Vaddr :: t in ta.attach && t !in da.attach ==>
          exists v: Vaddr :: Selected(sa, cfg, v) && t == if cfg.destStart == 0 then v else cfg.destStart)
  }

  predicate Selected(a: Ads, cfg: CopyConfig, v: Vaddr) {
    v in a.attach && if cfg.start == 0 && cfg.kind !in {1, 2} then a.attach[v].kind == cfg.kind else v == cfg.start
  }

  lemma CopiedMeans(sa: Ads, da: Ads, ta: Ads, cfg: CopyConfig)
    requires Copied(sa, da, ta, cfg, Picked(sa, cfg))
    ensures CopiesAt(sa, da, ta, cfg)
  {
    hide Picked, Target;
    forall v: Vaddr
      ensures v in Picked(sa, cfg) <==> Selected(sa, cfg, v)
      ensures Target(cfg, v) == if cfg.destStart == 0 then v else cfg.destStart
    {
      PickedIff(sa, cfg, v);
    }
  }

  /** A request is refused for a bad type, if it selects nothing, if it gives one address for several regions, or if a region cannot be copied. */
  lemma CopyRefusedIff(sa: Ads, da: Ads, cfg: CopyConfig)
    ensures CopyRefused(sa, da, cfg) <==>
              || cfg.kind == 0 || cfg.kind > 9
              || (forall v: Vaddr :: !Selected(sa, cfg, v))
              || (cfg.destStart != 0 && exists v: Vaddr, w: Vaddr :: Selected(sa, cfg, v) && Selected(sa, cfg, w) && v != w)
              || exists v: Vaddr :: Selected(sa, cfg, v) &&
                   (sa.attach[v].attached.None? ||
                    !Unreserved(da, if cfg.destStart == 0 then v else cfg.destStart, sa.attach[v].Size()))
  {
    hide Unreserved;
    var picked := Picked(sa, cfg);
    assert forall v: Vaddr :: v in picked <==> Selected(sa, cfg, v);
    MoreThanOneIff(picked);
    forall v | v in picked
      ensures Blocked(sa, da, cfg, v) <==>
              sa.attach[v].attached.None? ||
              !Unreserved(da, if cfg.destStart == 0 then v else cfg.destStart, sa.attach[v].Size())
    {
    }
  }

  lemma MoreThanOneIff(s: set<Vaddr>)
    ensures |s| > 1 <==> exists v, w :: v in s && w in s && v != w
  {
    if v, w :| v in s && w in s && v != w {
      SubsetSize({v, w}, s);
      assert |{v, w}| == 2;
    } else if s != {} {
      var v :| v in s;
      assert s == {v};
    }
  }

  lemma TargetIs(cfg: CopyConfig, v: Vaddr)
    ensures Target(cfg, v) == if cfg.destStart != 0 then cfg.destStart else v
  {
  }

  lemma CountKeepsKeys(mos: map<MoId, Mo>, a: Ads, done: set<Vaddr>)
    ensures CountCopies(mos, a, done).Keys == mos.Keys
  {
  }

  lemma NothingCopied(sa: Ads, da: Ads, cfg: CopyConfig, mos: map<MoId, Mo>)
    ensures Copied(sa, da, da, cfg, Members([])) && CountCopies(mos, sa, Members([])) == mos
  {
    assert Members([]) == {};
    NoCopies(mos, sa);
  }

  lemma CopiedKeeps(sa: Ads, da: Ads, ta: Ads, cfg: CopyConfig, done: set<Vaddr>)
    requires Copied(sa, da, ta, cfg, done)
    ensures forall w :: w in da.attach ==> w in ta.attach && ta.attach[w] == da.attach[w]
  {
  }

  lemma SourceIsPresent(s: Mem, a: AdsId, cfg: CopyConfig, v: Vaddr)
    requires Inv(s) && a in s.adss && v in s.adss[a].attach
    ensures AdsOk(s.adss[a]) && Target(cfg, v) != 0
    ensures IsNode(s.adss, a, v)
  {
  }

  lemma SourceIsOk(s: Mem, a: AdsId)
    requires Inv(s) && a in s.adss
    ensures AdsOk(s.adss[a])
  {
  }

  /** What the next region needs to know about those before it. */
  lemma NextRegion(sa: Ads, da: Ads, ta: Ads, cfg: CopyConfig, regions: seq<Vaddr>, i: nat)
    requires Distinct(regions) && i < |regions| && AdsOk(sa) && regions[i] in sa.attach
    requires |regions| <= 1 || cfg.destStart == 0
    requires Copied(sa, da, ta, cfg, Members(regions[..i]))
    ensures regions[i] !in Members(regions[..i])
    ensures Members(regions[..i + 1]) == Members(regions[..i]) + {regions[i]}
    ensures Blocked(sa, da, cfg, regions[i]) <==>
              (sa.attach[regions[i]].attached.None? || !Unreserved(ta, Target(cfg, regions[i]), sa.attach[regions[i]].Size()))
    ensures !Blocked(sa, da, cfg, regions[i]) ==> Target(cfg, regions[i]) !in ta.attach
  {
    hide Copied, AdsOk;
    assert regions[..i + 1] == regions[..i] + [regions[i]];
    assert i > 0 ==> cfg.destStart == 0;
    StillUnreserved(sa, da, ta, cfg, Members(regions[..i]), regions[i]);
  }

  /** The MO of an attached reservation is registered, with the page size of the reservation. */
  lemma SourceMoFits(s: Mem, a: AdsId, v: Vaddr)
    requires Inv(s) && IsNode(s.adss, a, v)
    ensures s.adss[a].attach[v].kind == RES_DEVICE ==> !s.adss[a].attach[v].cacheable
    ensures var att := s.adss[a].attach[v].attached;
            att.Some? ==> att.value.mo in s.mos && s.mos[att.value.mo].pageBits == s.adss[a].attach[v].pageBits
  {
  }

  lemma FewerHoldsOk(s: Mem, p: PdId, m: MoId)
    requires Inv(s) && p in s.holders && m in s.holders[p] && s.holders[p][m] > 1
    ensures var t := s.(holders := s.holders[p := LessHold(s.holders[p], m)]); Inv(t) && (Exact(s) ==> Exact(t))
  {
    hide Inv, AdsOk, CapsOk, Exact, SameRefs;
    var t := s.(holders := s.holders[p := LessHold(s.holders[p], m)]);
    SameHolds(s, t);
    InvParts(s);
    SameRefsOk(s, t);
  }

  /** Some of the holds of `p` are gone from `s`, with one reference each. */
  ghost predicate PartlyDropped(s: Mem, t: Mem, p: PdId)
    requires p in s.holders
  {
    && p in t.holders && t.holders == s.holders[p := t.holders[p]] && t.holders[p].Keys <= s.holders[p].Keys
    && s.holders[p].Keys <= s.mos.Keys
    && t.mos == LowerCounts(s.mos, s.holders[p].Keys - t.holders[p].Keys)
    && t.adss == s.adss && t.cpus == s.cpus && t.creation == s.creation
  }

  lemma NothingDropped(s: Mem, p: PdId)
    requires p in s.holders && s.holders[p].Keys <= s.mos.Keys
    ensures PartlyDropped(s, s, p)
  {
    assert s.holders[p].Keys - s.holders[p].Keys == {};
  }

  lemma HoldDropped(s: Mem, t: Mem, p: PdId, m: MoId)
    requires p in s.holders && p in t.holders && PartlyDropped(s, t, p) && m in t.holders[p]
    ensures m in t.mos && PartlyDropped(s, Dec(WithoutHold(t, p, m), m), p)
  {
    var gone := s.holders[p].Keys - t.holders[p].Keys;
    LowerOneMore(s.mos, gone, m);
    assert s.holders[p].Keys - (t.holders[p] - {m}).Keys == gone + {m};
  }

  lemma AllDropped(s: Mem, t: Mem, p: PdId)
    requires p in s.holders && p in t.holders && PartlyDropped(s, t, p) && t.holders[p] == map[]
    ensures t.holders - {p} == s.holders - {p} && s.holders[p].Keys <= s.mos.Keys
    ensures t.mos == LowerCounts(s.mos, s.holders[p].Keys)
    ensures t.adss == s.adss && t.cpus == s.cpus && t.creation == s.creation
  {
    assert s.holders[p].Keys - t.holders[p].Keys == s.holders[p].Keys;
  }

  lemma LastHoldGone(s: Mem, p: PdId)
    requires Inv(s) && p in s.holders && s.holders[p] == map[]
    ensures var t := s.(holders := s.holders - {p}); Inv(t) && (Exact(s) ==> Exact(t))
  {
    hide Inv, AdsOk, CapsOk, Exact, SameRefs;
    var t := s.(holders := s.holders - {p});
    SameHolds(s, t);
    InvParts(s);
    SameRefsOk(s, t);
  }

  lemma NewOwnerOk(s: Mem, p: PdId)
    requires Inv(s) && p !in s.holders
    ensures var t := s.(holders := s.holders[p := map[]]); Inv(t) && (Exact(s) ==> Exact(t))
  {
    hide Inv, AdsOk, CapsOk, Exact, SameRefs;
    var t := s.(holders := s.holders[p := map[]]);
    SameHolds(s, t);
    InvParts(s);
    SameRefsOk(s, t);
  }

  lemma NewAdsOk(s: Mem, a: AdsId)
    requires Inv(s) && a !in s.adss
    ensures var t := s.(adss := s.adss[a := Ads(map[], map[])]); Inv(t) && (Exact(s) ==> Exact(t))
  {
    hide Inv, CapsOk, Exact, SameRefs;
    var t := s.(adss := s.adss[a := Ads(map[], map[])]);
    EmptyAdsSame(t, a);
    assert t.adss - {a} == s.adss && t.(adss := s.adss) == s;
    SameRefsBack(t, s);
    InvParts(s);
    NewAdsCaps(s, a);
    SameRefsOk(s, t);
  }

  lemma SameRefsBack(s: Mem, t: Mem)
    requires SameRefs(s, t)
    ensures SameRefs(t, s)
  {
  }

  lemma NewAdsCaps(s: Mem, a: AdsId)
    requires CapsOk(s.adss, s.frameCaps, s.mos) && a !in s.adss
    ensures CapsOk(s.adss[a := Ads(map[], map[])], s.frameCaps, s.mos)
  {
    var t := s.adss[a := Ads(map[], map[])];
    assert forall b: AdsId, w: Vaddr :: IsNode(t, b, w) <==> IsNode(s.adss, b, w);
  }

  lemma NewCpuOk(s: Mem, c: CpuId)
    requires Inv(s) && c !in s.cpus
    ensures var t := s.(cpus := s.cpus[c := None]); Inv(t) && (Exact(s) ==> Exact(t))
  {
    hide Inv, AdsOk, CapsOk, Exact, SameRefs;
    var t := s.(cpus := s.cpus[c := None]);
    IdleCpuSame(t, c);
    assert t.cpus - {c} == s.cpus && t.(cpus := s.cpus) == s;
    SameRefsBack(t, s);
    InvParts(s);
    SameRefsOk(s, t);
  }

  lemma SameHolds(s: Mem, t: Mem)
    requires forall p, m :: p in s.holders && m in s.holders[p] <==> p in t.holders && m in t.holders[p]
    requires t.adss == s.adss && t.cpus == s.cpus && t.creation == s.creation
    ensures SameRefs(s, t)
  {
  }

  lemma EmptyAdsGone(s: Mem, a: AdsId)
    requires Inv(s) && a in s.adss && s.adss[a].attach == map[]
    ensures var t := s.(adss := s.adss - {a}); Inv(t) && (Exact(s) ==> Exact(t))
  {
    hide Inv, AdsOk, CapsOk, Exact, SameRefs;
    var t := s.(adss := s.adss - {a});
    EmptyAdsSame(s, a);
    InvParts(s);
    EmptyAdsCaps(s, a);
    SameRefsOk(s, t);
  }

  lemma EmptyAdsSame(s: Mem, a: AdsId)
    requires a in s.adss && s.adss[a].attach == map[]
    ensures SameRefs(s, s.(adss := s.adss - {a}))
  {
  }

  lemma EmptyAdsCaps(s: Mem, a: AdsId)
    requires CapsOk(s.adss, s.frameCaps, s.mos) && a in s.adss && s.adss[a].attach == map[]
    ensures CapsOk(s.adss - {a}, s.frameCaps, s.mos)
  {
    var t := s.adss - {a};
    assert forall b: AdsId, w: Vaddr :: IsNode(t, b, w) <==> IsNode(s.adss, b, w);
  }

  lemma IdleCpuGone(s: Mem, c: CpuId)
    requires Inv(s) && c in s.cpus && s.cpus[c] == None
    ensures var t := s.(cpus := s.cpus - {c}); Inv(t) && (Exact(s) ==> Exact(t))
  {
    hide Inv, AdsOk, CapsOk, Exact, SameRefs;
    var t := s.(cpus := s.cpus - {c});
    IdleCpuSame(s, c);
    InvParts(s);
    SameRefsOk(s, t);
  }

  lemma IdleCpuSame(s: Mem, c: CpuId)
    requires c in s.cpus && s.cpus[c] == None
    ensures SameRefs(s, s.(cpus := s.cpus - {c}))
  {
  }

  lemma HeldAreRegistered(s: Mem, p: PdId)
    requires Inv(s) && p in s.holders
    ensures forall m :: m in s.holders[p] ==> m in s.mos
  {
    forall m | m in s.holders[p] ensures m in s.mos {
      assert IsRef(s, m, Held(p));
    }
  }

  lemma NodeCapsPresent(s: Mem, a: AdsId, v: Vaddr)
    requires Inv(s) && IsNode(s.adss, a, v)
    ensures s.adss[a].attach[v].attached.None? ==> s.frameCaps - {(a, v)} == s.frameCaps
    ensures s.adss[a].attach[v].attached.Some? ==> 0 < s.mos[s.adss[a].attach[v].attached.value.mo].count
  {
    NodeMoRegistered(s, a, v);
  }
}
