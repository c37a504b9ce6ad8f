/** Placing the loadable segments of an ELF file: planning page-aligned reservations and filling them. */
module ElfLoad {
  import opened Common

  const PAGE: nat := 4096

  /** `src` is the segment's part of the file, if there is one; the last three fields are planned here. */
  datatype Region = Region(
    start: nat, size: nat, read: bool, write: bool, src: Option<seq<Byte>>,
    resStart: nat, resSize: int, resPages: int)
  {
    function End(): nat { start + size }

    function ResEnd(): int { resStart + resSize }
  }

  function RoundDown(n: nat): (r: nat)
    ensures r <= n < r + PAGE && r % PAGE == 0
  {
    n - n % PAGE
  }

  function RoundUp(n: nat): (r: nat)
    ensures n <= r < n + PAGE && r % PAGE == 0
  {
    if n % PAGE == 0 then n else n - n % PAGE + PAGE
  }

  // ===== ordering =====

  datatype Order = Less | Greater | Overlap

  function Compare(a: Region, b: Region): Order {
    if a.End() <= b.start then Less else if b.End() <= a.start then Greater else Overlap
  }

  predicate Contains(r: Region, v: nat) {
    r.start <= v < r.End()
  }

  /** On segments of positive size that do not overlap, the comparison is a strict order. */
  lemma CompareIsOrder(a: Region, b: Region, c: Region)
    requires a.size > 0 && b.size > 0 && c.size > 0
    ensures Compare(a, b) == Less <==> Compare(b, a) == Greater
    ensures Compare(a, b) == Overlap <==> Compare(b, a) == Overlap
    ensures Compare(a, b) == Less && Compare(b, c) == Less ==> Compare(a, c) == Less
    ensures Compare(a, b) == Overlap <==> exists v :: Contains(a, v) && Contains(b, v)
  {
    if Compare(a, b) == Overlap {
      var v := if a.start < b.start then b.start else a.start;
      assert Contains(a, v) && Contains(b, v);
    }
  }

  ghost predicate Sorted(regions: seq<Region>) {
    && (forall i :: 0 <= i < |regions| ==> regions[i].size > 0)
    && (forall i, j :: 0 <= i < j < |regions| ==> Compare(regions[i], regions[j]) == Less)
  }

  // ===== the plan =====

  predicate Touches(r: Region, page: nat) {
    r.start < (page + 1) * PAGE && page * PAGE < r.End()
  }

  ghost predicate NoSharedPage(regions: seq<Region>) {
    forall i, j, page :: 0 <= i < j < |regions| && Touches(regions[i], page) ==> !Touches(regions[j], page)
  }

  function Placed(r: Region, start: nat): Region {
    var size := RoundUp(r.End()) - start;
    r.(resStart := start, resSize := size, resPages := (size + PAGE - 1) / PAGE)
  }

  /** Each region gets exactly the pages that it touches. */
  function Planned(r: Region): Region {
    Placed(r, RoundDown(r.start))
  }

  /** The regions placed so far, and the end and rights of the last one. */
  datatype Plan = Plan(placed: seq<Region>, end: int, read: bool, write: bool) | Failed

  /**
   * Place the next region.  A page shared with the last one stays with the last one, unless only the
   * next one may write; then the last reservation is cut, but its page count is not.
   */
  function Place(p: Plan, r: Region): Plan
    requires p.Plan? && 0 <= p.end && (p.placed == [] ==> p.end == 0)
  {
    var start := RoundDown(r.start);
    var end := RoundUp(r.End());
    if p.end <= start then Plan(p.placed + [Placed(r, start)], end, r.read, r.write)
    else if !p.read || !r.read then Failed
    else if !p.write && r.write then Plan(Cut(p.placed) + [Placed(r, start)], end, r.read, r.write)
    else Plan(p.placed + [Placed(r, RoundUp(p.end + 1))], end, r.read, r.write)
  }

  function Cut(placed: seq<Region>): seq<Region>
    requires placed != []
  {
    var last := placed[|placed| - 1];
    placed[|placed| - 1 := last.(resSize := last.resSize - PAGE)]
  }

  function PlanOf(regions: seq<Region>, k: nat): (p: Plan)
    requires k <= |regions|
    ensures p.Plan? ==> |p.placed| == k && 0 <= p.end && (k == 0 ==> p.end == 0)
    ensures p.Plan? && k > 0 ==> p.end == RoundUp(regions[k - 1].End())
  {
    if k == 0 then Plan([], 0, false, false) else
      var p := PlanOf(regions, k - 1);
      if p.Failed? then Failed else Place(p, regions[k - 1])
  }

  /**
   * What happens on a shared page: it fails unless both segments may be read; if only the new one may be
   * written, the last reservation loses a page; otherwise the new one starts a page late.
   */
  lemma SharedPagePlan(p: Plan, r: Region)
    requires p.Plan? && p.placed != [] && 0 <= p.end && p.end % 4096 == 0
    requires RoundDown(r.start) < p.end
    ensures Place(p, r).Failed? <==> !(p.read && r.read)
    ensures var q, n := Place(p, r), |p.placed|;
            q.Plan? ==>
              && |q.placed| == n + 1 && q.placed[..n - 1] == p.placed[..n - 1]
              && r.End() <= q.end < r.End() + 4096 && q.end % 4096 == 0 && q.read == r.read && q.write == r.write
              && q.placed[n].(resStart := r.resStart, resSize := r.resSize, resPages := r.resPages) == r
              && q.placed[n].resStart + q.placed[n].resSize == q.end && q.placed[n].resPages * 4096 == q.placed[n].resSize
              && (if r.write && !p.write then
                    q.placed[n].resStart == r.start - r.start % 4096 &&
                    q.placed[n - 1] == p.placed[n - 1].(resSize := p.placed[n - 1].resSize - 4096)
                  else
                    q.placed[n].resStart == p.end + 4096 && q.placed[n - 1] == p.placed[n - 1])
  {
    AlignedAfter(p.end);
    PlacedIs(r, p.end + 4096);
    PlacedIs(r, RoundDown(r.start));
    hide RoundUp, RoundDown, Placed;
  }

  lemma AlignedAfter(end: nat)
    requires end % 4096 == 0
    ensures RoundUp(end + 1) == end + 4096
  {
  }

  lemma PlacedIs(r: Region, start: nat)
    requires start % 4096 == 0
    ensures var placed, end := Placed(r, start), RoundUp(r.End());
            placed.(resStart := r.resStart, resSize := r.resSize, resPages := r.resPages) == r && placed.resStart == start &&
            placed.resStart + placed.resSize == end && placed.resPages * 4096 == placed.resSize && end % 4096 == 0
  {
    WholeDifference(start / 4096, RoundUp(r.End()) / 4096);
  }

  lemma WholeDifference(first: nat, last: nat)
    ensures (last * PAGE - first * PAGE + PAGE - 1) / PAGE == last - first
  {
  }

  /** Without shared pages the planning succeeds, and gives each segment its own pages. */
  lemma {:induction false} UnsharedPlan(regions: seq<Region>, k: nat)
    requires Sorted(regions) && NoSharedPage(regions) && k <= |regions|
    ensures PlanOf(regions, k).Plan? && PlanOf(regions, k).placed == seq(k, i requires 0 <= i < k => Planned(regions[i]))
  {
    hide NoSharedPage;
    if k > 0 {
      UnsharedPlan(regions, k - 1);
      if k > 1 {
        NeighboursApart(regions, k - 1);
      }
    }
  }

  lemma NeighboursApart(regions: seq<Region>, k: nat)
    requires Sorted(regions) && NoSharedPage(regions) && 0 < k < |regions|
    ensures RoundUp(regions[k - 1].End()) <= RoundDown(regions[k].start)
  {
    assert Compare(regions[k - 1], regions[k]) == Less;
    NoSharedMeansApart(regions[k - 1], regions[k]);
  }

  /** What a loader needs of its reservations. */
  ghost predicate GoodPlan(regions: seq<Region>) {
    && (forall i :: 0 <= i < |regions| ==>
          regions[i].resStart % PAGE == 0 && regions[i].resSize == regions[i].resPages * PAGE > 0)
    && (forall i, j :: 0 <= i < j < |regions| ==> regions[i].ResEnd() <= regions[j].resStart)
    && (forall i :: 0 <= i < |regions| ==>
          regions[i].resStart <= regions[i].start && regions[i].End() <= regions[i].ResEnd())
  }

  /** The last page of a segment comes before the first page of the next. */
  lemma NoSharedMeansApart(a: Region, b: Region)
    requires a.size > 0 && b.size > 0 && a.End() <= b.start
    requires forall page :: Touches(a, page) ==> !Touches(b, page)
    ensures RoundUp(a.End()) <= RoundDown(b.start)
  {
    var page := RoundDown(b.start) / PAGE;
    assert page * PAGE == RoundDown(b.start);
    assert Touches(b, page);
    assert !Touches(a, page);
    assert a.End() <= page * PAGE;
    Aligned(a.End(), page);
  }

  lemma Aligned(n: nat, page: nat)
    requires n <= page * PAGE
    ensures RoundUp(n) <= page * PAGE
  {
  }

  lemma PlannedIsGood(before: seq<Region>, after: seq<Region>)
    requires Sorted(before) && NoSharedPage(before) && |after| == |before|
    requires forall i :: 0 <= i < |before| ==> after[i] == Planned(before[i])
    ensures GoodPlan(after)
  {
    hide Planned;
    forall i | 0 <= i < |after|
      ensures after[i].resStart % PAGE == 0 && after[i].resSize == after[i].resPages * PAGE > 0
      ensures after[i].resStart <= after[i].start && after[i].End() <= after[i].ResEnd()
      ensures after[i].ResEnd() == RoundUp(before[i].End()) && after[i].resStart == RoundDown(before[i].start)
    {
      PlannedFits(before[i]);
    }
    forall i, j | 0 <= i < j < |after| ensures after[i].ResEnd() <= after[j].resStart {
      assert Compare(before[i], before[j]) == Less;
      NoSharedMeansApart(before[i], before[j]);
    }
  }

  lemma PlannedFits(r: Region)
    requires r.size > 0
    ensures var p := Planned(r);
            p.resStart % PAGE == 0 && p.resSize == p.resPages * PAGE > 0 && p.start == r.start && p.End() == r.End() &&
            p.resStart == RoundDown(r.start) <= p.start && p.End() <= p.ResEnd() == RoundUp(r.End())
  {
    var first, last := RoundDown(r.start) / PAGE, RoundUp(r.End()) / PAGE;
    assert RoundDown(r.start) == first * PAGE && RoundUp(r.End()) == last * PAGE;
    hide RoundDown, RoundUp;
    WholePages(first, last);
  }

  lemma WholePages(first: nat, last: nat)
    requires first * PAGE < last * PAGE
    ensures (last * PAGE - first * PAGE + PAGE - 1) / PAGE == last - first > 0
  {
  }

  /** The plan is good exactly when no page is shared. */
  lemma PlanIsGoodIff(regions: seq<Region>)
    requires Sorted(regions)
    ensures NoSharedPage(regions) <==> PlanOf(regions, |regions|).Plan? && GoodPlan(PlanOf(regions, |regions|).placed)
  {
    hide GoodPlan, NoSharedPage;
    var plan := PlanOf(regions, |regions|);
    if NoSharedPage(regions) {
      UnsharedPlan(regions, |regions|);
      PlannedIsGood(regions, plan.placed);
    }
    if plan.Plan? && GoodPlan(plan.placed) {
      PlacingKeepsSegments(regions, |regions|);
      GoodMeansUnshared(regions, plan.placed);
    }
  }

  lemma {:induction false} PlacingKeepsSegments(regions: seq<Region>, k: nat)
    requires k <= |regions|
    ensures PlanOf(regions, k).Plan? ==>
              forall i :: 0 <= i < k ==>
                PlanOf(regions, k).placed[i].start == regions[i].start && PlanOf(regions, k).placed[i].size == regions[i].size
  {
    hide Place;
    if k > 0 {
      PlacingKeepsSegments(regions, k - 1);
      if PlanOf(regions, k - 1).Plan? {
        PlaceKeeps(PlanOf(regions, k - 1), regions[k - 1]);
      }
    }
  }

  lemma PlaceKeeps(p: Plan, r: Region)
    requires p.Plan? && 0 <= p.end && (p.placed == [] ==> p.end == 0)
    ensures var q := Place(p, r);
            q.Plan? ==>
              |q.placed| == |p.placed| + 1 && q.placed[|p.placed|].start == r.start && q.placed[|p.placed|].size == r.size &&
              forall i :: 0 <= i < |p.placed| ==> q.placed[i].start == p.placed[i].start && q.placed[i].size == p.placed[i].size
  {
    hide RoundUp, RoundDown;
  }

  lemma GoodMeansUnshared(before: seq<Region>, after: seq<Region>)
    requires GoodPlan(after) && |after| == |before|
    requires forall i :: 0 <= i < |after| ==> after[i].start == before[i].start && after[i].size == before[i].size
    ensures NoSharedPage(before)
  {
    forall i, j, page | 0 <= i < j < |before| && Touches(before[i], page) ensures !Touches(before[j], page) {
      assert after[i].ResEnd() <= after[j].resStart;
      PagesApart(after[i], after[j], page);
    }
  }

  lemma PagesApart(a: Region, b: Region, page: nat)
    requires a.resStart % PAGE == 0 && a.resSize == a.resPages * PAGE && a.End() <= a.ResEnd()
    requires b.resStart <= b.start && a.ResEnd() <= b.resStart && Touches(a, page)
    ensures !Touches(b, page)
  {
    var last := a.resStart / PAGE + a.resPages;
    assert a.ResEnd() == last * PAGE;
    assert last > page;
    assert last * PAGE >= (page + 1) * PAGE;
  }

  /** With a shared page part of a segment may be left without a reservation. */
  lemma SharedPageIsLost()
    ensures var a, b := Region(0x1000, 0x1800, true, false, None, 0, 0, 0), Region(0x2800, 0x1000, true, false, None, 0, 0, 0);
            Sorted([a, b]) && PlanOf([a, b], 2).Plan? && Contains(b, 0x3000) &&
            (forall r :: r in PlanOf([a, b], 2).placed ==> !(r.resStart <= 0x3000 < r.ResEnd()))
  {
    var a, b := Region(0x1000, 0x1800, true, false, None, 0, 0, 0), Region(0x2800, 0x1000, true, false, None, 0, 0, 0);
    assert PlanOf([a, b], 1) == Plan([Placed(a, 0x1000)], 0x3000, true, false) by {
      assert PlanOf([a, b], 0) == Plan([], 0, false, false);
      assert [] + [Placed(a, 0x1000)] == [Placed(a, 0x1000)];
    }
    assert PlanOf([a, b], 2).placed == [Placed(a, 0x1000)] + [Placed(b, 0x4000)];
  }

  method PrepareReservations(regions: array<Region>) returns (error: bool)
    modifies regions
    ensures error <==> PlanOf(old(regions[..]), regions.Length).Failed?
    ensures !error ==> regions[..] == PlanOf(old(regions[..]), regions.Length).placed
  {
    hide RoundUp, RoundDown, PlanOf;
    NoPlanYet(regions[..]);
    var prevStart, prevSize, prevRead, prevWrite := 0, 0, false, false;
    ghost var before := regions[..];
    for i := 0 to regions.Length
      invariant regions[i..] == before[i..]
      invariant PlanOf(before, i) == Plan(regions[..i], prevStart + prevSize, prevRead, prevWrite)
    {
      assert regions[i] == regions[i..][0] == before[i];
      ghost var placed := regions[..i];
      PlanStep(before, i);
      var region := regions[i];
      var currentStart := RoundDown(region.start);
      var currentTop := RoundUp(region.start + region.size);
      var currentSize := currentTop - currentStart;
      if prevStart + prevSize > currentStart {
        if !prevRead || !region.read {
          FailureStays(before, i + 1, regions.Length);
          return true;
        }
        if !prevWrite && region.write {
          regions[i - 1] := regions[i - 1].(resSize := regions[i - 1].resSize - PAGE);
          assert regions[..i] == Cut(placed);
        } else {
          currentStart := RoundUp(prevStart + prevSize + 1);
          currentSize := currentTop - currentStart;
        }
      }
      regions[i] := region.(resSize := currentSize, resPages := (currentSize + PAGE - 1) / PAGE, resStart := currentStart);
      prevSize, prevStart, prevRead, prevWrite := currentSize, currentStart, region.read, region.write;
      assert regions[..i + 1] == regions[..i] + [regions[i]];
    }
    error := false;
    assert regions[..] == regions[..regions.Length];
  }

  lemma NoPlanYet(regions: seq<Region>)
    ensures PlanOf(regions, 0) == Plan([], 0, false, false)
  {
  }

  lemma PlanStep(regions: seq<Region>, k: nat)
    requires k < |regions|
    ensures PlanOf(regions, k + 1) ==
            if PlanOf(regions, k).Failed? then Failed else Place(PlanOf(regions, k), regions[k])
  {
  }

  lemma {:induction false} FailureStays(regions: seq<Region>, k: nat, n: nat)
    requires k <= n <= |regions| && PlanOf(regions, k).Failed?
    ensures PlanOf(regions, n).Failed?
    decreases n
  {
    if k < n {
      FailureStays(regions, k, n - 1);
    }
  }

  // ===== loading =====

  /** The byte of a loaded segment at an offset: from the file as far as that goes, then zero. */
  function SegmentByte(r: Region, offset: nat): Byte {
    if r.src.Some? && offset < |r.src.value| then r.src.value[offset] else 0
  }

  /** Copy from the file, and zeros for the rest of `len`. */
  method CopyRegion(dest: array<Byte>, at: nat, src: seq<Byte>, offset: nat, len: nat)
    requires offset <= |src| && |src| - offset <= len && at + len <= dest.Length
    modifies dest
    ensures forall k :: at <= k < at + len ==> dest[k] == if offset + (k - at) < |src| then src[offset + (k - at)] else 0
    ensures forall k :: 0 <= k < dest.Length && !(at <= k < at + len) ==> dest[k] == old(dest[k])
  {
    var fromSrc := |src| - offset;
    for k := 0 to fromSrc
      invariant forall j :: at <= j < at + k ==> dest[j] == src[offset + (j - at)]
      invariant forall j :: 0 <= j < dest.Length && !(at <= j < at + k) ==> dest[j] == old(dest[j])
    {
      dest[at + k] := src[offset + k];
    }
    for k := fromSrc to len
      invariant forall j :: at <= j < at + fromSrc ==> dest[j] == src[offset + (j - at)]
      invariant forall j :: at + fromSrc <= j < at + k ==> dest[j] == 0
      invariant forall j :: 0 <= j < dest.Length && !(at <= j < at + k) ==> dest[j] == old(dest[j])
    {
      dest[at + k] := 0;
    }
  }

  predicate Loadable(r: Region) {
    r.src.Some? && |r.src.value| <= r.size
  }

  /** Memory of a loaded region: one byte of its MO for each byte of the reservation. */
  ghost predicate Holds(r: Region, mo: array<Byte>)
    reads mo
  {
    && mo.Length == r.resSize
    && r.resStart <= r.start && r.End() <= r.ResEnd()
    && (forall k :: 0 <= k < mo.Length ==>
          mo[k] == if Contains(r, r.resStart + k) then SegmentByte(r, r.resStart + k - r.start) else 0)
  }

  /** Allocate an MO for each reservation, attach it there, and write the segment into it. */
  method LoadSegments(regions: seq<Region>) returns (error: bool, mos: seq<array<Byte>>)
    requires GoodPlan(regions)
    ensures error <==> exists i :: 0 <= i < |regions| && !Loadable(regions[i])
    ensures !error ==> |mos| == |regions|
    ensures forall i :: 0 <= i < |mos| ==> i < |regions| && Loadable(regions[i]) && Holds(regions[i], mos[i])
    ensures forall i, j :: 0 <= i < j < |mos| ==> mos[i] != mos[j]
  {
    mos := [];
    for i := 0 to |regions|
      invariant |mos| == i && forall k :: 0 <= k < i ==> Loadable(regions[k])
      invariant forall k :: 0 <= k < i ==> fresh(mos[k]) && Holds(regions[k], mos[k])
      invariant forall j, k :: 0 <= j < k < i ==> mos[j] != mos[k]
    {
      var region := regions[i];
      if region.src == None || |region.src.value| > region.size {
        return true, mos;
      }
      var mo := new Byte[region.resPages * PAGE](_ => 0);
      CopyRegion(mo, region.start - region.resStart, region.src.value, 0, region.size);
      assert Holds(region, mo);
      mos := mos + [mo];
    }
    error := false;
  }

  /** The byte that a loaded program finds at an address: that of the MO whose reservation covers it. */
  ghost function Seen(regions: seq<Region>, mos: seq<array<Byte>>, v: nat): Option<Byte>
    requires |mos| == |regions| && forall i :: 0 <= i < |regions| ==> Holds(regions[i], mos[i])
    reads mos
  {
    if i :| 0 <= i < |regions| && regions[i].resStart <= v < regions[i].ResEnd()
    then
      assert Holds(regions[i], mos[i]);
      Some(mos[i][v - regions[i].resStart])
    else None
  }

  /** Every byte of every segment is seen at its own address. */
  lemma SegmentsAreSeen(regions: seq<Region>, mos: seq<array<Byte>>, i: nat, k: nat)
    requires GoodPlan(regions) && |mos| == |regions| && forall j :: 0 <= j < |regions| ==> Holds(regions[j], mos[j])
    requires i < |regions| && k < regions[i].size
    ensures Seen(regions, mos, regions[i].start + k) == Some(SegmentByte(regions[i], k))
  {
    var v := regions[i].start + k;
    assert regions[i].resStart <= v < regions[i].ResEnd() && Contains(regions[i], v);
    assert mos[i][v - regions[i].resStart] == SegmentByte(regions[i], k);
    forall j | 0 <= j < |regions| && regions[j].resStart <= v < regions[j].ResEnd() ensures j == i {
      Overlapping(regions, i, j, v);
    }
  }

  lemma Overlapping(regions: seq<Region>, i: nat, j: nat, v: nat)
    requires GoodPlan(regions) && i < |regions| && j < |regions|
    requires regions[i].resStart <= v < regions[i].ResEnd() && regions[j].resStart <= v < regions[j].ResEnd()
    ensures i == j
  {
  }
}
