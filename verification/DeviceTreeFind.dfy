/** Finding a node by its path. */
module DeviceTreeFind {
  import opened Common
  import opened DeviceTree
  import opened DeviceTreePools
  import opened DeviceTreeView
  import opened DeviceTreeParser

  const SLASH: Byte := 0x2F

  // ===== paths =====

  /** How many bytes there are before the first slash. */
  function SegmentLen(path: seq<Byte>): (n: nat)
    ensures n <= |path| && SLASH !in path[..n] && (n == |path| || path[n] == SLASH)
  {
    if path == [] || path[0] == SLASH then 0 else
      var n := 1 + SegmentLen(path[1..]);
      assert path[..n] == [path[0]] + path[1..][..n - 1];
      n
  }

  function SkipSlashes(path: seq<Byte>): (r: seq<Byte>)
    ensures |r| <= |path| && (r == [] || r[0] != SLASH)
  {
    if path != [] && path[0] == SLASH then SkipSlashes(path[1..]) else path
  }

  /** The names between the slashes of a path. */
  function Segments(path: seq<Byte>): seq<seq<Byte>>
    decreases |path|
  {
    var rest := SkipSlashes(path);
    if rest == [] then [] else [rest[..SegmentLen(rest)]] + Segments(rest[SegmentLen(rest)..])
  }

  /** A path with `gaps[k]` slashes before name `k` and `last` slashes at the end. */
  function PathOf(names: seq<seq<Byte>>, gaps: seq<nat>, last: nat): seq<Byte>
    requires |gaps| == |names|
  {
    if names == [] then Slashes(last)
    else Slashes(gaps[0]) + names[0] + PathOf(names[1..], gaps[1..], last)
  }

  function Slashes(n: nat): seq<Byte> {
    if n == 0 then [] else [SLASH] + Slashes(n - 1)
  }

  lemma {:induction false} SkipsSlashes(n: nat, rest: seq<Byte>)
    requires rest == [] || rest[0] != SLASH
    ensures SkipSlashes(Slashes(n) + rest) == rest
  {
    if n == 0 {
      assert Slashes(n) + rest == rest;
    } else {
      assert (Slashes(n) + rest)[1..] == Slashes(n - 1) + rest;
      SkipsSlashes(n - 1, rest);
    }
  }

  lemma {:induction false} SegmentIs(name: seq<Byte>, rest: seq<Byte>)
    requires SLASH !in name && (rest == [] || rest[0] == SLASH)
    ensures SegmentLen(name + rest) == |name|
  {
    if name == [] {
      assert name + rest == rest;
    } else {
      assert (name + rest)[1..] == name[1..] + rest && (name + rest)[0] == name[0];
      SegmentIs(name[1..], rest);
    }
  }

  /** Names that are not empty and contain no slash are recovered from a path, however many slashes separate them. */
  lemma {:induction false} SegmentsOfPath(names: seq<seq<Byte>>, gaps: seq<nat>, last: nat)
    requires |gaps| == |names| && (forall k :: 0 < k < |gaps| ==> gaps[k] > 0)
    requires forall k :: 0 <= k < |names| ==> names[k] != [] && SLASH !in names[k]
    ensures Segments(PathOf(names, gaps, last)) == names
  {
    if names == [] {
      SkipsSlashes(last, []);
      assert Slashes(last) + [] == Slashes(last);
    } else {
      var rest := PathOf(names[1..], gaps[1..], last);
      assert rest == [] || rest[0] == SLASH by {
        if |names| == 1 {
        } else {
          assert rest == Slashes(gaps[1]) + names[1] + PathOf(names[1..][1..], gaps[1..][1..], last);
        }
      }
      assert PathOf(names, gaps, last) == Slashes(gaps[0]) + (names[0] + rest);
      assert names[0][0] in names[0];
      SkipsSlashes(gaps[0], names[0] + rest);
      SegmentIs(names[0], rest);
      assert (names[0] + rest)[..|names[0]|] == names[0] && (names[0] + rest)[|names[0]|..] == rest;
      SegmentsOfPath(names[1..], gaps[1..], last);
    }
  }

  /** A path without slashes spells itself, if there is anything in it. */
  lemma SegmentsOfName(name: seq<Byte>)
    requires SLASH !in name
    ensures Segments(name) == if name == [] then [] else [name]
  {
    if name != [] {
      assert name[0] in name;
      assert name + [] == name;
      SegmentIs(name, []);
    }
  }

  /** A slash always separates: what a path spells is what the parts on its two sides spell. */
  lemma {:induction false} SegmentsJoin(a: seq<Byte>, b: seq<Byte>)
    ensures Segments(a + [SLASH] + b) == Segments(a) + Segments(b)
    decreases |a|
  {
    var whole := a + [SLASH] + b;
    if a == [] {
      assert whole[1..] == b;
    } else if a[0] == SLASH {
      assert whole[1..] == a[1..] + [SLASH] + b;
      SegmentsJoin(a[1..], b);
    } else {
      var n := SegmentLen(a);
      var rest := a[n..] + [SLASH] + b;
      assert whole == a[..n] + rest;
      SegmentIs(a[..n], rest);
      SegmentsJoin(a[n..], b);
      assert whole[..n] == a[..n] && whole[n..] == rest;
    }
  }

  /** Slashes that were skipped can be written back. */
  lemma {:induction false} Skipped(path: seq<Byte>) returns (gap: nat)
    ensures path == Slashes(gap) + SkipSlashes(path)
  {
    gap := 0;
    if path != [] && path[0] == SLASH {
      var before := Skipped(path[1..]);
      gap := 1 + before;
      assert path == [SLASH] + path[1..];
    }
  }

  /** Every path is one written for the names that it spells. */
  lemma {:induction false} EveryPathIsWritten(path: seq<Byte>) returns (gaps: seq<nat>, last: nat)
    ensures |gaps| == |Segments(path)| && forall k :: 0 < k < |gaps| ==> gaps[k] > 0
    ensures path == PathOf(Segments(path), gaps, last)
    ensures path != [] && path[0] == SLASH && gaps != [] ==> gaps[0] > 0
    decreases |path|
  {
    hide PathOf;
    var gap := Skipped(path);
    var rest := SkipSlashes(path);
    if rest == [] {
      gaps, last := [], gap;
      NothingWritten(gap);
    } else {
      var n := SegmentLen(rest);
      var more, end := EveryPathIsWritten(rest[n..]);
      gaps, last := [gap] + more, end;
      WrittenOn(rest[..n], Segments(rest[n..]), gap, more, end);
      assert rest == rest[..n] + rest[n..];
    }
  }

  lemma NothingWritten(last: nat)
    ensures PathOf([], [], last) == Slashes(last) == Slashes(last) + []
  {
  }

  lemma WrittenOn(name: seq<Byte>, names: seq<seq<Byte>>, gap: nat, gaps: seq<nat>, last: nat)
    requires |gaps| == |names|
    ensures PathOf([name] + names, [gap] + gaps, last) == Slashes(gap) + (name + PathOf(names, gaps, last))
  {
    assert ([name] + names)[1..] == names && ([gap] + gaps)[1..] == gaps;
  }

  // ===== looking names up in a tree =====

  function ChildNamed(children: seq<View>, name: seq<Byte>): (k: nat)
    ensures k <= |children| && (forall j :: 0 <= j < k ==> children[j].name != name)
    ensures k < |children| ==> children[k].name == name
  {
    if children == [] || children[0].name == name then 0 else 1 + ChildNamed(children[1..], name)
  }

  /** The child positions that lead along the given names, taking the first child of each name. */
  function Lookup(v: View, names: seq<seq<Byte>>): Option<seq<nat>>
    decreases |names|
  {
    if names == [] then Some([]) else
      var k := ChildNamed(v.children, names[0]);
      if k == |v.children| then None else
        match Lookup(v.children[k], names[1..])
        case None => None
        case Some(steps) => Some([k] + steps)
  }

  ghost predicate IsPath(v: View, steps: seq<nat>)
    decreases |steps|
  {
    steps == [] || (steps[0] < |v.children| && IsPath(v.children[steps[0]], steps[1..]))
  }

  function NamesAlong(v: View, steps: seq<nat>): seq<seq<Byte>>
    requires IsPath(v, steps)
    decreases |steps|
  {
    if steps == [] then [] else [v.children[steps[0]].name] + NamesAlong(v.children[steps[0]], steps[1..])
  }

  ghost predicate DistinctSiblings(v: View)
    decreases v
  {
    && (forall i, j :: 0 <= i < j < |v.children| ==> v.children[i].name != v.children[j].name)
    && (forall i :: 0 <= i < |v.children| ==> DistinctSiblings(v.children[i]))
  }

  /** With distinct sibling names, lookup finds a node exactly by its own names. */
  lemma {:induction false} LookupIff(v: View, names: seq<seq<Byte>>, steps: seq<nat>)
    requires DistinctSiblings(v)
    ensures Lookup(v, names) == Some(steps) <==> IsPath(v, steps) && NamesAlong(v, steps) == names
    decreases |names|
  {
    if names != [] {
      var k := ChildNamed(v.children, names[0]);
      if k < |v.children| && steps != [] {
        LookupIff(v.children[k], names[1..], steps[1..]);
        if steps[0] == k {
          assert IsPath(v, steps) ==> NamesAlong(v, steps)[1..] == NamesAlong(v.children[k], steps[1..]);
          assert names == [names[0]] + names[1..];
          assert Lookup(v, names) == Some(steps) ==> Lookup(v.children[k], names[1..]) == Some(steps[1..]);
          assert [k] + steps[1..] == steps;
        }
      }
    }
  }

  // ===== the records along a path =====

  function RecordAt(nodes: seq<NodeRec>, i: nat, steps: seq<nat>): Link
    decreases |steps|
  {
    if steps == [] then Some(i)
    else if i < |nodes| && steps[0] < |Siblings(nodes, nodes[i].child)|
    then RecordAt(nodes, Siblings(nodes, nodes[i].child)[steps[0]], steps[1..])
    else None
  }

  ghost function ViewAt(v: View, steps: seq<nat>): View
    requires IsPath(v, steps)
    decreases |steps|
  {
    if steps == [] then v else ViewAt(v.children[steps[0]], steps[1..])
  }

  lemma {:induction false} RecordShows(cells: seq<Cell>, nodes: seq<NodeRec>, props: seq<PropRec>, i: nat, v: View, steps: seq<nat>)
    requires Shows(cells, nodes, props, i, v) && IsPath(v, steps)
    ensures RecordAt(nodes, i, steps).Some? && Shows(cells, nodes, props, RecordAt(nodes, i, steps).value, ViewAt(v, steps))
    decreases |steps|
  {
    if steps != [] {
      RecordShows(cells, nodes, props, Siblings(nodes, nodes[i].child)[steps[0]], v.children[steps[0]], steps[1..]);
    }
  }

  function Prefixed(steps: seq<nat>, more: Option<seq<nat>>): Option<seq<nat>> {
    match more
    case None => None
    case Some(m) => Some(steps + m)
  }

  // ===== the search =====

  method StringLen(cells: seq<Cell>, b: nat, ghost s: seq<Byte>) returns (len: nat)
    requires StringAt(cells, b, s)
    ensures len == |s|
  {
    len := 0;
    while ByteAt(cells, b + len) != 0
      invariant len <= |s|
      decreases |s| - len
    {
      len := len + 1;
    }
    if len < |s| {
      GoesOnAt(cells, b, s, len);
    }
  }

  method EqualBounded(cells: seq<Cell>, b: nat, name: seq<Byte>, ghost s: seq<Byte>) returns (equal: bool)
    requires StringAt(cells, b, s) && |s| == |name| && 0 !in name
    ensures equal <==> s == name
  {
    for i := 0 to |name|
      invariant s[..i] == name[..i]
    {
      GoesOnAt(cells, b, s, i);
      if ByteAt(cells, b + i) != name[i] {
        return false;
      }
      assert s[..i + 1] == s[..i] + [s[i]] && name[..i + 1] == name[..i] + [name[i]];
    }
    assert s[..|name|] == s && name[..|name|] == name;
    equal := true;
  }

  /** find_child_internal: the first child with the given name. */
  method FindChild(cells: seq<Cell>, nodes: seq<NodeRec>, start: nat, name: seq<Byte>, ghost props: seq<PropRec>, ghost v: View)
    returns (found: Link)
    requires Shows(cells, nodes, props, start, v) && 0 !in name
    ensures var k := ChildNamed(v.children, name);
            found == RecordAt(nodes, start, [k])
  {
    hide StringAt, ByteAt, ShowsProps;
    ghost var list := Siblings(nodes, nodes[start].child);
    ghost var k := 0;
    var scan := nodes[start].child;
    while scan.Some?
      invariant k <= |list| == |v.children| && list[k..] == Siblings(nodes, scan)
      invariant ChildrenEnd(nodes, scan)
      invariant ChildNamed(v.children, name) == k + ChildNamed(v.children[k..], name)
      decreases |list| - k
    {
      assert list[k] == list[k..][0] == scan.value;
      assert Shows(cells, nodes, props, list[k], v.children[k]);
      var len := StringLen(cells, nodes[scan.value].name, v.children[k].name);
      if len == |name| {
        var equal := EqualBounded(cells, nodes[scan.value].name, name, v.children[k].name);
        if equal {
          return scan;
        }
      }
      scan := nodes[scan.value].sibling;
      assert list[k + 1..] == list[k..][1..] == Siblings(nodes, scan);
      k := k + 1;
    }
    found := None;
  }

  lemma LookupStep(v: View, names: seq<seq<Byte>>)
    ensures names == [] ==> Lookup(v, names) == Some([])
    ensures names != [] && ChildNamed(v.children, names[0]) == |v.children| ==> Lookup(v, names) == None
    ensures names != [] && ChildNamed(v.children, names[0]) < |v.children| ==>
              var k := ChildNamed(v.children, names[0]);
              Lookup(v, names) == Prefixed([k], Lookup(v.children[k], names[1..]))
  {
  }

  lemma PrefixedUnits(steps: seq<nat>, more: Option<seq<nat>>)
    ensures Prefixed([], more) == more && Prefixed(steps, Some([])) == Some(steps)
  {
    if more.Some? {
      assert [] + more.value == more.value;
    }
    assert steps + [] == steps;
  }

  lemma PrefixedTwice(steps: seq<nat>, k: nat, more: Option<seq<nat>>)
    ensures Prefixed(steps, Prefixed([k], more)) == Prefixed(steps + [k], more)
  {
    if more.Some? {
      assert steps + ([k] + more.value) == steps + [k] + more.value;
    }
  }

  /** One more step down from the record that the steps so far lead to. */
  lemma {:induction false} StepDown(nodes: seq<NodeRec>, i: nat, steps: seq<nat>, k: nat)
    requires RecordAt(nodes, i, steps).Some?
    ensures RecordAt(nodes, i, steps + [k]) == RecordAt(nodes, RecordAt(nodes, i, steps).value, [k])
    decreases |steps|
  {
    if steps == [] {
      assert steps + [k] == [k];
    } else {
      assert (steps + [k])[1..] == steps[1..] + [k];
      StepDown(nodes, Siblings(nodes, nodes[i].child)[steps[0]], steps[1..], k);
    }
  }

  lemma ChildShown(cells: seq<Cell>, nodes: seq<NodeRec>, props: seq<PropRec>, i: nat, v: View, k: nat)
    requires Shows(cells, nodes, props, i, v) && k <= |v.children|
    ensures k == |v.children| ==> RecordAt(nodes, i, [k]) == None
    ensures k < |v.children| ==> RecordAt(nodes, i, [k]).Some? && Shows(cells, nodes, props, RecordAt(nodes, i, [k]).value, v.children[k])
  {
    if k < |v.children| {
      RecordShows(cells, nodes, props, i, v, [k]);
    }
  }

  /** dtb_find in a parsed tree whose root record is `root`: the record that the lookup of the path's names leads to. */
  method Find(cells: seq<Cell>, nodes: seq<NodeRec>, root: Link, path: seq<Byte>, ghost props: seq<PropRec>, ghost v: View)
    returns (found: Link)
    requires root.Some? ==> Shows(cells, nodes, props, root.value, v)
    requires 0 !in path
    ensures root.None? ==> found == None
    ensures root.Some? ==>
              match Lookup(v, Segments(path))
              case None => found == None
              case Some(steps) => found == RecordAt(nodes, root.value, steps) && found.Some?
  {
    hide Shows, StringAt, Segments, Lookup;
    var scan, rest := root, path;
    ghost var steps: seq<nat>, here := [], v;
    PrefixedUnits(steps, Lookup(v, Segments(path)));
    while scan.Some?
      invariant 0 !in rest
      invariant root.None? ==> scan == None
      invariant root.Some? && scan.Some? ==>
                  scan == RecordAt(nodes, root.value, steps) && Shows(cells, nodes, props, scan.value, here) &&
                  Lookup(v, Segments(path)) == Prefixed(steps, Lookup(here, Segments(rest)))
      invariant root.Some? && scan.None? ==> Lookup(v, Segments(path)) == None
      decreases |rest|, scan.Some?
    {
      var skipped := rest;
      while skipped != [] && skipped[0] == SLASH
        invariant SkipSlashes(skipped) == SkipSlashes(rest) && 0 !in skipped && |skipped| <= |rest|
        decreases |skipped|
      {
        skipped := skipped[1..];
      }
      var len := 0;
      while len < |skipped| && skipped[len] != SLASH
        invariant len <= |skipped| && SegmentLen(skipped) == len + SegmentLen(skipped[len..])
      {
        len := len + 1;
      }
      NextSegment(rest, skipped, len);
      LookupStep(here, Segments(rest));
      if len == 0 {
        PrefixedUnits(steps, None);
        return scan;
      }
      ghost var k := ChildNamed(here.children, skipped[..len]);
      ChildShown(cells, nodes, props, scan.value, here, k);
      StepDown(nodes, root.value, steps, k);
      scan := FindChild(cells, nodes, scan.value, skipped[..len], props, here);
      rest := skipped[len..];
      if k < |here.children| {
        PrefixedTwice(steps, k, Lookup(here.children[k], Segments(rest)));
        steps, here := steps + [k], here.children[k];
      }
    }
    found := None;
  }

  lemma NextSegment(rest: seq<Byte>, skipped: seq<Byte>, len: nat)
    requires SkipSlashes(rest) == skipped && SegmentLen(skipped) == len
    ensures skipped == [] || skipped[0] != SLASH
    ensures len == 0 ==> Segments(rest) == []
    ensures len > 0 ==> Segments(rest) == [skipped[..len]] + Segments(skipped[len..])
  {
  }

  // ===== from the block to the node =====

  /** No two children of a node have the same name. */
  predicate DistinctNames(t: Tree)
    decreases t
  {
    && (forall i, j :: 0 <= i < j < |t.items| && t.items[i].Child? && t.items[j].Child? ==>
          t.items[i].node.name != t.items[j].node.name)
    && (forall i :: 0 <= i < |t.items| && t.items[i].Child? ==> DistinctNames(t.items[i].node))
  }

  /** A name that can stand in a path. */
  predicate ProperName(name: seq<Byte>) {
    name != [] && SLASH !in name
  }

  predicate ProperNames(t: Tree)
    decreases t
  {
    forall i :: 0 <= i < |t.items| && t.items[i].Child? ==> ProperName(t.items[i].node.name) && ProperNames(t.items[i].node)
  }

  ghost predicate IsMirrored(t: Tree, k: nat, v: View)
    requires k <= |t.items|
  {
    exists j :: 0 <= j < k && t.items[j].Child? && v == Mirror(t.items[j].node)
  }

  lemma MirroredItem(t: Tree, k: nat, v: View) returns (j: nat)
    requires k <= |t.items| && IsMirrored(t, k, v)
    ensures j < k && t.items[j].Child? && v == Mirror(t.items[j].node)
  {
    j :| 0 <= j < k && t.items[j].Child? && v == Mirror(t.items[j].node);
  }

  lemma {:induction false} MirroredChildren(t: Tree, k: nat)
    requires k <= |t.items|
    ensures forall i :: 0 <= i < |MirrorChildren(t, k)| ==> IsMirrored(t, k, MirrorChildren(t, k)[i])
    ensures DistinctNames(t) ==>
              forall i, j :: 0 <= i < j < |MirrorChildren(t, k)| ==> MirrorChildren(t, k)[i].name != MirrorChildren(t, k)[j].name
  {
    hide DistinctNames;
    if k > 0 {
      MirroredChildren(t, k - 1);
      var before, now := MirrorChildren(t, k - 1), MirrorChildren(t, k);
      forall i | 0 <= i < |before| ensures IsMirrored(t, k, before[i]) {
        var j := MirroredItem(t, k - 1, before[i]);
      }
      if t.items[k - 1].Child? {
        assert IsMirrored(t, k, Mirror(t.items[k - 1].node));
        assert now == [Mirror(t.items[k - 1].node)] + before;
        forall i | 0 <= i < |before| && DistinctNames(t) ensures before[i].name != now[0].name {
          var j := MirroredItem(t, k - 1, before[i]);
          NamesDiffer(t, j, k - 1);
        }
      }
    }
  }

  lemma NamesDiffer(t: Tree, i: nat, j: nat)
    requires DistinctNames(t) && i < j < |t.items| && t.items[i].Child? && t.items[j].Child?
    ensures t.items[i].node.name != t.items[j].node.name
  {
  }

  lemma {:induction false} MirrorIsDistinct(t: Tree)
    requires DistinctNames(t)
    ensures DistinctSiblings(Mirror(t))
    decreases t
  {
    var v := Mirror(t);
    MirroredChildren(t, |t.items|);
    assert v.children == MirrorChildren(t, |t.items|);
    forall i | 0 <= i < |v.children| ensures DistinctSiblings(v.children[i]) {
      var j := MirroredItem(t, |t.items|, v.children[i]);
      MirrorIsDistinct(t.items[j].node);
    }
  }

  lemma {:induction false} NamesAreProper(t: Tree, steps: seq<nat>)
    requires ProperNames(t) && IsPath(Mirror(t), steps)
    ensures forall name :: name in NamesAlong(Mirror(t), steps) ==> ProperName(name)
    decreases |steps|
  {
    hide ProperName;
    if steps != [] {
      MirroredChildren(t, |t.items|);
      var child := Mirror(t).children[steps[0]];
      var j := MirroredItem(t, |t.items|, child);
      NamesAreProper(t.items[j].node, steps[1..]);
    }
  }

  /**
   * Parse a block and look a path up.  The record found is that of the node whose names are those in
   * the path, and it shows that node; there is none if no node has these names.
   */
  method FindInBlock(cells: seq<Cell>, path: seq<Byte>, ghost before: nat, ghost t: Tree)
    returns (parser: Parser, outcome: Outcome, found: Link)
    requires OneTree(cells, before, t) && DistinctNames(t) && 0 !in path
    ensures fresh(parser) && parser.cells == cells && parser.Valid()
    ensures outcome == Parsed(0) <==> PoolsSuffice(cells, t)
    ensures outcome == Parsed(0) ==>
              forall steps :: IsPath(Mirror(t), steps) && NamesAlong(Mirror(t), steps) == Segments(path) ==>
                found == RecordAt(parser.nodes[..parser.nodeHead], 0, steps) && found.Some? &&
                Shows(cells, parser.nodes[..parser.nodeHead], parser.props[..parser.propHead], found.value, ViewAt(Mirror(t), steps))
    ensures outcome == Parsed(0) && found.Some? ==>
              exists steps :: IsPath(Mirror(t), steps) && NamesAlong(Mirror(t), steps) == Segments(path)
  {
    hide Shows, OneTree, DistinctNames, DistinctSiblings, PoolsSuffice, NodeRecs, PropRecs, WithSibling, Mirror, Segments;
    parser := new Parser(cells);
    outcome := parser.Init(FDT_MAGIC, before, Some(t));
    found := None;
    if outcome == Parsed(0) {
      var nodes, props := parser.nodes[..parser.nodeHead], parser.props[..parser.propHead];
      found := Find(cells, nodes, parser.root, path, props, Mirror(t));
      MirrorIsDistinct(t);
      LookupIsExact(cells, nodes, props, Mirror(t), Segments(path));
    }
  }

  lemma LookupIsExact(cells: seq<Cell>, nodes: seq<NodeRec>, props: seq<PropRec>, v: View, names: seq<seq<Byte>>)
    requires Shows(cells, nodes, props, 0, v) && DistinctSiblings(v)
    ensures forall steps :: IsPath(v, steps) && NamesAlong(v, steps) == names ==>
              Lookup(v, names) == Some(steps) && RecordAt(nodes, 0, steps).Some? &&
              Shows(cells, nodes, props, RecordAt(nodes, 0, steps).value, ViewAt(v, steps))
    ensures Lookup(v, names).Some? ==> exists steps :: IsPath(v, steps) && NamesAlong(v, steps) == names
  {
    hide Shows, DistinctSiblings;
    forall steps | IsPath(v, steps) && NamesAlong(v, steps) == names
      ensures Lookup(v, names) == Some(steps) && RecordAt(nodes, 0, steps).Some?
      ensures Shows(cells, nodes, props, RecordAt(nodes, 0, steps).value, ViewAt(v, steps))
    {
      LookupIff(v, names, steps);
      RecordShows(cells, nodes, props, 0, v, steps);
    }
    if Lookup(v, names).Some? {
      LookupIff(v, names, Lookup(v, names).value);
    }
  }

  /** With proper names, any path written for a node, with any slashes, spells exactly the node's names. */
  lemma PathSpellsNode(t: Tree, steps: seq<nat>, gaps: seq<nat>, last: nat)
    requires ProperNames(t) && IsPath(Mirror(t), steps)
    requires |gaps| == |NamesAlong(Mirror(t), steps)| && forall k :: 0 < k < |gaps| ==> gaps[k] > 0
    ensures Segments(PathOf(NamesAlong(Mirror(t), steps), gaps, last)) == NamesAlong(Mirror(t), steps)
  {
    NamesAreProper(t, steps);
    var names := NamesAlong(Mirror(t), steps);
    forall k | 0 <= k < |names| ensures names[k] != [] && SLASH !in names[k] {
      assert ProperName(names[k]);
    }
    SegmentsOfPath(NamesAlong(Mirror(t), steps), gaps, last);
  }
}
