/** Badges: five fields packed into one 64-bit word, and the hold registry that is keyed by them. */
module Badge {

  type Word = bv64

  const NOTIF_BADGE: Word := 0xFFFF_FFFF_FFFF_FFFF

  predicate Byte(w: Word) { w <= 0xFF }

  predicate Id(w: Word) { w <= 0xF_FFFF }

  // ===== fields =====

  function GetType(b: Word): Word { (b >> 56) & 0xFF }

  function GetPerms(b: Word): Word { (b >> 48) & 0xFF }

  function GetSpace(b: Word): Word { (b >> 40) & 0xFF }

  function GetClient(b: Word): Word { (b >> 20) & 0xF_FFFF }

  function GetObject(b: Word): Word { b & 0xF_FFFF }

  function SetType(b: Word, kind: Word): Word
    requires Byte(kind)
  {
    (b & 0x00FF_FFFF_FFFF_FFFF) | (kind << 56)
  }

  /** The permissions are shifted by 56, onto the type, and not by 48. */
  function SetPerms(b: Word, perms: Word): Word
    requires Byte(perms)
  {
    (b & 0xFF00_FFFF_FFFF_FFFF) | (perms << 56)
  }

  function SetSpace(b: Word, space: Word): Word
    requires Byte(space)
  {
    (b & 0xFFFF_00FF_FFFF_FFFF) | (space << 40)
  }

  function SetClient(b: Word, client: Word): Word
    requires Id(client)
  {
    (b & 0xFFFF_FF00_000F_FFFF) | (client << 20)
  }

  function SetObject(b: Word, obj: Word): Word
    requires Id(obj)
  {
    (b & 0xFFFF_FFFF_FFF0_0000) | obj
  }

  function NewBadge(kind: Word, perms: Word, client: Word, space: Word, obj: Word): (b: Word)
    requires Byte(kind) && Byte(perms) && Byte(space) && Id(client) && Id(obj)
    ensures b != NOTIF_BADGE
  {
    SetSpace(SetClient(SetObject(SetPerms(SetType(0, kind), perms), obj), client), space)
  }

  function CompactResId(kind: Word, space: Word, obj: Word): Word
    requires Byte(kind) && Byte(space) && Id(obj)
  {
    NewBadge(kind, 0, 0, space, obj)
  }

  // ===== getters and setters =====

  predicate OtherFieldsKept(b: Word, c: Word, kind: bool, space: bool, client: bool, obj: bool) {
    && (kind || GetType(c) == GetType(b)) && GetPerms(c) == GetPerms(b) && (space || GetSpace(c) == GetSpace(b))
    && (client || GetClient(c) == GetClient(b)) && (obj || GetObject(c) == GetObject(b))
  }

  /** Every setter but that of the permissions is undone by its getter and leaves the other fields alone. */
  lemma TypeField(b: Word, kind: Word)
    requires Byte(kind)
    ensures GetType(SetType(b, kind)) == kind && OtherFieldsKept(b, SetType(b, kind), true, false, false, false)
  {
  }

  lemma SpaceField(b: Word, space: Word)
    requires Byte(space)
    ensures GetSpace(SetSpace(b, space)) == space && OtherFieldsKept(b, SetSpace(b, space), false, true, false, false)
  {
  }

  lemma ClientField(b: Word, client: Word)
    requires Id(client)
    ensures GetClient(SetClient(b, client)) == client && OtherFieldsKept(b, SetClient(b, client), false, false, true, false)
  {
    ClientRead(b, client);
    ClientSparesAbove(b, client);
    ClientSparesBelow(b, client);
    hide GetType, GetPerms, GetSpace, GetClient, GetObject, SetClient;
  }

  lemma ClientRead(b: Word, client: Word)
    requires Id(client)
    ensures GetClient(SetClient(b, client)) == client
  {
  }

  lemma ClientSparesAbove(b: Word, client: Word)
    requires Id(client)
    ensures GetType(SetClient(b, client)) == GetType(b)
    ensures GetPerms(SetClient(b, client)) == GetPerms(b)
    ensures GetSpace(SetClient(b, client)) == GetSpace(b)
  {
  }

  lemma ClientSparesBelow(b: Word, client: Word)
    requires Id(client)
    ensures GetObject(SetClient(b, client)) == GetObject(b)
  {
  }

  lemma ObjectField(b: Word, obj: Word)
    requires Id(obj)
    ensures GetObject(SetObject(b, obj)) == obj && OtherFieldsKept(b, SetObject(b, obj), false, false, false, true)
  {
  }

  /** The setter of the permissions does its job, and spares the type, exactly when there are none to set. */
  lemma PermsField(b: Word, perms: Word)
    requires Byte(perms)
    ensures GetPerms(SetPerms(b, perms)) == 0
    ensures GetPerms(SetPerms(b, perms)) == perms <==> perms == 0
    ensures GetType(SetPerms(b, perms)) == GetType(b) | perms
    ensures GetSpace(SetPerms(b, perms)) == GetSpace(b) && GetClient(SetPerms(b, perms)) == GetClient(b)
    ensures GetObject(SetPerms(b, perms)) == GetObject(b)
  {
  }

  lemma BadgeFields(kind: Word, perms: Word, client: Word, space: Word, obj: Word)
    requires Byte(kind) && Byte(perms) && Byte(space) && Id(client) && Id(obj)
    ensures var b := NewBadge(kind, perms, client, space, obj);
            GetSpace(b) == space && GetClient(b) == client && GetObject(b) == obj && GetType(b) == kind | perms && GetPerms(b) == 0
    ensures var b := NewBadge(kind, perms, client, space, obj);
            GetPerms(b) == perms <==> perms == 0
  {
    hide GetType, GetPerms, GetSpace, GetClient, GetObject, SetType, SetPerms, SetSpace, SetClient, SetObject;
    var typed := SetType(0, kind);
    var masked := SetPerms(typed, perms);
    var named := SetObject(masked, obj);
    var owned := SetClient(named, client);
    TypeField(0, kind);
    PermsField(typed, perms);
    ObjectField(masked, obj);
    ClientField(named, client);
    SpaceField(owned, space);
  }

  /** Different resources have different compact IDs. */
  lemma CompactIsInjective(kind: Word, space: Word, obj: Word, kind': Word, space': Word, obj': Word)
    requires Byte(kind) && Byte(space) && Id(obj) && Byte(kind') && Byte(space') && Id(obj')
    ensures CompactResId(kind, space, obj) == CompactResId(kind', space', obj') <==>
            kind == kind' && space == space' && obj == obj'
  {
    hide NewBadge, GetType, GetSpace, GetObject;
    BadgeFields(kind, 0, 0, space, obj);
    BadgeFields(kind', 0, 0, space', obj');
    NoPerms(kind);
    NoPerms(kind');
  }

  lemma NoPerms(kind: Word)
    ensures kind | 0 == kind
  {
  }

  // ===== the hold registry =====

  /** What names a resource, with every field in range. */
  type Res = r: ResFields | Byte(r.kind) && Byte(r.space) && Id(r.obj) witness ResFields(0, 0, 0)

  datatype ResFields = ResFields(kind: Word, space: Word, obj: Word)

  datatype CompactId = CompactId(word: Word)

  function Key(res: Res): CompactId {
    CompactId(CompactResId(res.kind, res.space, res.obj))
  }

  lemma KeyIsInjective(res: Res, other: Res)
    ensures Key(res) == Key(other) <==> res == other
  {
    hide CompactResId;
    CompactIsInjective(res.kind, res.space, res.obj, other.kind, other.space, other.obj);
  }

  datatype Hold = Hold(res: Res, count: nat)

  /** The holds of one PD: a hash table keyed by compact IDs, with a count for each. */
  class HoldRegistry {
    var nodes: map<CompactId, Hold>
    ghost var contents: multiset<Res>

    ghost predicate Valid()
      reads this
    {
      && (forall k :: k in nodes ==> nodes[k].count > 0 && Key(nodes[k].res) == k)
      && (forall res: Res :: contents[res] == Count(nodes, res))
    }

    constructor ()
      ensures Valid() && contents == multiset{}
    {
      nodes, contents := map[], multiset{};
    }

    method Add(res: Res)
      requires Valid()
      modifies this
      ensures Valid() && contents == old(contents) + multiset{res}
    {
      hide Key, Count;
      var k := Key(res);
      CountPut(nodes, res, if k in nodes then nodes[k].(count := nodes[k].count + 1) else Hold(res, 1));
      if k in nodes {
        nodes := nodes[k := nodes[k].(count := nodes[k].count + 1)];
      } else {
        nodes := nodes[k := Hold(res, 1)];
      }
      contents := contents + multiset{res};
    }

    method Has(res: Res) returns (held: bool)
      requires Valid()
      ensures held <==> res in contents
    {
      held := Key(res) in nodes;
      assert contents[res] == Count(nodes, res);
    }

    /** Drop one reference to the resource. */
    method Remove(res: Res)
      requires Valid()
      modifies this
      ensures Valid() && contents == old(contents) - multiset{res}
    {
      hide Key, Count;
      var k := Key(res);
      CountGone(nodes, res);
      if k in nodes {
        CountPut(nodes, res, nodes[k].(count := nodes[k].count - 1));
        if nodes[k].count == 1 {
          nodes := nodes - {k};
        } else {
          nodes := nodes[k := nodes[k].(count := nodes[k].count - 1)];
        }
      }
      contents := contents - multiset{res};
    }

    /** Drop all references to the resource. */
    method Delete(res: Res)
      requires Valid()
      modifies this
      ensures Valid() && contents == old(contents)[res := 0] && nodes == old(nodes) - {Key(res)}
    {
      hide Key, Count;
      CountGone(nodes, res);
      nodes := nodes - {Key(res)};
      contents := contents[res := 0];
    }

    method HasInSpace(space: Word) returns (found: bool)
      requires Valid()
      ensures found <==> exists res :: res in contents && res.space == space
    {
      hide Key;
      var left := nodes.Keys;
      while left != {}
        invariant left <= nodes.Keys && forall k :: k in nodes && k !in left ==> nodes[k].res.space != space
        decreases |left|
      {
        var k :| k in left;
        if nodes[k].res.space == space {
          assert contents[nodes[k].res] == Count(nodes, nodes[k].res);
          return true;
        }
        left := left - {k};
      }
      found := false;
      forall res: Res | res in contents ensures res.space != space {
        assert contents[res] == Count(nodes, res);
        var k := Key(res);
        KeyIsInjective(nodes[k].res, res);
      }
    }

    /** Drop everything that belongs to a space. */
    method RemoveInSpace(space: Word)
      requires Valid()
      modifies this
      ensures Valid() && forall res: Res :: contents[res] == if res.space == space then 0 else old(contents)[res]
    {
      hide Key;
      var left := nodes.Keys;
      while left != {}
        invariant Valid() && left <= nodes.Keys
        invariant forall k :: k in nodes && k !in left ==> nodes[k].res.space != space
        invariant forall res: Res :: contents[res] == old(contents)[res] || (contents[res] == 0 && res.space == space)
        decreases |left|
      {
        var k :| k in left;
        left := left - {k};
        if nodes[k].res.space == space {
          Delete(nodes[k].res);
        }
      }
      forall res: Res ensures res.space == space ==> contents[res] == 0 {
        assert contents[res] == Count(nodes, res);
        if Key(res) in nodes {
          KeyIsInjective(nodes[Key(res)].res, res);
        }
      }
    }
  }

  function Count(nodes: map<CompactId, Hold>, res: Res): nat {
    if Key(res) in nodes then nodes[Key(res)].count else 0
  }

  lemma CountPut(nodes: map<CompactId, Hold>, res: Res, hold: Hold)
    ensures forall other: Res :: Count(nodes[Key(res) := hold], other) == if other == res then hold.count else Count(nodes, other)
    ensures Count(nodes, res) == if Key(res) in nodes then nodes[Key(res)].count else 0
  {
    hide Key;
    AllKeysDiffer(res);
  }

  lemma CountGone(nodes: map<CompactId, Hold>, res: Res)
    ensures forall other: Res :: Count(nodes - {Key(res)}, other) == if other == res then 0 else Count(nodes, other)
    ensures Key(res) !in nodes ==> Count(nodes, res) == 0
  {
    hide Key;
    AllKeysDiffer(res);
  }

  lemma AllKeysDiffer(res: Res)
    ensures forall other: Res :: Key(res) == Key(other) <==> res == other
  {
    forall other: Res ensures Key(res) == Key(other) <==> res == other {
      KeyIsInjective(res, other);
    }
  }
}
