/**
 * One row of a PD's resource directory: the fixed array of request-edge slots that a PD
 * has for one resource type.
 */
module RequestDirectory {
  import opened Resources

  const MAX_NS_PER_RDE: nat := 8

  /** A slot is empty when its type is KIND_NONE; a cleared slot keeps SPACE_ID_NULL. */
  datatype Slot = Slot(kind: Kind, space: SpaceId)

  const CLEARED := Slot(KIND_NONE, SPACE_ID_NULL)
  const UNUSED := Slot(KIND_NONE, 0)

  type Row = seq<Slot>

  const EMPTY_ROW: Row := seq(MAX_NS_PER_RDE, _ => UNUSED)

  predicate Hole(s: Slot) {
    s == CLEARED || s == UNUSED
  }

  /** A row of type `kind` holds only empty slots and entries of that type. */
  predicate RowOf(row: Row, kind: Kind) {
    && |row| == MAX_NS_PER_RDE
    && forall i :: 0 <= i < |row| ==> Hole(row[i]) || (kind != KIND_NONE && row[i].kind == kind)
  }

  predicate Entry(row: Row, kind: Kind, space: SpaceId, i: nat)
    requires i < |row|
  {
    row[i] == Slot(kind, space)
  }

  predicate Lists(row: Row, kind: Kind, space: SpaceId) {
    exists i :: 0 <= i < |row| && Entry(row, kind, space, i)
  }

  /** No (type, space) pair occupies two slots. */
  predicate UniqueEntries(row: Row) {
    forall i, j :: 0 <= i < j < |row| && row[i].kind != KIND_NONE ==> row[i] != row[j]
  }

  // ----- lookup -----

  predicate LookupHit(s: Slot, kind: Kind, space: SpaceId) {
    (space == SPACE_ID_NULL && s.kind == kind) || s.space == space
  }

  /** The first slot that the lookup accepts, or the length of the row. */
  function FirstHit(row: Row, kind: Kind, space: SpaceId): (i: nat)
    ensures i <= |row| && (forall j :: 0 <= j < i ==> !LookupHit(row[j], kind, space))
    ensures i < |row| ==> LookupHit(row[i], kind, space)
    ensures i < |row| <==> Found(row, kind, space)
  {
    if row == [] || LookupHit(row[0], kind, space) then 0 else 1 + FirstHit(row[1..], kind, space)
  }

  method FindIndex(row: Row, kind: Kind, space: SpaceId) returns (idx: int)
    ensures -1 <= idx < |row|
    ensures idx != -1 ==> LookupHit(row[idx], kind, space)
    ensures forall i :: 0 <= i < (if idx == -1 then |row| else idx) ==> !LookupHit(row[i], kind, space)
    ensures idx != -1 <==> Found(row, kind, space)
    ensures idx != -1 ==> idx == FirstHit(row, kind, space)
  {
    idx := -1;
    for i := 0 to |row|
      invariant forall j :: 0 <= j < i ==> !LookupHit(row[j], kind, space)
    {
      if (space == SPACE_ID_NULL && row[i].kind == kind) || row[i].space == space {
        return i;
      }
    }
  }

  predicate Found(row: Row, kind: Kind, space: SpaceId) {
    exists i :: 0 <= i < |row| && LookupHit(row[i], kind, space)
  }

  // ----- insertion -----

  /** The slot at which the insertion scan stops: the entry itself, or the first hole. */
  function InsertStop(row: Row, kind: Kind, space: SpaceId, from: nat): (i: nat)
    requires from <= |row|
    decreases |row| - from
    ensures from <= i <= |row|
    ensures forall j :: from <= j < i ==> row[j] != Slot(kind, space) && row[j].kind != KIND_NONE
    ensures i < |row| ==> row[i] == Slot(kind, space) || row[i].kind == KIND_NONE
  {
    if from == |row| || row[from] == Slot(kind, space) || row[from].kind == KIND_NONE then from
    else InsertStop(row, kind, space, from + 1)
  }

  function Insert(row: Row, kind: Kind, space: SpaceId): (r: Row)
    ensures |r| == |row|
  {
    var i := InsertStop(row, kind, space, 0);
    if i < |row| && row[i] != Slot(kind, space) then row[i := Slot(kind, space)] else row
  }

  /** There is no free slot before the end of the row, or none before the entry itself. */
  predicate Refuses(row: Row, kind: Kind, space: SpaceId) {
    exists i :: 0 <= i <= |row| && (i == |row| || Entry(row, kind, space, i)) && NoFreeSlot(row, i)
  }

  predicate NoFreeSlot(row: Row, n: nat)
    requires n <= |row|
  {
    forall j :: 0 <= j < n ==> row[j].kind != KIND_NONE
  }

  lemma RefusesUnlisted(row: Row, kind: Kind, space: SpaceId)
    requires !Lists(row, kind, space)
    ensures Refuses(row, kind, space) <==> NoFreeSlot(row, |row|)
  {
  }

  lemma RefusedIsSame(row: Row, kind: Kind, space: SpaceId)
    requires Refuses(row, kind, space)
    ensures Insert(row, kind, space) == row
  {
  }

  lemma InsertLists(row: Row, kind: Kind, space: SpaceId)
    requires !Refuses(row, kind, space)
    ensures Lists(Insert(row, kind, space), kind, space)
  {
    var i := InsertStop(row, kind, space, 0);
    if i < |row| && row[i] != Slot(kind, space) {
      assert Entry(Insert(row, kind, space), kind, space, i);
    } else {
      assert NoFreeSlot(row, i);
    }
  }

  method AddEntry(row: Row, kind: Kind, space: SpaceId) returns (row': Row, error: bool)
    ensures row' == Insert(row, kind, space)
    ensures error <==> row' == row
    ensures error <==> Refuses(row, kind, space)
    ensures error ==> Lists(row, kind, space) || forall i :: 0 <= i < |row| ==> row[i].kind != KIND_NONE
    ensures !error ==> Lists(row', kind, space)
  {
    var idx := -1;
    var i := 0;
    while i < |row|
      invariant 0 <= i <= |row| && idx == -1
      invariant InsertStop(row, kind, space, 0) == InsertStop(row, kind, space, i)
      invariant forall j :: 0 <= j < i ==> row[j] != Slot(kind, space) && row[j].kind != KIND_NONE
    {
      if row[i].space == space && row[i].kind == kind {
        assert Entry(row, kind, space, i);
        break;
      }
      if row[i].kind == KIND_NONE {
        idx := i;
        break;
      }
      i := i + 1;
    }
    if idx == -1 {
      assert NoFreeSlot(row, i);
      return row, true;
    }
    row' := row[idx := Slot(kind, space)];
    assert Entry(row', kind, space, idx);
    error := false;
  }

  /** Insertion never disturbs other entries and never adds any but the new one. */
  lemma InsertEntries(row: Row, kind: Kind, space: SpaceId)
    requires RowOf(row, kind) && kind != KIND_NONE
    ensures RowOf(Insert(row, kind, space), kind)
    ensures forall k, s :: k != KIND_NONE && Lists(Insert(row, kind, space), k, s) ==>
                             Lists(row, k, s) || (k == kind && s == space)
    ensures forall k, s :: k != KIND_NONE && Lists(row, k, s) ==> Lists(Insert(row, kind, space), k, s)
  {
    var r := Insert(row, kind, space);
    forall k, s | k != KIND_NONE && Lists(r, k, s)
      ensures Lists(row, k, s) || (k == kind && s == space)
    {
      var i :| 0 <= i < |r| && Entry(r, k, s, i);
      assert r[i] != row[i] || Entry(row, k, s, i);
    }
    forall k, s | k != KIND_NONE && Lists(row, k, s)
      ensures Lists(r, k, s)
    {
      var i :| 0 <= i < |row| && Entry(row, k, s, i);
      assert Entry(r, k, s, i);
    }
  }

  /**
   * The scan stops at the first hole, so an entry behind a hole goes unnoticed.  Insertion
   * keeps entries unique exactly when no entry for the pair lies behind the first hole.
   */
  lemma InsertKeepsUniqueIff(row: Row, kind: Kind, space: SpaceId)
    requires UniqueEntries(row) && kind != KIND_NONE
    ensures UniqueEntries(Insert(row, kind, space)) <==>
            var i := InsertStop(row, kind, space, 0);
            i < |row| && row[i].kind == KIND_NONE ==>
              forall j :: i < j < |row| ==> !Entry(row, kind, space, j)
  {
    var i := InsertStop(row, kind, space, 0);
    var r := Insert(row, kind, space);
    if i < |row| && row[i].kind == KIND_NONE {
      if j :| i < j < |row| && Entry(row, kind, space, j) {
        assert r[i] == r[j];
      } else {
        assert forall j :: i < j < |row| ==> r[j] == row[j] && !Entry(row, kind, space, j);
      }
    }
  }

  /** A row on which the insertion scan really does create a duplicate. */
  lemma InsertMayDuplicate() returns (row: Row)
    ensures RowOf(row, KIND_VMR) && UniqueEntries(row)
    ensures !UniqueEntries(Insert(row, KIND_VMR, 9))
  {
    row := EMPTY_ROW[1 := Slot(KIND_VMR, 9)];
    var r := Insert(row, KIND_VMR, 9);
    assert InsertStop(row, KIND_VMR, 9, 0) == 0;
    assert r[0] == r[1];
  }

  // ----- removal -----

  predicate RemoveHit(s: Slot, kind: Kind, space: SpaceId) {
    s.kind == kind && (s.space == space || space == SPACE_ID_NULL)
  }

  /** Clears the first matching entry, or every entry of the type when `space` is null. */
  function RemoveFrom(row: Row, kind: Kind, space: SpaceId, from: nat): (r: Row)
    requires from <= |row|
    decreases |row| - from
    ensures |r| == |row|
    ensures forall i :: 0 <= i < |row| ==> r[i] == row[i] || (r[i] == CLEARED && RemoveHit(row[i], kind, space))
    ensures kind != KIND_NONE && UniqueEntries(row) ==>
              UniqueEntries(r) && forall i :: from <= i < |row| ==> !RemoveHit(r[i], kind, space)
  {
    if from == |row| then row
    else if RemoveHit(row[from], kind, space) then
      if space != SPACE_ID_NULL then row[from := CLEARED]
      else RemoveFrom(row[from := CLEARED], kind, space, from + 1)
    else RemoveFrom(row, kind, space, from + 1)
  }

  function Remove(row: Row, kind: Kind, space: SpaceId): (r: Row)
    ensures |r| == |row|
  {
    RemoveFrom(row, kind, space, 0)
  }

  method RemoveEntry(row: Row, kind: Kind, space: SpaceId) returns (row': Row, found: bool)
    ensures kind != KIND_NONE ==> row' == Remove(row, kind, space)
    ensures kind == KIND_NONE ==> row' == row
    ensures kind != KIND_NONE ==> (found <==> exists i :: 0 <= i < |row| && RemoveHit(row[i], kind, space))
  {
    found := false;
    row' := row;
    if kind == KIND_NONE {
      return;
    }
    var i := 0;
    while i < |row'|
      invariant 0 <= i <= |row'| == |row|
      invariant RemoveFrom(row, kind, space, 0) == RemoveFrom(row', kind, space, i)
      invariant forall j :: i <= j < |row| ==> row'[j] == row[j]
      invariant found <==> exists j :: 0 <= j < i && RemoveHit(row[j], kind, space)
    {
      if row'[i].kind == kind && (row'[i].space == space || space == SPACE_ID_NULL) {
        found := true;
        assert RemoveHit(row[i], kind, space);
        row' := row'[i := CLEARED];
        if space != SPACE_ID_NULL {
          return;
        }
      }
      i := i + 1;
    }
  }

  /** With unique entries, removing one pair removes it for good and touches nothing else. */
  lemma RemoveIsExact(row: Row, kind: Kind, space: SpaceId)
    requires RowOf(row, kind) && UniqueEntries(row)
    requires kind != KIND_NONE && space != SPACE_ID_NULL
    ensures RowOf(Remove(row, kind, space), kind) && UniqueEntries(Remove(row, kind, space))
    ensures forall k: Kind, s: SpaceId :: k != KIND_NONE ==>
              (Lists(Remove(row, kind, space), k, s) <==> Lists(row, k, s) && (k != kind || s != space))
  {
    var r := Remove(row, kind, space);
    forall k: Kind, s: SpaceId | k != KIND_NONE
      ensures Lists(r, k, s) <==> Lists(row, k, s) && (k != kind || s != space)
    {
      if Lists(r, k, s) {
        var i :| 0 <= i < |r| && Entry(r, k, s, i);
        assert Entry(row, k, s, i) && !RemoveHit(r[i], kind, space);
      }
      if Lists(row, k, s) && (k != kind || s != space) {
        var i :| 0 <= i < |row| && Entry(row, k, s, i);
        assert !RemoveHit(row[i], kind, space) ==> Entry(r, k, s, i);
      }
    }
  }

  /** Whatever is removed, what stays was there and stays unique. */
  lemma RemoveShrinks(row: Row, kind: Kind, space: SpaceId)
    requires RowOf(row, kind) && UniqueEntries(row) && kind != KIND_NONE
    ensures RowOf(Remove(row, kind, space), kind) && UniqueEntries(Remove(row, kind, space))
    ensures forall k: Kind, s: SpaceId :: k != KIND_NONE && Lists(Remove(row, kind, space), k, s) ==> Lists(row, k, s)
  {
    var r := Remove(row, kind, space);
    forall k: Kind, s: SpaceId | k != KIND_NONE && Lists(r, k, s)
      ensures Lists(row, k, s)
    {
      var i :| 0 <= i < |r| && Entry(r, k, s, i);
      assert Entry(row, k, s, i);
    }
  }
}
