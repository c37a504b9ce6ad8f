/** A registry of counted objects, and the probe loop that finds the ID of a new one. */
module Registry {

  datatype Outcome = Inserted(id: nat) | Panicked

  datatype Entry<T> = Entry(count: nat, value: T)

  /** The ID that a probe tries after `counter`. */
  function NextId(counter: nat, max: nat): nat {
    if counter + 1 > max then 1 else counter + 1
  }

  /** How many probes after `start` it takes to reach `id`: 1 for the next ID, `max` for `start` itself. */
  function Distance(start: nat, id: nat, max: nat): int {
    if id > start then id - start else id - start + max
  }

  ghost predicate IsFree<T>(entries: map<nat, Entry<T>>, max: nat, id: nat) {
    1 <= id <= max && id !in entries
  }

  /** The probe that a loop which started at `start` makes after `n` others. */
  function Probe(start: nat, n: nat, max: nat): nat {
    NextId(if n == 0 then start else Probe(start, n - 1, max), max)
  }

  /** The check for having tried everything, which is skipped when the counter has just wrapped around. */
  predicate GivesUp(start: nat, n: nat, max: nat) {
    var before := if n == 0 then start else Probe(start, n - 1, max);
    before + 1 <= max && before + 1 == start
  }

  class Registry<T> {
    var entries: map<nat, Entry<T>>
    var idCounter: nat
    const max: nat

    ghost predicate Valid()
      reads this
    {
      1 <= max && idCounter <= max && (forall id :: id in entries ==> id <= max && entries[id].count > 0)
    }

    constructor (max: nat)
      requires 1 <= max
      ensures Valid() && entries == map[] && idCounter == 0 && this.max == max
    {
      this.max := max;
      entries, idCounter := map[], 0;
    }

    method Insert(id: nat, value: T)
      requires Valid() && id !in entries && id <= max
      modifies this`entries
      ensures Valid() && entries == old(entries)[id := Entry(1, value)]
    {
      entries := entries[id := Entry(1, value)];
    }

    method Inc(id: nat)
      requires Valid() && id in entries
      modifies this`entries
      ensures Valid() && entries == old(entries)[id := old(entries)[id].(count := old(entries)[id].count + 1)]
    {
      entries := entries[id := entries[id].(count := entries[id].count + 1)];
    }

    method Dec(id: nat)
      requires Valid() && id in entries
      modifies this`entries
      ensures Valid()
      ensures entries == if old(entries)[id].count == 1 then old(entries) - {id}
                         else old(entries)[id := old(entries)[id].(count := old(entries)[id].count - 1)]
    {
      var count: nat := entries[id].count - 1;
      entries := entries[id := entries[id].(count := count)];
      if count == 0 {
        entries := entries - {id};
        assert entries == old(entries) - {id};
      }
    }

    /**
     * Insert under the cyclically first free ID after the counter.  The loop gives up when it comes
     * back to where it started, even if that ID is free, and only if it started above 1.
     */
    method InsertNewId(value: T) returns (outcome: Outcome, ghost probes: nat)
      requires Valid()
      requires idCounter <= 1 ==> exists id :: IsFree(entries, max, id)
      modifies this
      ensures Valid()
      ensures outcome.Panicked? <==>
                old(idCounter) > 1 && forall id :: IsFree(old(entries), max, id) ==> id == old(idCounter)
      ensures outcome.Panicked? ==> entries == old(entries) && idCounter == old(idCounter)
      ensures outcome.Inserted? ==>
                IsFree(old(entries), max, outcome.id) &&
                entries == old(entries)[outcome.id := Entry(1, value)] && idCounter == outcome.id
      ensures outcome.Inserted? ==>
                forall id :: IsFree(old(entries), max, id) ==>
                  Distance(old(idCounter), outcome.id, max) <= Distance(old(idCounter), id, max)
      ensures outcome.Inserted? ==> probes == Distance(old(idCounter), outcome.id, max)
      ensures 0 < probes <= max
      ensures outcome.Inserted? ==> outcome.id == Probe(old(idCounter), probes - 1, max)
      ensures outcome.Panicked? ==> GivesUp(old(idCounter), probes - 1, max)
    {
      var start := idCounter;
      probes := 0;
      var taken := true;
      while taken
        invariant probes <= max && entries == old(entries) && Valid()
        invariant probes == 0 ==> idCounter == start && taken
        invariant probes > 0 ==> 1 <= idCounter <= max && probes == Distance(start, idCounter, max)
        invariant probes > 0 ==> idCounter == Probe(start, probes - 1, max)
        invariant probes > 0 ==> (taken <==> idCounter in entries)
        invariant forall id :: 1 <= id <= max && Distance(start, id, max) < probes ==> id in entries
        invariant start > 1 ==> probes < max
        decreases max - probes, taken
      {
        idCounter := idCounter + 1;
        probes := probes + 1;
        if idCounter > max {
          idCounter := 1;
        } else if idCounter == start {
          return Panicked, probes;
        }
        taken := idCounter in entries;
      }
      assert IsFree(old(entries), max, idCounter);
      Insert(idCounter, value);
      outcome := Inserted(idCounter);
    }
  }

  /** Two objects are inserted and the second is dropped: its ID is free, and the next insertion panics. */
  method PanicsWithFreeId() returns (r: Registry<bool>, outcome: Outcome)
    ensures fresh(r) && r.Valid() && r.max == 2 && r.idCounter == 2
    ensures outcome == Panicked && IsFree(r.entries, r.max, 2)
  {
    r := new Registry<bool>(2);
    assert IsFree(r.entries, 2, 1);
    var first, _ := r.InsertNewId(true);
    assert Distance(0, first.id, 2) <= Distance(0, 1, 2);
    assert IsFree(r.entries, 2, 2);
    var second, _ := r.InsertNewId(true);
    r.Dec(2);
    assert forall id :: IsFree(r.entries, 2, id) ==> id == 2;
    var last, _ := r.InsertNewId(true);
    outcome := last;
  }

  /** The first insertion into a registry for one object takes its only ID: the next one would never end. */
  method FullAtOnce() returns (r: Registry<bool>)
    ensures fresh(r) && r.Valid() && r.max == 1 && r.idCounter == 1
    ensures forall n :: !GivesUp(r.idCounter, n, r.max) && Probe(r.idCounter, n, r.max) in r.entries
  {
    r := new Registry<bool>(1);
    assert IsFree(r.entries, 1, 1);
    var _, _ := r.InsertNewId(true);
    forall n ensures !GivesUp(1, n, 1) && Probe(1, n, 1) in r.entries {
      ProbesForever(r.entries, 1, n, 1);
    }
  }

  /** With the counter at 0 or 1 and every ID taken, the loop never gives up and never finds an ID. */
  lemma {:induction false} ProbesForever<T>(entries: map<nat, Entry<T>>, start: nat, n: nat, max: nat)
    requires 1 <= max && start <= 1 && forall id :: 1 <= id <= max ==> id in entries
    ensures !GivesUp(start, n, max) && Probe(start, n, max) in entries
  {
    if n > 0 {
      ProbesForever(entries, start, n - 1, max);
      ProbeInRange(start, n - 1, max);
    }
    ProbeInRange(start, n, max);
  }

  lemma {:induction false} ProbeInRange(start: nat, n: nat, max: nat)
    requires 1 <= max
    ensures 1 <= Probe(start, n, max) <= max
  {
    if n > 0 {
      ProbeInRange(start, n - 1, max);
    }
  }
}
