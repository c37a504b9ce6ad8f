/**
 * Pending work of resource servers, and the asynchronous termination of PDs that waits for it.
 *
 * A queue is a sequence here; the `LinkedList` module shows that the list behind it behaves as one.
 */
module WorkProtocol {
  import opened Common
  import opened Resources

  // Actions, in order of priority.
  const EXTRACT: nat := 0
  const SEND: nat := 1
  const FREE: nat := 2
  const DESTROY: nat := 3
  const ACTIONS: nat := 4
  const NO_WORK: nat := 5

  /** The largest number of entries in one reply. */
  const BATCH_MAX: nat := 16

  datatype Work = Work(space: SpaceId, obj: ObjId, client: PdId, critical: bool)

  type Queues = q: seq<seq<Work>> | |q| == ACTIONS witness [[], [], [], []]

  const NONE_QUEUED: Queues := [[], [], [], []]

  /** Work that was handed to a server and not reported as finished. */
  datatype Batch = Batch(pd: PdId, action: nat, items: seq<Work>)

  datatype TerminateError = NONE | UNKNOWN | OPERATION_IN_PROGRESS

  /** What destroying PDs and spaces does to the queues. */
  datatype Effect = QueueFree(pd: PdId, work: Work) | QueueDestroy(pd: PdId, work: Work) | Remove(pd: PdId)

  // ===== counting critical work =====

  predicate Awaited(action: nat) {
    action == FREE || action == DESTROY
  }

  function Critical(q: seq<Work>): nat {
    if q == [] then 0 else (if q[0].critical then 1 else 0) + Critical(q[1..])
  }

  function CriticalIn(q: Queues): nat {
    Critical(q[FREE]) + Critical(q[DESTROY])
  }

  ghost function CriticalQueued(pds: map<PdId, Queues>): nat
    decreases |pds|
  {
    if pds == map[] then 0
    else
      var p :| p in pds;
      KeyRemoved(pds, p);
      CriticalIn(pds[p]) + CriticalQueued(pds - {p})
  }

  function CriticalOut(out: seq<Batch>): nat {
    if out == [] then 0
    else (if Awaited(out[0].action) then Critical(out[0].items) else 0) + CriticalOut(out[1..])
  }

  lemma {:induction false} CriticalConcat(q: seq<Work>, r: seq<Work>)
    ensures Critical(q + r) == Critical(q) + Critical(r)
  {
    if q == [] {
      assert q + r == r;
    } else {
      assert (q + r)[1..] == q[1..] + r;
      CriticalConcat(q[1..], r);
    }
  }

  /** The number of entries that are critical. */
  lemma {:induction false} CriticalCounts(q: seq<Work>)
    ensures Critical(q) == |set i | 0 <= i < |q| && q[i].critical|
  {
    if q != [] {
      var n := |q| - 1;
      var init := q[..n];
      CriticalCounts(init);
      CriticalConcat(init, [q[n]]);
      assert init + [q[n]] == q;
      var all, before := set i | 0 <= i < |q| && q[i].critical, set i | 0 <= i < |init| && init[i].critical;
      assert all == before + if q[n].critical then {n} else {};
    }
  }

  /** The sum over all PDs does not depend on the order of summation. */
  lemma {:induction false} SplitOff(pds: map<PdId, Queues>, p: PdId)
    requires p in pds
    ensures CriticalQueued(pds) == CriticalIn(pds[p]) + CriticalQueued(pds - {p})
    decreases |pds|
  {
    var first :| first in pds && CriticalQueued(pds) == CriticalIn(pds[first]) + CriticalQueued(pds - {first});
    if first != p {
      KeyRemoved(pds, first);
      KeyRemoved(pds, p);
      SplitOff(pds - {first}, p);
      SplitOff(pds - {p}, first);
      assert pds - {first} - {p} == pds - {p} - {first};
    }
  }

  lemma Requeued(pds: map<PdId, Queues>, p: PdId, q: Queues)
    requires p in pds
    ensures CriticalQueued(pds[p := q]) == CriticalQueued(pds) - CriticalIn(pds[p]) + CriticalIn(q)
  {
    SplitOff(pds, p);
    SplitOff(pds[p := q], p);
    assert pds[p := q] - {p} == pds - {p};
  }

  lemma Registered(pds: map<PdId, Queues>, p: PdId)
    requires p !in pds
    ensures CriticalQueued(pds[p := NONE_QUEUED]) == CriticalQueued(pds)
  {
    SplitOff(pds[p := NONE_QUEUED], p);
    assert pds[p := NONE_QUEUED] - {p} == pds;
  }

  lemma {:induction false} OutConcat(a: seq<Batch>, b: seq<Batch>)
    ensures CriticalOut(a + b) == CriticalOut(a) + CriticalOut(b)
  {
    if a == [] {
      assert a + b == b;
    } else {
      assert (a + b)[1..] == a[1..] + b;
      OutConcat(a[1..], b);
    }
  }

  lemma HandedOut(out: seq<Batch>, b: Batch)
    ensures CriticalOut(out + [b]) == CriticalOut(out) + if Awaited(b.action) then Critical(b.items) else 0
  {
    OutConcat(out, [b]);
  }

  lemma TakenBack(out: seq<Batch>, i: nat)
    requires i < |out|
    ensures CriticalOut(out) ==
            CriticalOut(out[..i] + out[i + 1..]) + if Awaited(out[i].action) then Critical(out[i].items) else 0
  {
    OutConcat(out[..i], out[i..]);
    OutConcat(out[..i], out[i + 1..]);
    assert out == out[..i] + out[i..] && out[i..][1..] == out[i + 1..];
  }

  // ===== what the queue operations compute =====

  function Appended(pds: map<PdId, Queues>, p: PdId, action: nat, work: Work): map<PdId, Queues>
    requires action < ACTIONS
  {
    if p in pds then pds[p := pds[p][action := pds[p][action] + [work]]] else pds
  }

  function After(pds: map<PdId, Queues>, e: Effect, starting: bool): map<PdId, Queues> {
    match e
    case QueueFree(p, w) => Appended(pds, p, FREE, w.(critical := starting))
    case QueueDestroy(p, w) => Appended(pds, p, DESTROY, w.(critical := starting))
    case Remove(p) => pds - {p}
  }

  function AfterAll(pds: map<PdId, Queues>, script: seq<Effect>, starting: bool): map<PdId, Queues>
    decreases |script|
  {
    if script == [] then pds
    else After(AfterAll(pds, script[..|script| - 1], starting), script[|script| - 1], starting)
  }

  /** One queue of `p` has gained `items` at its end, and no other queue has changed. */
  ghost predicate Extends(a: map<PdId, Queues>, b: map<PdId, Queues>, p: PdId, action: nat, items: seq<Work>) {
    && b.Keys == a.Keys && p in a && action < ACTIONS && b[p][action] == a[p][action] + items
    && forall q, k :: q in a && 0 <= k < ACTIONS && (q != p || k != action) ==> b[q][k] == a[q][k]
  }

  /** The entries that a destruction queues for `p` and `action`, in the order in which it does so. */
  function Entries(script: seq<Effect>, p: PdId, action: nat, starting: bool): seq<Work>
    decreases |script|
  {
    if script == [] then [] else
      var last := script[|script| - 1];
      Entries(script[..|script| - 1], p, action, starting) +
      if action == 2 && last.QueueFree? && last.pd == p then [last.work.(critical := starting)]
      else if action == 3 && last.QueueDestroy? && last.pd == p then [last.work.(critical := starting)]
      else []
  }

  /** Each queue of a PD that survives has what the script put into it at its end, in order. */
  ghost predicate Delivered(a: map<PdId, Queues>, b: map<PdId, Queues>, script: seq<Effect>, starting: bool) {
    && (forall p :: p in b <==> p in a && Remove(p) !in script)
    && forall p, k :: p in b && 0 <= k < ACTIONS ==> b[p][k] == a[p][k] + Entries(script, p, k, starting)
  }

  lemma {:induction false} CascadeDelivers(pds: map<PdId, Queues>, script: seq<Effect>, starting: bool)
    ensures Delivered(pds, AfterAll(pds, script, starting), script, starting)
    decreases |script|
  {
    if script != [] {
      var init, last := script[..|script| - 1], script[|script| - 1];
      CascadeDelivers(pds, init, starting);
      assert script == init + [last];
      OneMoreDelivered(pds, AfterAll(pds, init, starting), init, last, starting, AfterAll(pds, script, starting));
    }
  }

  /** What one effect does to the queues. */
  ghost predicate Takes(b: map<PdId, Queues>, e: Effect, starting: bool, c: map<PdId, Queues>) {
    match e
    case QueueFree(p, w) => if p in b then Extends(b, c, p, 2, [w.(critical := starting)]) else c == b
    case QueueDestroy(p, w) => if p in b then Extends(b, c, p, 3, [w.(critical := starting)]) else c == b
    case Remove(p) => c == b - {p}
  }

  /** One effect more, whatever else it is: an entry at the end of its queue, or a PD less. */
  lemma OneMoreDelivered(a: map<PdId, Queues>, b: map<PdId, Queues>, init: seq<Effect>, e: Effect, starting: bool, c: map<PdId, Queues>)
    requires Delivered(a, b, init, starting) && Takes(b, e, starting, c)
    ensures Delivered(a, c, init + [e], starting)
  {
    var script := init + [e];
    assert script[..|script| - 1] == init && script[|script| - 1] == e;
    forall p, k | p in c && 0 <= k < ACTIONS ensures c[p][k] == a[p][k] + Entries(script, p, k, starting) {
      assert b[p][k] == a[p][k] + Entries(init, p, k, starting);
    }
  }

  lemma NothingDelivered(a: map<PdId, Queues>, starting: bool)
    ensures Delivered(a, a, [], starting)
  {
  }

  function FirstWork(q: Queues, i: nat): (action: nat)
    requires i <= ACTIONS
    ensures action == NO_WORK || i <= action < ACTIONS
    ensures action == NO_WORK ==> forall k :: i <= k < ACTIONS ==> q[k] == []
    ensures action < ACTIONS ==> q[action] != [] && forall k :: i <= k < action ==> q[k] == []
    decreases ACTIONS - i
  {
    if i == ACTIONS then NO_WORK else if q[i] != [] then i else FirstWork(q, i + 1)
  }

  function Min(a: nat, b: nat): nat {
    if a < b then a else b
  }

  // ===== the invariant =====

  /** Everything the protocol keeps between two requests, except that a termination may be starting. */
  ghost predicate Counted(pds: map<PdId, Queues>, out: seq<Batch>, missing: int, waiting: bool) {
    && missing == CriticalQueued(pds) + CriticalOut(out)
    && (!waiting ==> missing == 0)
    && (forall p :: p in pds ==> Critical(pds[p][EXTRACT]) == 0 && Critical(pds[p][SEND]) == 0)
    && (forall i :: 0 <= i < |out| ==> out[i].action < ACTIONS && (!Awaited(out[i].action) ==> Critical(out[i].items) == 0))
  }

  /** What was handed out of a queue and what is still in it is, in order, what was put into it. */
  ghost predicate Fifo(pds: map<PdId, Queues>, put: map<PdId, Queues>, handed: map<PdId, Queues>) {
    && put.Keys == pds.Keys && handed.Keys == pds.Keys
    && (forall p, a :: p in pds && 0 <= a < ACTIONS ==> put[p][a] == handed[p][a] + pds[p][a])
  }

  /** Requests whose reply was deferred: answered ones once each, in order, then the one that waits. */
  ghost predicate RepliesOk(deferred: set<nat>, replies: seq<nat>, requests: nat, pending: bool, replyTo: nat) {
    && (forall i, j :: 0 <= i < j < |replies| ==> replies[i] < replies[j])
    && (forall i :: 0 <= i < |replies| ==> replies[i] < requests)
    && (pending ==> replyTo < requests && forall i :: 0 <= i < |replies| ==> replies[i] < replyTo)
    && deferred == (set r | r in replies) + if pending then {replyTo} else {}
  }

  /** Nothing critical is queued or handed out exactly when the counter is zero. */
  lemma ZeroMeansDone(pds: map<PdId, Queues>, out: seq<Batch>, missing: int, waiting: bool)
    requires Counted(pds, out, missing, waiting)
    ensures missing == 0 <==>
            (forall p :: p in pds ==> CriticalIn(pds[p]) == 0) &&
            (forall i :: 0 <= i < |out| ==> Critical(out[i].items) == 0)
  {
    if missing == 0 {
      forall p | p in pds ensures CriticalIn(pds[p]) == 0 {
        SplitOff(pds, p);
      }
      forall i | 0 <= i < |out| ensures Critical(out[i].items) == 0 {
        TakenBack(out, i);
      }
    } else {
      if forall p :: p in pds ==> CriticalIn(pds[p]) == 0 {
        NoneQueued(pds);
        if forall i :: 0 <= i < |out| ==> Critical(out[i].items) == 0 {
          NoneOut(out);
        }
      }
    }
  }

  lemma {:induction false} NoneQueued(pds: map<PdId, Queues>)
    requires forall p :: p in pds ==> CriticalIn(pds[p]) == 0
    ensures CriticalQueued(pds) == 0
    decreases |pds|
  {
    if pds != map[] {
      var p :| p in pds;
      KeyRemoved(pds, p);
      SplitOff(pds, p);
      NoneQueued(pds - {p});
    }
  }

  lemma {:induction false} NoneOut(out: seq<Batch>)
    requires forall i :: 0 <= i < |out| ==> Critical(out[i].items) == 0
    ensures CriticalOut(out) == 0
  {
    if out != [] {
      NoneOut(out[1..]);
    }
  }

  // ===== the server =====

  class WorkServer {
    var pds: map<PdId, Queues>
    var missing: int        // pd_termination_n_missing
    var starting: bool      // starting_termination
    var pending: bool       // pending_termination
    var replyTo: nat        // pd_termination_reply
    var requests: nat       // termination requests so far; they number the reply capabilities
    var replies: seq<nat>   // deferred replies sent
    ghost var out: seq<Batch>
    ghost var put: map<PdId, Queues>
    ghost var handed: map<PdId, Queues>
    ghost var deferred: set<nat> // requests that got no immediate reply

    /** Holds at every point of a run; `starting` is true only while a termination request runs. */
    ghost predicate Consistent()
      reads this
    {
      Counted(pds, out, missing, starting || pending) && Fifo(pds, put, handed)
      && RepliesOk(deferred, replies, requests, pending, replyTo)
    }

    /** Holds between two requests. */
    ghost predicate Valid()
      reads this
    {
      Consistent() && !starting
    }

    constructor ()
      ensures Valid() && pds == map[] && out == [] && !pending && missing == 0
      ensures requests == 0 && deferred == {} && replies == []
    {
      pds, missing, starting, pending, replyTo := map[], 0, false, false, 0;
      out, put, handed, requests, deferred, replies := [], map[], map[], 0, {}, [];
    }

    method AddPd(p: PdId)
      requires Valid() && p !in pds
      modifies this`pds, this`put, this`handed
      ensures Valid() && pds == old(pds)[p := NONE_QUEUED]
      ensures put == old(put)[p := NONE_QUEUED] && handed == old(handed)[p := NONE_QUEUED]
    {
      hide Fifo, Counted, RepliesOk;
      RegisteredCounts(pds, out, missing, p, pending);
      FifoRegistered(pds, put, handed, p);
      pds := pds[p := NONE_QUEUED];
      put := put[p := NONE_QUEUED];
      handed := handed[p := NONE_QUEUED];
    }

    // ----- queueing -----

    method Queue(p: PdId, action: nat, work: Work)
      requires action < ACTIONS && p in pds
      requires Fifo(pds, put, handed)
      modifies this`pds, this`put
      ensures pds == Appended(old(pds), p, action, work)
      ensures Extends(old(pds), pds, p, action, [work]) && Extends(old(put), put, p, action, [work])
      ensures Fifo(pds, put, handed)
    {
      hide Fifo;
      FifoAppended(pds, put, handed, p, action, work);
      pds := pds[p := pds[p][action := pds[p][action] + [work]]];
      put := put[p := put[p][action := put[p][action] + [work]]];
    }

    /** Work that a termination waits for, if one is starting. */
    method QueueAwaited(p: PdId, action: nat, work: Work)
      requires Consistent() && Awaited(action) && p in pds
      modifies this`pds, this`put, this`missing
      ensures Consistent()
      ensures pds == Appended(old(pds), p, action, work.(critical := starting))
      ensures Extends(old(pds), pds, p, action, [work.(critical := starting)])
      ensures Extends(old(put), put, p, action, [work.(critical := starting)])
    {
      hide Fifo, Counted, RepliesOk, Appended, Extends;
      var entry := work.(critical := starting);
      AppendedCounts(pds, out, missing, p, action, entry, starting || pending);
      if starting {
        missing := missing + 1;
      }
      Queue(p, action, entry);
    }

    /** Subgraph requests and resources sent between PDs are never critical. */
    method QueueOther(p: PdId, action: nat, work: Work)
      requires Valid() && (action == EXTRACT || action == SEND) && p in pds && !work.critical
      modifies this`pds, this`put
      ensures Valid() && pds == Appended(old(pds), p, action, work)
      ensures Extends(old(pds), pds, p, action, [work]) && Extends(old(put), put, p, action, [work])
    {
      hide Fifo, Counted, RepliesOk, Appended, Extends;
      AppendedCounts(pds, out, missing, p, action, work, pending);
      Queue(p, action, work);
    }

    // ----- a PD disappears -----

    /** The work that a PD will not do any more is not waited for either. */
    method ClearPd(p: PdId)
      requires Consistent() && p in pds
      modifies this`pds, this`put, this`handed, this`missing
      ensures Consistent() && pds == old(pds) - {p} && put == old(put) - {p} && handed == old(handed) - {p}
      ensures missing == old(missing) - CriticalIn(old(pds)[p])
    {
      hide Fifo, Counted, RepliesOk, CriticalIn;
      ClearedCounts(pds, out, missing, p, starting || pending);
      FifoCleared(pds, put, handed, p);
      var q := pds[p];
      var i := 0;
      while i < ACTIONS
        invariant i <= ACTIONS && missing == old(missing) - CriticalBelow(q, i)
        modifies this`missing
      {
        var queue := q[i];
        while |queue| > 0
          invariant missing == old(missing) - CriticalBelow(q, i) - if Awaited(i) then Critical(q[i]) - Critical(queue) else 0
          modifies this`missing
        {
          var work := queue[0];
          queue := queue[1..];
          if work.critical && Awaited(i) {
            missing := missing - 1;
          }
        }
        i := i + 1;
      }
      CriticalBelowAll(q);
      pds := pds - {p};
      put := put - {p};
      handed := handed - {p};
    }

    /** What the destruction of a PD or a space does, in whatever order it does it. */
    method Cascade(script: seq<Effect>)
      requires Consistent()
      modifies this`pds, this`put, this`handed, this`missing
      ensures Consistent() && pds == AfterAll(old(pds), script, starting)
      ensures Delivered(old(pds), pds, script, starting) && Delivered(old(put), put, script, starting)
      ensures forall q :: q in pds ==> q in handed && q in old(handed) && handed[q] == old(handed)[q]
    {
      hide Fifo, Counted, RepliesOk, Appended, Extends, Delivered, Takes;
      NothingDelivered(put, starting);
      FifoKeys(pds, put, handed);
      for i := 0 to |script|
        invariant Consistent() && pds == AfterAll(old(pds), script[..i], starting)
        invariant Delivered(old(put), put, script[..i], starting)
        invariant forall q :: q in pds ==> q in handed && q in old(handed) && handed[q] == old(handed)[q]
      {
        assert script[..i + 1][..i] == script[..i];
        ghost var before := put;
        OneEffect(script[i]);
        OneMoreDelivered(old(put), before, script[..i], script[i], starting, put);
        assert script[..i + 1] == script[..i] + [script[i]];
      }
      assert script[..|script|] == script;
      CascadeDelivers(old(pds), script, starting);
    }

    method OneEffect(effect: Effect)
      requires Consistent()
      modifies this`pds, this`put, this`handed, this`missing
      ensures Consistent() && pds == After(old(pds), effect, starting) && Takes(old(put), effect, starting, put)
      ensures forall q :: q in pds ==> q in old(pds) && q in handed && q in old(handed) && handed[q] == old(handed)[q]
    {
      hide Fifo, Counted, RepliesOk, Appended, Extends;
      SkippedEffect(pds, effect, starting);
      FifoKeys(pds, put, handed);
      if effect.pd in pds {
        match effect
        case QueueFree(p, w) => QueueAwaited(p, FREE, w);
        case QueueDestroy(p, w) => QueueAwaited(p, DESTROY, w);
        case Remove(p) => ClearPd(p);
      }
      assert effect.pd !in old(put) ==> old(put) - {effect.pd} == old(put);
      FifoKeys(pds, put, handed);
    }

    // ----- requests -----

    /**
     * A request that destroys something without being a termination request.  It never answers the
     * waiting one, even when it leaves nothing to wait for: when no critical work is handed out and
     * every PD with critical work queued is removed.
     */
    method Disturb(script: seq<Effect>)
      requires Valid()
      modifies this`pds, this`put, this`handed, this`missing
      ensures Valid() && pds == AfterAll(old(pds), script, false)
      ensures Delivered(old(pds), pds, script, false) && Delivered(old(put), put, script, false)
      ensures missing == 0 <==>
                CriticalOut(out) == 0 && forall p :: p in old(pds) && CriticalIn(old(pds)[p]) > 0 ==> Remove(p) in script
    {
      hide Fifo, RepliesOk;
      ZeroAfterIff(pds, out, missing, pending, script);
      Cascade(script);
    }

    /** Destroying a PD: the cascade, then the PD's own queues. */
    method TerminatePd(p: PdId, script: seq<Effect>)
      requires Consistent()
      modifies this`pds, this`put, this`handed, this`missing
      ensures Consistent() && pds == AfterAll(old(pds), script + [Remove(p)], starting)
      ensures Delivered(old(pds), pds, script + [Remove(p)], starting) && Delivered(old(put), put, script + [Remove(p)], starting)
    {
      hide Fifo, Counted, RepliesOk, AfterAll, After, Delivered;
      Cascade(script);
      OneMoreEffect(old(pds), script, p, starting);
      ghost var before := put;
      FifoKeys(pds, put, handed);
      if p in pds {
        ClearPd(p);
      }
      assert p !in before ==> before - {p} == before;
      OneMoreDelivered(old(put), before, script, Remove(p), starting, put);
      CascadeDelivers(old(pds), script + [Remove(p)], starting);
    }

    method Terminate(p: PdId, script: seq<Effect>) returns (error: TerminateError, shouldReply: bool)
      requires Valid()
      modifies this
      ensures Valid()
      ensures error == if old(pending) then OPERATION_IN_PROGRESS else if p !in old(pds) then UNKNOWN else NONE
      ensures error != NONE ==> pds == old(pds) && missing == old(missing) && pending == old(pending)
      ensures error == NONE ==> pds == AfterAll(old(pds), script + [Remove(p)], true)
      ensures error == NONE ==>
                Delivered(old(pds), pds, script + [Remove(p)], true) && Delivered(old(put), put, script + [Remove(p)], true)
      ensures error == NONE ==> missing == CriticalQueued(pds) && (pending <==> missing > 0)
      ensures shouldReply <==> error != NONE || missing == 0
      ensures deferred == if shouldReply then old(deferred) else old(deferred) + {old(requests)}
      ensures replies == old(replies) && requests == old(requests) + 1 && out == old(out)
    {
      hide Fifo, Counted, AfterAll, After, RepliesOk, CriticalQueued, CriticalOut, Delivered;
      var request := requests;
      OneMoreRequest(deferred, replies, requests, pending, replyTo);
      requests := requests + 1;
      shouldReply := true;
      error := NONE;
      if pending {
        error := OPERATION_IN_PROGRESS;
      } else if p !in pds {
        error := UNKNOWN;
      } else {
        StartingCounts(pds, out, missing);
        starting := true;
        TerminatePd(p, script);
        NothingAwaited(old(pds), out, old(missing), pds, missing);
        if missing > 0 {
          Defer(request);
          shouldReply := false;
        }
      }
      starting := false;
    }

    /** Save the caller's reply capability and wait. */
    method Defer(request: nat)
      requires Consistent() && starting && !pending && request + 1 == requests
      requires RepliesOk(deferred, replies, request, false, replyTo)
      modifies this`replyTo, this`pending, this`deferred
      ensures Consistent() && pending && deferred == old(deferred) + {request}
    {
      hide Fifo, Counted, RepliesOk;
      OneMoreRequest(deferred, replies, request, false, replyTo);
      replyTo := request;
      pending := true;
      deferred := deferred + {request};
    }

    /** Hand out entries of the first queue that has any. */
    method GetWork(client: PdId, p: PdId) returns (error: bool, action: nat, items: seq<Work>, nCritical: nat)
      requires Valid()
      modifies this`pds, this`handed, this`out
      ensures Valid()
      ensures error <==> p !in old(pds) || client != p
      ensures error ==> pds == old(pds) && out == old(out)
      ensures !error ==> action == FirstWork(old(pds)[p], 0)
      ensures !error && action == NO_WORK ==> items == [] && pds == old(pds) && out == old(out)
      ensures !error && action != NO_WORK ==>
                action < ACTIONS && items == old(pds)[p][action][..Min(BATCH_MAX, |old(pds)[p][action]|)]
      ensures !error && action != NO_WORK ==>
                var q := old(pds)[p][action]; |items| == (if |q| < 16 then |q| else 16) && items <= q
      ensures !error && action != NO_WORK ==> Extends(old(handed), handed, p, action, items)
      ensures error || action == NO_WORK ==> handed == old(handed)
      ensures !error && action != NO_WORK ==> pds == old(pds)[p := old(pds)[p][action := old(pds)[p][action][|items|..]]]
      ensures !error && action != NO_WORK ==> out == old(out) + [Batch(p, action, items)]
      ensures !error ==> nCritical == Critical(items)
    {
      hide Fifo, Counted, RepliesOk, Extends, Min, Critical;
      EmptyBatch();
      error, action, items, nCritical := false, NO_WORK, [], 0;
      if p !in pds || client != p {
        error := true;
        return;
      }
      var i := 0;
      while i < ACTIONS
        invariant i <= ACTIONS && FirstWork(pds[p], 0) == FirstWork(pds[p], i)
        invariant action == NO_WORK && items == [] && nCritical == 0
      {
        if |pds[p][i]| > 0 {
          action := i;
          items, nCritical := PopWork(p, i);
          break;
        }
        i := i + 1;
      }
    }

    method PopWork(p: PdId, action: nat) returns (items: seq<Work>, nCritical: nat)
      requires Valid() && p in pds && action < ACTIONS && pds[p][action] != []
      modifies this`pds, this`handed, this`out
      ensures Valid()
      ensures items == old(pds)[p][action][..Min(BATCH_MAX, |old(pds)[p][action]|)]
      ensures pds == old(pds)[p := old(pds)[p][action := old(pds)[p][action][|items|..]]]
      ensures out == old(out) + [Batch(p, action, items)]
      ensures var q := old(pds)[p][action]; |items| == (if |q| < 16 then |q| else 16) && items <= q
      ensures Extends(old(handed), handed, p, action, items)
      ensures nCritical == Critical(items)
    {
      hide Fifo, Counted, RepliesOk;
      var n := Min(BATCH_MAX, |pds[p][action]|);
      var queue := pds[p][action];
      items, nCritical := [], 0;
      for j := 0 to n
        invariant items == old(pds)[p][action][..j] && queue == old(pds)[p][action][j..]
        invariant nCritical == Critical(items)
        modifies {}
      {
        CriticalConcat(items, [queue[0]]);
        items := items + [queue[0]];
        nCritical := nCritical + if queue[0].critical then 1 else 0;
        queue := queue[1..];
      }
      PoppedCounts(pds, out, missing, p, action, n, pending);
      FifoPopped(pds, put, handed, p, action, n);
      pds := pds[p := pds[p][action := queue]];
      handed := handed[p := handed[p][action := handed[p][action] + items]];
      out := out + [Batch(p, action, items)];
    }

    /** Whatever a server reports: the counter never goes below zero. */
    method FinishWork(action: nat, nCritical: nat) returns (error: bool, clamped: bool)
      modifies this`missing, this`pending, this`replies
      ensures error <==> !Awaited(action) && action != SEND
      ensures clamped <==> Awaited(action) && old(pending) && nCritical > old(missing)
      ensures missing == if !Awaited(action) || !old(pending) then old(missing)
                         else if clamped then 0 else old(missing) - nCritical
      ensures pending <==> old(pending) && !(Awaited(action) && missing == 0)
      ensures replies == old(replies) + if old(pending) && !pending then [replyTo] else []
    {
      error, clamped := false, false;
      if Awaited(action) {
        if !pending {
          return;
        }
        if nCritical > missing {
          clamped := true;
          missing := 0;
        } else {
          missing := missing - nCritical;
        }
        if missing == 0 {
          pending := false;
          replies := replies + [replyTo];
        }
      } else if action != SEND {
        error := true;
      }
    }

    /** A server reports a batch that it was given: no report is ever clamped. */
    method Report(action: nat, nCritical: nat, ghost i: nat) returns (error: bool, clamped: bool)
      requires Valid() && i < |out| && action == out[i].action && nCritical == Critical(out[i].items)
      requires Awaited(action) || action == SEND
      modifies this`missing, this`pending, this`replies, this`out
      ensures Valid() && !error && !clamped
      ensures out == old(out)[..i] + old(out)[i + 1..]
      ensures missing == old(missing) - nCritical
      ensures replies == old(replies) || replies == old(replies) + [replyTo]
      ensures replies != old(replies) <==> old(pending) && missing == 0 && Awaited(action)
      ensures replies != old(replies) ==> !pending && CriticalQueued(pds) == 0 && CriticalOut(out) == 0
    {
      ReportedCounts(pds, out, missing, i, pending);
      error, clamped := FinishWork(action, nCritical);
      out := out[..i] + out[i + 1..];
    }
  }

  // ===== when nothing is left to wait for =====

  lemma {:induction false} RemovalsOnly(pds: map<PdId, Queues>, script: seq<Effect>)
    ensures var after := AfterAll(pds, script, false);
            forall p :: p in after <==> p in pds && Remove(p) !in script
    ensures var after := AfterAll(pds, script, false);
            forall p :: p in after ==> p in pds && CriticalIn(after[p]) == CriticalIn(pds[p])
    decreases |script|
  {
    if script != [] {
      var init, last := script[..|script| - 1], script[|script| - 1];
      RemovalsOnly(pds, init);
      assert script == init + [last];
      var before := AfterAll(pds, init, false);
      forall p | p in After(before, last, false)
        ensures p in before && CriticalIn(After(before, last, false)[p]) == CriticalIn(before[p])
      {
        match last
        case QueueFree(q, w) => if p == q { CriticalConcat(before[q][FREE], [w.(critical := false)]); }
        case QueueDestroy(q, w) => if p == q { CriticalConcat(before[q][DESTROY], [w.(critical := false)]); }
        case Remove(q) =>
      }
    }
  }

  /** A destruction leaves the work that senders wait for alone, except that of the PDs it removes. */
  lemma {:induction false} SendWorkStays(pds: map<PdId, Queues>, script: seq<Effect>, starting: bool)
    ensures var after := AfterAll(pds, script, starting);
            forall p :: p in after <==> p in pds && Remove(p) !in script
    ensures var after := AfterAll(pds, script, starting);
            forall p :: p in after ==> p in pds && after[p][SEND] == pds[p][SEND]
    decreases |script|
  {
    if script != [] {
      var init, last := script[..|script| - 1], script[|script| - 1];
      SendWorkStays(pds, init, starting);
      assert script == init + [last];
    }
  }

  /** Some server can still take the work that a sender waits for exactly if one that has it queued survives. */
  lemma SenderServedIff(pds: map<PdId, Queues>, script: seq<Effect>, starting: bool)
    ensures var after := AfterAll(pds, script, starting);
            (exists p :: p in after && after[p][SEND] != []) <==>
            (exists p :: p in pds && pds[p][SEND] != [] && Remove(p) !in script)
  {
    SendWorkStays(pds, script, starting);
  }

  lemma QueuedZeroIff(pds: map<PdId, Queues>)
    ensures CriticalQueued(pds) == 0 <==> forall p :: p in pds ==> CriticalIn(pds[p]) == 0
  {
    if CriticalQueued(pds) == 0 {
      forall p | p in pds ensures CriticalIn(pds[p]) == 0 {
        SplitOff(pds, p);
      }
    } else if forall p :: p in pds ==> CriticalIn(pds[p]) == 0 {
      NoneQueued(pds);
    }
  }

  /** The counter after a destruction that no termination request started, from what is known before it. */
  lemma ZeroAfterIff(pds: map<PdId, Queues>, out: seq<Batch>, missing: int, waiting: bool, script: seq<Effect>)
    requires Counted(pds, out, missing, waiting)
    ensures forall later :: Counted(AfterAll(pds, script, false), out, later, waiting) ==>
              (later == 0 <==>
                 CriticalOut(out) == 0 && forall p :: p in pds && CriticalIn(pds[p]) > 0 ==> Remove(p) in script)
  {
    hide AfterAll, CriticalQueued, CriticalOut, CriticalIn;
    RemovalsOnly(pds, script);
    QueuedZeroIff(AfterAll(pds, script, false));
  }

  /** Critical work that was handed out keeps the terminator waiting, whether or not its server lives. */
  lemma HandedOutIsAwaited(pds: map<PdId, Queues>, out: seq<Batch>, missing: int, waiting: bool, i: nat)
    requires Counted(pds, out, missing, waiting) && i < |out| && Critical(out[i].items) > 0
    ensures missing >= Critical(out[i].items) && waiting
  {
    TakenBack(out, i);
  }

  /** PD 1 is terminated, and its server PD 2 takes the critical work. */
  method TakenBatch() returns (s: WorkServer)
    ensures fresh(s) && s.Valid() && s.pending && s.missing == 1
    ensures s.pds == map[2 := NONE_QUEUED] && s.out == [Batch(2, FREE, [Work(7, 1, 1, true)])]
    ensures s.deferred == {0} && s.replies == []
  {
    hide Fifo, RepliesOk, Counted, AfterAll, CriticalQueued, CriticalOut, Critical, FirstWork, Min, Delivered, Extends;
    s := new WorkServer();
    s.AddPd(1);
    s.AddPd(2);
    ScriptOfExample();
    assert s.pds == map[1 := NONE_QUEUED, 2 := NONE_QUEUED];
    var error, shouldReply := s.Terminate(1, [QueueFree(2, Work(7, 1, 1, false))]);
    assert [QueueFree(2, Work(7, 1, 1, false))] + [Remove(1)] == [QueueFree(2, Work(7, 1, 1, false)), Remove(1)];
    OneEntry(Work(7, 1, 1, true));
    var _, action, items, nCritical := s.GetWork(2, 2);
  }

  /** The server dies without reporting: the terminator waits for a report that cannot come. */
  method LostBatch() returns (s: WorkServer)
    ensures fresh(s) && s.Valid() && s.pending && s.missing == 1
    ensures s.pds == map[] && s.out == [Batch(2, FREE, [Work(7, 1, 1, true)])] && s.deferred == {0} && s.replies == []
  {
    hide Fifo, RepliesOk, AfterAll, CriticalQueued, CriticalOut, Critical, Delivered, Extends;
    s := TakenBatch();
    LastPdRemoved();
    s.Disturb([Remove(2)]);
  }

  lemma OneEntry(w: Work)
    ensures var q: Queues := [[], [], [w], []];
            FirstWork(q, 0) == FREE && q[FREE][..Min(BATCH_MAX, |q[FREE]|)] == [w] && q[FREE := q[FREE][1..]] == NONE_QUEUED &&
            Critical([w]) == if w.critical then 1 else 0
  {
    var q: Queues := [[], [], [w], []];
    assert FirstWork(q, 0) == FirstWork(q, 1) == FirstWork(q, 2);
    assert [w][1..] == [];
  }

  lemma LastPdRemoved()
    ensures AfterAll(map[2 := NONE_QUEUED], [Remove(2)], false) == map[] && CriticalQueued(map[]) == 0
    ensures CriticalOut([Batch(2, FREE, [Work(7, 1, 1, true)])]) == 1
  {
    assert [Remove(2)][..0] == [];
    HandedOut([], Batch(2, FREE, [Work(7, 1, 1, true)]));
    OneEntry(Work(7, 1, 1, true));
    assert [] + [Batch(2, FREE, [Work(7, 1, 1, true)])] == [Batch(2, FREE, [Work(7, 1, 1, true)])];
  }

  /** An unanswered terminator is answered by the next report of awaited work, even of work that is not critical. */
  method LateAnswer() returns (s: WorkServer)
    ensures fresh(s) && s.Valid() && !s.pending && s.deferred == {0} && s.replies == [0]
  {
    s := UnansweredTermination();
    hide Fifo, RepliesOk, AfterAll, CriticalQueued, CriticalOut, Critical, Delivered, Extends;
    s.AddPd(3);
    LateScript();
    s.Disturb([QueueFree(3, Work(7, 2, 3, false))]);
    OneEntry(Work(7, 2, 3, false));
    var _, action, items, nCritical := s.GetWork(3, 3);
    var _, _ := s.Report(action, nCritical, 0);
    AnsweredOnce(s.deferred, s.replies, s.requests, s.pending, s.replyTo);
  }

  lemma LateScript()
    ensures var queued: map<PdId, Queues> := map[3 := [[], [], [Work(7, 2, 3, false)], []]];
            AfterAll(map[3 := NONE_QUEUED], [QueueFree(3, Work(7, 2, 3, false))], false) == queued &&
            CriticalQueued(queued) == 0
  {
    var effect := QueueFree(3, Work(7, 2, 3, false));
    assert [effect][..0] == [];
    var none: Queues := NONE_QUEUED;
    assert none[FREE] + [Work(7, 2, 3, false)] == [Work(7, 2, 3, false)];
    var queued: map<PdId, Queues> := map[3 := [[], [], [Work(7, 2, 3, false)], []]];
    assert none[FREE := [Work(7, 2, 3, false)]] == queued[3];
    QueuedZeroIff(queued);
  }

  lemma AnsweredOnce(deferred: set<nat>, replies: seq<nat>, requests: nat, pending: bool, replyTo: nat)
    requires RepliesOk(deferred, replies, requests, pending, replyTo) && !pending && deferred == {0} && |replies| == 1
    ensures replies == [0]
  {
    assert replies[0] in deferred;
  }

  /**
   * Dropping the queues of a dead server does not answer the waiting terminator: PD 1 is terminated,
   * its server PD 2 dies before it takes the critical work, and nothing is left that could report.
   */
  method UnansweredTermination() returns (s: WorkServer)
    ensures fresh(s) && s.Valid() && s.pending && s.missing == 0
    ensures s.pds == map[] && s.out == [] && s.deferred == {0} && s.replies == []
  {
    hide Fifo, RepliesOk, AfterAll, CriticalQueued, CriticalOut, Delivered, Extends;
    s := new WorkServer();
    s.AddPd(1);
    s.AddPd(2);
    ScriptOfExample();
    assert s.pds == map[1 := NONE_QUEUED, 2 := NONE_QUEUED];
    var error, shouldReply := s.Terminate(1, [QueueFree(2, Work(7, 1, 1, false))]);
    assert [QueueFree(2, Work(7, 1, 1, false))] + [Remove(1)] == [QueueFree(2, Work(7, 1, 1, false)), Remove(1)];
    s.Disturb([Remove(2)]);
    ZeroMeansDone(s.pds, s.out, s.missing, s.pending);
  }

  lemma ScriptOfExample()
    ensures var left: map<PdId, Queues> := map[2 := [[], [], [Work(7, 1, 1, true)], []]];
            AfterAll(map[1 := NONE_QUEUED, 2 := NONE_QUEUED], [QueueFree(2, Work(7, 1, 1, false)), Remove(1)], true) == left &&
            AfterAll(left, [Remove(2)], false) == map[] && CriticalQueued(left) == 1
  {
    var first, second, last := QueueFree(2, Work(7, 1, 1, false)), Remove(1), Remove(2);
    assert [first, second][..1] == [first] && [first][..0] == [] && [last][..0] == [];
    var left: map<PdId, Queues> := map[2 := [[], [], [Work(7, 1, 1, true)], []]];
    var start: map<PdId, Queues> := map[1 := NONE_QUEUED, 2 := NONE_QUEUED];
    var none: Queues := NONE_QUEUED;
    assert none[FREE] + [Work(7, 1, 1, true)] == [Work(7, 1, 1, true)];
    assert none[FREE := [Work(7, 1, 1, true)]] == left[2];
    assert AfterAll(start, [first], true) == start[2 := left[2]];
    assert start[2 := left[2]] - {1} == left;
    SplitOff(left, 2);
    assert left - {2} == map[];
  }

  // ===== how the operations change the count =====

  function CriticalBelow(q: Queues, i: nat): nat {
    (if FREE < i then Critical(q[FREE]) else 0) + (if DESTROY < i then Critical(q[DESTROY]) else 0)
  }

  lemma CriticalBelowAll(q: Queues)
    ensures CriticalBelow(q, ACTIONS) == CriticalIn(q)
  {
  }

  lemma RegisteredCounts(pds: map<PdId, Queues>, out: seq<Batch>, missing: int, p: PdId, waiting: bool)
    requires Counted(pds, out, missing, waiting) && p !in pds
    ensures Counted(pds[p := NONE_QUEUED], out, missing, waiting)
  {
    Registered(pds, p);
  }

  lemma ClearedCounts(pds: map<PdId, Queues>, out: seq<Batch>, missing: int, p: PdId, waiting: bool)
    requires Counted(pds, out, missing, waiting) && p in pds
    ensures Counted(pds - {p}, out, missing - CriticalIn(pds[p]), waiting)
  {
    SplitOff(pds, p);
  }

  lemma EmptyBatch()
    ensures Critical([]) == 0
  {
  }

  lemma FifoKeys(pds: map<PdId, Queues>, put: map<PdId, Queues>, handed: map<PdId, Queues>)
    requires Fifo(pds, put, handed)
    ensures put.Keys == pds.Keys == handed.Keys
  {
  }

  lemma FifoRegistered(pds: map<PdId, Queues>, put: map<PdId, Queues>, handed: map<PdId, Queues>, p: PdId)
    requires Fifo(pds, put, handed) && p !in pds
    ensures Fifo(pds[p := NONE_QUEUED], put[p := NONE_QUEUED], handed[p := NONE_QUEUED])
  {
  }

  lemma FifoAppended(pds: map<PdId, Queues>, put: map<PdId, Queues>, handed: map<PdId, Queues>, p: PdId, action: nat, work: Work)
    requires Fifo(pds, put, handed) && p in pds && action < ACTIONS
    ensures p in put
    ensures Fifo(pds[p := pds[p][action := pds[p][action] + [work]]], put[p := put[p][action := put[p][action] + [work]]], handed)
  {
  }

  lemma FifoPopped(pds: map<PdId, Queues>, put: map<PdId, Queues>, handed: map<PdId, Queues>, p: PdId, action: nat, n: nat)
    requires Fifo(pds, put, handed) && p in pds && action < ACTIONS && n <= |pds[p][action]|
    ensures p in handed
    ensures Fifo(pds[p := pds[p][action := pds[p][action][n..]]], put,
                 handed[p := handed[p][action := handed[p][action] + pds[p][action][..n]]])
  {
    assert pds[p][action] == pds[p][action][..n] + pds[p][action][n..];
  }

  lemma FifoCleared(pds: map<PdId, Queues>, put: map<PdId, Queues>, handed: map<PdId, Queues>, p: PdId)
    requires Fifo(pds, put, handed)
    ensures Fifo(pds - {p}, put - {p}, handed - {p})
  {
  }

  lemma AppendedCounts(pds: map<PdId, Queues>, out: seq<Batch>, missing: int, p: PdId, action: nat, work: Work, waiting: bool)
    requires Counted(pds, out, missing, waiting) && p in pds && action < ACTIONS
    requires work.critical ==> waiting && Awaited(action)
    ensures Counted(Appended(pds, p, action, work), out, missing + if work.critical then 1 else 0, waiting)
  {
    CriticalConcat(pds[p][action], [work]);
    Requeued(pds, p, pds[p][action := pds[p][action] + [work]]);
  }

  lemma PoppedCounts(pds: map<PdId, Queues>, out: seq<Batch>, missing: int, p: PdId, action: nat, n: nat, waiting: bool)
    requires Counted(pds, out, missing, waiting) && p in pds && action < ACTIONS && n <= |pds[p][action]|
    ensures Counted(pds[p := pds[p][action := pds[p][action][n..]]],
                    out + [Batch(p, action, pds[p][action][..n])], missing, waiting)
  {
    var q := pds[p][action];
    assert q == q[..n] + q[n..];
    CriticalConcat(q[..n], q[n..]);
    Requeued(pds, p, pds[p][action := q[n..]]);
    HandedOut(out, Batch(p, action, q[..n]));
  }

  lemma ReportedCounts(pds: map<PdId, Queues>, out: seq<Batch>, missing: int, i: nat, waiting: bool)
    requires Counted(pds, out, missing, waiting) && i < |out|
    ensures Critical(out[i].items) <= missing && (!waiting ==> Critical(out[i].items) == 0)
    ensures Counted(pds, out[..i] + out[i + 1..], missing - Critical(out[i].items), waiting)
  {
    TakenBack(out, i);
  }

  lemma NothingAwaited(pds: map<PdId, Queues>, out: seq<Batch>, missing: int, now: map<PdId, Queues>, nowMissing: int)
    requires Counted(pds, out, missing, false) && Counted(now, out, nowMissing, true)
    ensures CriticalOut(out) == 0 && nowMissing == CriticalQueued(now)
    ensures nowMissing == 0 ==> Counted(now, out, nowMissing, false)
  {
  }

  lemma StartingCounts(pds: map<PdId, Queues>, out: seq<Batch>, missing: int)
    requires Counted(pds, out, missing, false)
    ensures Counted(pds, out, missing, true) && missing == 0
  {
  }

  /** A request that is answered at once, and one whose reply is deferred. */
  lemma OneMoreRequest(deferred: set<nat>, replies: seq<nat>, requests: nat, pending: bool, replyTo: nat)
    requires RepliesOk(deferred, replies, requests, pending, replyTo)
    ensures RepliesOk(deferred, replies, requests + 1, pending, replyTo)
    ensures !pending ==> RepliesOk(deferred + {requests}, replies, requests + 1, true, requests)
  {
  }

  lemma SkippedEffect(pds: map<PdId, Queues>, e: Effect, starting: bool)
    ensures e.pd !in pds ==> After(pds, e, starting) == pds
  {
    assert e.pd !in pds ==> pds - {e.pd} == pds;
  }

  lemma OneMoreEffect(pds: map<PdId, Queues>, script: seq<Effect>, p: PdId, starting: bool)
    ensures AfterAll(pds, script + [Remove(p)], starting) == AfterAll(pds, script, starting) - {p}
    ensures p !in AfterAll(pds, script, starting) ==> AfterAll(pds, script, starting) - {p} == AfterAll(pds, script, starting)
  {
    assert (script + [Remove(p)])[..|script|] == script;
  }
}
