/** The process-wide helpers of delegation delivery: the bounded memory of local claims, the one
    shared restore sweep, and the set of reserved admission slots. */
module DeliveryRetry {
  import opened Options

  type DelegationId = string

  const DEDUPE_MAX := 1024
  const ROUTING_RETRY_SECONDS := 5.0

  // ---- Local claims ----

  /** What happened to the memory: a claim was accepted, or a claim was released. */
  datatype Happened = Accepted(id: DelegationId) | Released(id: DelegationId)

  function Without(ids: seq<DelegationId>, id: DelegationId): seq<DelegationId> {
    if ids == [] then [] else (if ids[0] == id then [] else [ids[0]]) + Without(ids[1..], id)
  }

  /** The remembered ids, oldest first. */
  function Remembered(log: seq<Happened>): seq<DelegationId> {
    if log == [] then []
    else
      var before := Remembered(log[..|log| - 1]);
      match log[|log| - 1]
      case Released(id) => Without(before, id)
      case Accepted(id) => Newest(before + [id])
  }

  /** The newest ids, as many as are remembered. */
  function Newest(ids: seq<DelegationId>): seq<DelegationId> {
    if |ids| > DEDUPE_MAX then ids[|ids| - DEDUPE_MAX..] else ids
  }

  lemma NewestKeeps(ids: seq<DelegationId>, other: DelegationId, id: DelegationId, n: nat)
    requires AmongNewest(ids, id, n) && n < DEDUPE_MAX
    ensures AmongNewest(Newest(ids + [other]), id, n + 1)
  {
    var i :| 0 <= i < |ids| && ids[i] == id && |ids| - i <= n;
    var (all, kept) := (ids + [other], Newest(ids + [other]));
    assert all[i] == id && kept[|kept| - |all| + i] == id;
  }

  lemma NewestIsLast(ids: seq<DelegationId>, id: DelegationId)
    ensures AmongNewest(Newest(ids + [id]), id, 1)
  {
    var kept := Newest(ids + [id]);
    assert kept[|kept| - 1] == id;
  }

  lemma {:induction false} WithoutMembers(ids: seq<DelegationId>, id: DelegationId)
    ensures |Without(ids, id)| <= |ids|
    ensures forall x :: x in Without(ids, id) <==> x in ids && x != id
    ensures id !in ids ==> Without(ids, id) == ids
    decreases |ids|
  {
    if ids != [] {
      WithoutMembers(ids[1..], id);
      assert ids == [ids[0]] + ids[1..];
    }
  }

  predicate Differ(ids: seq<DelegationId>) {
    forall i, j | 0 <= i < j < |ids| :: ids[i] != ids[j]
  }

  lemma {:induction false} WithoutDiffer(ids: seq<DelegationId>, id: DelegationId)
    requires Differ(ids)
    ensures Differ(Without(ids, id))
    decreases |ids|
  {
    if ids != [] {
      WithoutDiffer(ids[1..], id);
      WithoutMembers(ids[1..], id);
      forall k | 0 <= k < |Without(ids[1..], id)| ensures Without(ids[1..], id)[k] != ids[0] {
        assert Without(ids[1..], id)[k] in ids[1..];
      }
    }
  }

  /** Later accepted claims of other ids. */
  function AcceptedCount(log: seq<Happened>): nat {
    if log == [] then 0 else AcceptedCount(log[..|log| - 1]) + if log[|log| - 1].Accepted? then 1 else 0
  }

  /** Position of `id` from the newest end is at most `n`. */
  predicate AmongNewest(ids: seq<DelegationId>, id: DelegationId, n: nat) {
    exists i :: 0 <= i < |ids| && ids[i] == id && |ids| - i <= n
  }

  lemma {:induction false} WithoutNewest(ids: seq<DelegationId>, other: DelegationId, id: DelegationId, n: nat)
    requires id != other && AmongNewest(ids, id, n)
    ensures AmongNewest(Without(ids, other), id, n)
    decreases |ids|
  {
    var i :| 0 <= i < |ids| && ids[i] == id && |ids| - i <= n;
    var rest := Without(ids[1..], other);
    WithoutMembers(ids[1..], other);
    if i == 0 {
      assert Without(ids, other)[0] == id;
    } else {
      assert ids[1..][i - 1] == id;
      WithoutNewest(ids[1..], other, id, n);
      var j :| 0 <= j < |rest| && rest[j] == id && |rest| - j <= n;
      var all := Without(ids, other);
      assert all[|all| - |rest| + j] == id;
    }
  }

  /** An accepted claim stays remembered, and so refused, until it is released or 1024 others were
      accepted after it. */
  lemma {:induction false} ClaimIsRemembered(log: seq<Happened>, id: DelegationId, later: seq<Happened>)
    requires AcceptedCount(later) < DEDUPE_MAX && Released(id) !in later
    ensures AmongNewest(Remembered(log + [Accepted(id)] + later), id, AcceptedCount(later) + 1)
    decreases |later|
  {
    hide *;
    var start := log + [Accepted(id)];
    if later == [] {
      assert start + later == start;
      NothingAccepted();
      RememberedNext(log, Accepted(id));
      NewestIsLast(Remembered(log), id);
    } else {
      var (before, last) := (later[..|later| - 1], later[|later| - 1]);
      assert later == before + [last];
      assert start + later == (start + before) + [last];
      AcceptedNext(before, last);
      RememberedNext(start + before, last);
      ClaimIsRemembered(log, id, before);
      if last.Released? {
        WithoutNewest(Remembered(start + before), last.id, id, AcceptedCount(before) + 1);
      } else {
        NewestKeeps(Remembered(start + before), last.id, id, AcceptedCount(before) + 1);
      }
    }
  }

  lemma RememberedNext(log: seq<Happened>, h: Happened)
    ensures Remembered(log + [h]) ==
      if h.Released? then Without(Remembered(log), h.id) else Newest(Remembered(log) + [h.id])
  {
    hide Without, Newest;
    assert (log + [h])[..|log|] == log;
  }

  lemma AcceptedNext(log: seq<Happened>, h: Happened)
    ensures AcceptedCount(log + [h]) == AcceptedCount(log) + if h.Accepted? then 1 else 0
  {
    assert (log + [h])[..|log|] == log;
  }

  lemma NothingAccepted()
    ensures AcceptedCount([]) == 0
  {
  }

  class LocalClaims {
    var ids: seq<DelegationId>      // in the order they were accepted
    ghost var log: seq<Happened>

    ghost predicate Valid()
      reads this
    {
      ids == Remembered(log) && Differ(ids) && |ids| <= DEDUPE_MAX
    }

    constructor ()
      ensures Valid() && ids == [] && log == []
    {
      ids, log := [], [];
    }

    /** Accepts a claim unless its id is remembered; forgets the oldest ids above the bound. */
    method Claim(id: DelegationId) returns (accepted: bool)
      requires Valid()
      modifies this
      ensures Valid()
      ensures accepted <==> id !in old(ids)
      ensures log == if accepted then old(log) + [Accepted(id)] else old(log)
      ensures accepted ==> id in ids
    {
      if id in ids {
        return false;
      }
      ghost var before := ids;
      assert (log + [Accepted(id)])[..|log|] == log;
      ids := ids + [id];
      log := log + [Accepted(id)];
      while |ids| > DEDUPE_MAX
        modifies `ids
        invariant |ids| >= 1 && ids[|ids| - 1] == id
        invariant ids == (before + [id])[|before| + 1 - |ids|..]
        invariant |before| + 1 <= DEDUPE_MAX ==> ids == before + [id]
        invariant |before| + 1 > DEDUPE_MAX ==> |ids| >= DEDUPE_MAX
      {
        ids := ids[1..];
      }
      return true;
    }

    /** Forgets a claim, so that it can be made again. */
    method Release(id: DelegationId)
      requires Valid()
      modifies this
      ensures Valid()
      ensures id !in ids && forall x | x != id :: x in ids <==> x in old(ids)
      ensures log == old(log) + [Released(id)]
    {
      WithoutMembers(ids, id);
      WithoutDiffer(ids, id);
      assert (log + [Released(id)])[..|log|] == log;
      ids := Without(ids, id);
      log := log + [Released(id)];
    }
  }

  // ---- The restore sweep ----

  /** The earliest of the requested deadlines. */
  function Earliest(deadlines: seq<real>): real
    requires deadlines != []
  {
    var last := deadlines[|deadlines| - 1];
    if |deadlines| == 1 then last
    else
      var rest := Earliest(deadlines[..|deadlines| - 1]);
      if last < rest then last else rest
  }

  lemma {:induction false} EarliestBounds(deadlines: seq<real>, i: nat)
    requires i < |deadlines|
    ensures Earliest(deadlines) <= deadlines[i] && Earliest(deadlines) in deadlines
    decreases |deadlines|
  {
    var before := deadlines[..|deadlines| - 1];
    if i < |before| {
      EarliestBounds(before, i);
    } else if before != [] {
      EarliestBounds(before, 0);
    }
    assert deadlines == before + [deadlines[|deadlines| - 1]];
  }

  /** A timer thread that was started: which generation it belongs to and when it runs. */
  datatype Timer = Timer(generation: nat, deadline: real)

  class RestoreSweep {
    var timer: Option<Timer>
    var generation: nat
    ghost var requests: seq<real>     // deadlines asked for since the last sweep
    ghost var unfired: set<nat>       // generations whose timer thread has not run yet, cancelled or not

    /** One timer at most, at the earliest deadline anybody asked for since the last sweep. */
    ghost predicate Valid()
      reads this
    {
      && (timer.None? <==> requests == [])
      && (timer.Some? ==> timer.value.generation == generation && timer.value.deadline == Earliest(requests))
      && (generation in unfired <==> timer.Some?)
      && (forall g | g in unfired :: g <= generation)
    }

    constructor ()
      ensures Valid() && timer.None?
    {
      timer, generation, requests, unfired := None, 0, [], {};
    }

    /** Asks for a sweep after `delay`; a sweep that is due no later already serves. */
    method Arm(now: real, delay: real)
      requires Valid()
      modifies this
      ensures Valid()
      ensures requests == old(requests) + [now + if delay > 0.0 then delay else 0.0]
      ensures timer.Some? && timer.value.deadline <= now + (if delay > 0.0 then delay else 0.0)
      ensures old(timer).Some? ==> timer.value.deadline <= old(timer).value.deadline
      ensures timer == old(timer) || timer.value.generation == old(generation) + 1 == generation
      ensures unfired == old(unfired) + {generation}
    {
      var retryDelay := if delay > 0.0 then delay else 0.0;
      var deadline := now + retryDelay;
      assert (requests + [deadline])[..|requests|] == requests;
      requests := requests + [deadline];
      if timer.Some? && deadline >= timer.value.deadline {
        return;
      }
      generation := generation + 1;
      timer := Some(Timer(generation, deadline));
      unfired := unfired + {generation};
    }

    /** A timer thread runs: a stale one changes nothing, the current one takes all requests and
        sweeps; a failed sweep asks for another one. */
    method Fire(mine: nat, now: real, fails: bool) returns (swept: bool)
      requires Valid() && mine in unfired
      modifies this
      ensures Valid()
      ensures swept <==> mine == old(generation)
      ensures !swept ==> timer == old(timer) && requests == old(requests) && generation == old(generation)
      ensures swept ==> requests == if fails then [now + ROUTING_RETRY_SECONDS] else []
      ensures mine !in unfired
    {
      unfired := unfired - {mine};
      if mine != generation {
        return false;
      }
      timer, requests := None, [];
      if fails {
        Arm(now, ROUTING_RETRY_SECONDS);
      }
      return true;
    }
  }

  // ---- Admission slots ----

  class AdmissionSlots {
    var inflight: set<string>

    constructor ()
      ensures inflight == {}
    {
      inflight := {};
    }

    /** Reserves the slot of a session, for one caller at a time. */
    method TryReserve(sid: string) returns (reserved: bool)
      modifies this
      ensures reserved <==> sid !in old(inflight)
      ensures inflight == old(inflight) + {sid}
    {
      if sid in inflight {
        return false;
      }
      inflight := inflight + {sid};
      return true;
    }

    method Release(sid: string)
      modifies this
      ensures inflight == old(inflight) - {sid}
    {
      inflight := inflight - {sid};
    }
  }
}
