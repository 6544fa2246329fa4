/**
 * The delta coalescer: every adapter adds its delta to one pending sum, and
 * only the first enqueue after a flush asks for a flush to be scheduled. Each
 * method body is one critical section of `_wheel_dispatch_lock`, so the
 * model runs them one after another.
 */
module Coalescer {

  function Sum(s: seq<int>): (total: int) {
    if s == [] then 0 else Sum(s[..|s| - 1]) + s[|s| - 1]
  }

  /** The accumulator's fields as one value. */
  datatype WheelQueue = WheelQueue(pending: int, enqueued: nat, flushed: nat, scheduled: bool)

  const Idle := WheelQueue(0, 0, 0, false)

  /** One `_enqueue_wheel_delta`: the new accumulator and whether a flush must be scheduled. */
  function EnqueueStep(q: WheelQueue, delta: int): (r: (WheelQueue, bool))
    ensures delta == 0 ==> r == (q, false)
    ensures delta != 0 ==>
      r.0.pending == q.pending + delta && r.0.enqueued == q.enqueued + 1
      && r.0.flushed == q.flushed && r.0.scheduled && r.1 == !q.scheduled
  {
    if delta == 0 then (q, false)
    else (q.(pending := q.pending + delta, enqueued := q.enqueued + 1, scheduled := true), !q.scheduled)
  }

  /** One `_flush_wheel_delta` critical section: the drained sum and the reset accumulator. */
  function FlushStep(q: WheelQueue): (r: (WheelQueue, int))
    ensures r.1 == q.pending
    ensures r.0 == WheelQueue(0, q.enqueued, q.enqueued, false)
  {
    (WheelQueue(0, q.enqueued, q.enqueued, false), q.pending)
  }

  /** A burst of enqueues: the final accumulator and how many flushes they asked for. */
  function EnqueueAll(q: WheelQueue, deltas: seq<int>): (r: (WheelQueue, nat))
    decreases |deltas|
  {
    if deltas == [] then (q, 0)
    else
      var (q1, asked) := EnqueueStep(q, deltas[0]);
      var (q2, n) := EnqueueAll(q1, deltas[1..]);
      (q2, n + if asked then 1 else 0)
  }

  function NonZeroCount(s: seq<int>): (count: nat) {
    if s == [] then 0 else NonZeroCount(s[1..]) + if s[0] != 0 then 1 else 0
  }

  lemma {:induction false} SumCons(x: int, s: seq<int>)
    ensures Sum([x] + s) == x + Sum(s)
  {
    if s != [] {
      assert ([x] + s)[..|[x] + s| - 1] == [x] + s[..|s| - 1];
      SumCons(x, s[..|s| - 1]);
    }
  }

  /**
   * However long the burst, the accumulator gains exactly the burst's sum,
   * counts its nonzero deltas, keeps `flushed`, and at most one flush is
   * requested: one exactly when none was scheduled and some delta was nonzero.
   */
  lemma {:induction false} BurstConservesSum(q: WheelQueue, deltas: seq<int>)
    ensures var (q', n) := EnqueueAll(q, deltas);
      q'.pending == q.pending + Sum(deltas)
      && q'.enqueued == q.enqueued + NonZeroCount(deltas)
      && q'.flushed == q.flushed
      && q'.scheduled == (q.scheduled || NonZeroCount(deltas) > 0)
      && n == (if !q.scheduled && NonZeroCount(deltas) > 0 then 1 else 0)
    decreases |deltas|
  {
    if deltas != [] {
      var (q1, asked) := EnqueueStep(q, deltas[0]);
      BurstConservesSum(q1, deltas[1..]);
      assert deltas == [deltas[0]] + deltas[1..];
      SumCons(deltas[0], deltas[1..]);
    }
  }

  /** From an idle accumulator, a burst followed by its flush delivers exactly the burst's sum and returns to idle counters. */
  lemma {:induction false} FlushDeliversBurst(q: WheelQueue, deltas: seq<int>)
    requires q.pending == 0 && !q.scheduled && q.flushed == q.enqueued
    ensures var (q', n) := EnqueueAll(q, deltas);
      var (q'', out) := FlushStep(q');
      out == Sum(deltas) && n <= 1 && !q''.scheduled && q''.pending == 0
      && q''.flushed == q''.enqueued == q.enqueued + NonZeroCount(deltas)
  {
    BurstConservesSum(q, deltas);
  }

  class WheelCoalescer {
    /** `_wheel_delta_pending`. */
    var pending: int
    /** `_wheel_enqueued_count`. */
    var enqueued: nat
    /** `_wheel_flushed_count`. */
    var flushed: nat
    /** `_wheel_flush_scheduled`. */
    var scheduled: bool
    /** The nonzero deltas accepted since the last flush. */
    ghost var sinceFlush: seq<int>

    ghost predicate Valid()
      reads this
    {
      flushed <= enqueued
      && pending == Sum(sinceFlush)
      && enqueued - flushed == |sinceFlush|
      && (scheduled <==> sinceFlush != [])
      && forall k :: 0 <= k < |sinceFlush| ==> sinceFlush[k] != 0
    }

    function State(): (q: WheelQueue)
      reads this
    {
      WheelQueue(pending, enqueued, flushed, scheduled)
    }

    constructor ()
      ensures Valid() && State() == Idle && sinceFlush == []
    {
      pending, enqueued, flushed, scheduled := 0, 0, 0, false;
      sinceFlush := [];
    }

    /** `_enqueue_wheel_delta`; the result says whether the caller must schedule a flush. */
    method Enqueue(delta: int) returns (shouldSchedule: bool)
      requires Valid()
      modifies this
      ensures Valid()
      ensures (State(), shouldSchedule) == EnqueueStep(old(State()), delta)
      ensures sinceFlush == if delta == 0 then old(sinceFlush) else old(sinceFlush) + [delta]
    {
      if delta == 0 {
        return false;
      }
      shouldSchedule := false;
      pending := pending + delta;
      enqueued := enqueued + 1;
      if !scheduled {
        scheduled := true;
        shouldSchedule := true;
      }
      sinceFlush := sinceFlush + [delta];
    }

    /** `_flush_wheel_delta`'s critical section: drain everything enqueued since the last flush. */
    method Flush() returns (delta: int)
      requires Valid()
      modifies this
      ensures Valid()
      ensures delta == Sum(old(sinceFlush))
      ensures (State(), delta) == FlushStep(old(State()))
      ensures sinceFlush == []
    {
      delta := pending;
      pending := 0;
      flushed := enqueued;
      scheduled := false;
      sinceFlush := [];
    }
  }
}
