/** The queue of software timers (kernel/timer.c). Times are unbounded numbers of milliseconds. */
module KernelTimer {

  /** Whose handler a timer calls: the end of a sleep, the timeout of a wait, or any other. */
  datatype Callback = SleepHandler | TimeoutHandler | OtherHandler

  /** Stands for a timer's address: the timer on a thread's stack, or one of anybody else. */
  datatype TimerId = OfThread(tid: nat) | Driver(n: nat)

  datatype Timer = Timer(id: TimerId, sched: nat, period: nat, callback: Callback)

  /** A delay or period of 0 counts as 1. */
  function AtLeastOne(d: nat): nat { if d == 0 then 1 else d }

  ghost predicate Sorted(q: seq<Timer>) {
    forall i, j :: 0 <= i < j < |q| ==> q[i].sched <= q[j].sched
  }

  /** In front of the first later timer, so behind all timers that are due no later. */
  function Inserted(q: seq<Timer>, t: Timer): (r: seq<Timer>)
    ensures |r| == |q| + 1
  {
    if q == [] then [t]
    else if q[0].sched > t.sched then [t] + q
    else [q[0]] + Inserted(q[1..], t)
  }

  lemma {:induction false} InsertedMembers(q: seq<Timer>, t: Timer)
    ensures forall x :: x in Inserted(q, t) <==> x == t || x in q
  {
    if q != [] && q[0].sched <= t.sched {
      InsertedMembers(q[1..], t);
      assert q == [q[0]] + q[1..];
    }
  }

  lemma SortedTail(q: seq<Timer>)
    requires Sorted(q) && q != []
    ensures Sorted(q[1..]) && forall x <- q[1..] :: q[0].sched <= x.sched
  {
    assert forall i :: 0 <= i < |q[1..]| ==> q[1..][i] == q[i + 1];
  }

  lemma SortedCons(t: Timer, q: seq<Timer>)
    requires Sorted(q) && forall x <- q :: t.sched <= x.sched
    ensures Sorted([t] + q)
  {
    assert forall i :: 0 <= i < |q| ==> q[i] in q;
  }

  lemma {:induction false} InsertedSorted(q: seq<Timer>, t: Timer)
    requires Sorted(q)
    ensures Sorted(Inserted(q, t))
  {
    if q != [] {
      SortedTail(q);
      if q[0].sched <= t.sched {
        InsertedSorted(q[1..], t);
        InsertedMembers(q[1..], t);
        SortedCons(q[0], Inserted(q[1..], t));
      } else {
        SortedCons(t, q);
      }
    }
  }

  /** First come, first served among equal times: the new timer stands behind every timer that is
      due no later, in front of every later one, and the others keep their order. */
  lemma {:induction false} InsertedStable(q: seq<Timer>, t: Timer) returns (k: nat)
    requires Sorted(q)
    ensures k <= |q| && Inserted(q, t) == q[..k] + [t] + q[k..]
    ensures forall i :: 0 <= i < |q| ==> (i < k <==> q[i].sched <= t.sched)
  {
    if q == [] || q[0].sched > t.sched {
      k := 0;
    } else {
      k := InsertedStable(q[1..], t);
      assert q == [q[0]] + q[1..];
      assert q[..k + 1] == [q[0]] + q[1..][..k] && q[k + 1..] == q[1..][k..];
      assert forall i :: 1 <= i < |q| ==> q[i] == q[1..][i - 1];
      k := k + 1;
    }
  }

  // ---------------------------------------------------------------- one timer per owner

  ghost predicate DistinctIds(ts: seq<Timer>) { forall i, j :: 0 <= i < j < |ts| ==> ts[i].id != ts[j].id }

  /** timer_cancel: the queue without a timer. */
  function Without(ts: seq<Timer>, t: TimerId): seq<Timer> {
    if ts == [] then [] else (if ts[0].id == t then [] else [ts[0]]) + Without(ts[1..], t)
  }

  lemma {:induction false} WithoutMembers(ts: seq<Timer>, t: TimerId)
    ensures forall x :: x in Without(ts, t) <==> x in ts && x.id != t
  {
    if ts != [] {
      WithoutMembers(ts[1..], t);
      assert ts == [ts[0]] + ts[1..];
    }
  }

  lemma DistinctTail(ts: seq<Timer>)
    requires DistinctIds(ts) && ts != []
    ensures DistinctIds(ts[1..]) && forall x <- ts[1..] :: x.id != ts[0].id
  {
    assert forall i :: 0 <= i < |ts[1..]| ==> ts[1..][i] == ts[i + 1];
  }

  lemma DistinctCons(t: Timer, ts: seq<Timer>)
    requires DistinctIds(ts) && forall x <- ts :: x.id != t.id
    ensures DistinctIds([t] + ts)
  {
    assert forall i :: 0 <= i < |ts| ==> ts[i] in ts;
  }

  lemma {:induction false} WithoutStaysSorted(ts: seq<Timer>, t: TimerId)
    requires Sorted(ts)
    ensures Sorted(Without(ts, t))
  {
    if ts != [] {
      SortedTail(ts);
      WithoutStaysSorted(ts[1..], t);
      WithoutMembers(ts[1..], t);
      if ts[0].id == t {
        assert [] + Without(ts[1..], t) == Without(ts[1..], t);
      } else {
        SortedCons(ts[0], Without(ts[1..], t));
      }
    }
  }

  lemma {:induction false} WithoutStaysDistinct(ts: seq<Timer>, t: TimerId)
    requires DistinctIds(ts)
    ensures DistinctIds(Without(ts, t))
  {
    if ts != [] {
      DistinctTail(ts);
      WithoutStaysDistinct(ts[1..], t);
      WithoutMembers(ts[1..], t);
      if ts[0].id == t {
        assert [] + Without(ts[1..], t) == Without(ts[1..], t);
      } else {
        DistinctCons(ts[0], Without(ts[1..], t));
      }
    }
  }

  lemma DistinctFrom(ts: seq<Timer>, i: nat)
    requires DistinctIds(ts) && i < |ts|
    ensures forall x <- ts[i + 1..] :: x.id != ts[i].id
  {
    var rest := ts[i + 1..];
    forall j | 0 <= j < |rest| ensures rest[j].id != ts[i].id { assert rest[j] == ts[i + 1 + j]; }
  }

  lemma {:induction false} NothingWithout(ts: seq<Timer>, t: TimerId)
    requires forall x <- ts :: x.id != t
    ensures Without(ts, t) == ts
  {
    if ts != [] {
      NothingWithout(ts[1..], t);
      assert ts == [ts[0]] + ts[1..];
    }
  }

  lemma {:induction false} WithoutStep(ts: seq<Timer>, t: TimerId, i: nat)
    requires DistinctIds(ts) && i < |ts|
    ensures ts[i].id == t ==> Without(ts[i..], t) == ts[i + 1..]
    ensures ts[i].id != t ==> ts[..i] + Without(ts[i..], t) == ts[..i + 1] + Without(ts[i + 1..], t)
  {
    var rest := ts[i + 1..];
    assert ts[i..][1..] == rest;
    if ts[i].id == t {
      DistinctFrom(ts, i);
      NothingWithout(rest, t);
      assert [] + Without(rest, t) == rest;
    } else {
      assert ts[..i + 1] + Without(rest, t) == ts[..i] + ([ts[i]] + Without(rest, t));
    }
  }

  lemma {:induction false} InsertedDistinct(ts: seq<Timer>, x: Timer)
    requires DistinctIds(ts) && forall p <- ts :: p.id != x.id
    ensures DistinctIds(Inserted(ts, x))
  {
    if ts == [] || ts[0].sched > x.sched {
      DistinctCons(x, ts);
    } else {
      DistinctTail(ts);
      assert forall p <- ts[1..] :: p in ts;
      InsertedDistinct(ts[1..], x);
      InsertedMembers(ts[1..], x);
      DistinctCons(ts[0], Inserted(ts[1..], x));
    }
  }

  // ---------------------------------------------------------------- the queue

  class TimerQueue {
    var queue: seq<Timer>

    constructor ()
      ensures queue == []
    {
      queue := [];
    }

    /** insert_timer_in_queue. */
    method Insert(t: Timer)
      modifies this
      ensures queue == Inserted(old(queue), t)
    {
      var i := 0;
      while i < |queue|
        invariant i <= |queue| && queue == old(queue)
        invariant Inserted(queue, t) == queue[..i] + Inserted(queue[i..], t)
      {
        if queue[i].sched > t.sched {
          queue := queue[..i] + [t] + queue[i..];
          return;
        }
        assert queue[i..][1..] == queue[i + 1..];
        assert queue[..i] + ([queue[i]] + Inserted(queue[i + 1..], t)) == queue[..i + 1] + Inserted(queue[i + 1..], t);
        i := i + 1;
      }
      assert queue[..i] == queue;
      queue := queue + [t];
    }

    /** timer_set_oneshot and timer_set_periodic at time `now`; the timer must not be queued. */
    method SetOneshot(id: TimerId, delay: nat, callback: Callback, now: nat)
      requires Sorted(queue) && forall x <- queue :: x.id != id
      modifies this
      ensures var d := if delay == 0 then 1 else delay;
        queue == Inserted(old(queue), Timer(id, now + d, 0, callback))
      ensures Sorted(queue)
    {
      var d := if delay == 0 then 1 else delay;
      InsertedSorted(queue, Timer(id, now + d, 0, callback));
      Insert(Timer(id, now + d, 0, callback));
    }

    method SetPeriodic(id: TimerId, period: nat, callback: Callback, now: nat)
      requires Sorted(queue) && forall x <- queue :: x.id != id
      modifies this
      ensures var p := if period == 0 then 1 else period;
        queue == Inserted(old(queue), Timer(id, now + p, p, callback))
      ensures Sorted(queue)
    {
      var p := if period == 0 then 1 else period;
      InsertedSorted(queue, Timer(id, now + p, p, callback));
      Insert(Timer(id, now + p, p, callback));
    }

    /** timer_cancel; a timer that is not queued stays so. */
    method Cancel(id: TimerId)
      requires DistinctIds(queue)
      modifies this
      ensures queue == Without(old(queue), id)
    {
      var i := 0;
      while i < |queue|
        invariant i <= |queue| && queue == old(queue)
        invariant Without(queue, id) == queue[..i] + Without(queue[i..], id)
      {
        WithoutStep(queue, id, i);
        if queue[i].id == id {
          queue := queue[..i] + queue[i + 1..];
          return;
        }
        i := i + 1;
      }
      assert queue[..i] == queue;
    }

    /** list_delete of the first timer. */
    method TakeFirst() returns (t: Timer)
      requires queue != []
      modifies this
      ensures t == old(queue)[0] && queue == old(queue)[1..]
    {
      t := queue[0];
      queue := queue[1..];
    }

    /** list_in_list of a timer's node. */
    method IsQueued(id: TimerId) returns (b: bool)
      ensures b <==> Queued(queue, id)
    {
      b := false;
      for i := 0 to |queue|
        invariant b <==> Queued(queue[..i], id)
      {
        QueuedOneMore(queue[..i], queue[i], id);
        assert queue[..i + 1] == queue[..i] + [queue[i]];
        if queue[i].id == id { b := true; }
      }
      assert queue[..|queue|] == queue;
    }
  }

  predicate Queued(q: seq<Timer>, id: TimerId) { exists x <- q :: x.id == id }

  lemma QueuedOneMore(q: seq<Timer>, x: Timer, id: TimerId)
    ensures Queued(q + [x], id) <==> Queued(q, id) || x.id == id
  {
    assert x in q + [x];
    assert forall y :: y in q + [x] <==> y in q || y == x;
  }
}
