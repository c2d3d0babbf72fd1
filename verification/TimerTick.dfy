/** The tick that fires timers (timer_tick of kernel/timer.c). A callback may cancel any timer, also one
    that is due, and set any timer that is not queued; what it sets is never due in the same tick. */
module KernelTimerTick {
  import opened KernelTimer

  /** timer_cancel, and timer_set_oneshot or timer_set_periodic. */
  datatype Action = Cancel(id: TimerId) | Set(id: TimerId, delay: nat, periodic: bool)

  /** What the callback of each timer does, in this order. */
  type Callbacks = TimerId -> seq<Action>

  function TimerOf(a: Action, now: nat): Timer
    requires a.Set?
  {
    Timer(a.id, now + AtLeastOne(a.delay), if a.periodic then AtLeastOne(a.delay) else 0, OtherHandler)
  }

  /** timer_set asserts that the timer is not queued; if it is, nothing is done here. */
  function Perform(q: seq<Timer>, a: Action, now: nat): seq<Timer> {
    match a
    case Cancel(id) => Without(q, id)
    case Set(id, _, _) => if Queued(q, id) then q else Inserted(q, TimerOf(a, now))
  }

  function PerformAll(q: seq<Timer>, acts: seq<Action>, now: nat): seq<Timer>
    decreases |acts|
  {
    if acts == [] then q else PerformAll(Perform(q, acts[0], now), acts[1..], now)
  }

  predicate Mentions(acts: seq<Action>, id: TimerId) { exists a <- acts :: a.id == id }

  predicate Cancels(acts: seq<Action>, id: TimerId) { Action.Cancel(id) in acts }

  /** The timer as it is queued again. */
  function Again(t: Timer, now: nat): Timer { t.(sched := now + t.period) }

  /** The queue after the callback of `t`, which has left it: a periodic timer whose callback has
      neither cancelled it nor set it anew is queued again. */
  function AfterFire(q: seq<Timer>, t: Timer, acts: seq<Action>, now: nat): seq<Timer> {
    var q1 := PerformAll(q, acts, now);
    if t.period > 0 && !Mentions(acts, t.id) then Inserted(q1, Again(t, now)) else q1
  }

  // ---------------------------------------------------------------- what is due

  /** The due timers, in the order of the queue. */
  function Due(q: seq<Timer>, now: nat): seq<Timer> {
    if q == [] then [] else (if q[0].sched <= now then [q[0]] else []) + Due(q[1..], now)
  }

  /** In a sorted queue the due timers stand in front. */
  lemma {:induction false} DueIsPrefix(q: seq<Timer>, now: nat)
    requires Sorted(q)
    ensures |Due(q, now)| <= |q| && Due(q, now) == q[..|Due(q, now)|]
    ensures forall x <- q[|Due(q, now)|..] :: x.sched > now
  {
    if q != [] {
      SortedTail(q);
      DueIsPrefix(q[1..], now);
      if q[0].sched <= now {
        assert q[1..][|Due(q[1..], now)|..] == q[|Due(q, now)|..];
      } else {
        NothingDue(q[1..], now);
        assert forall x <- q :: x == q[0] || x in q[1..];
      }
    }
  }

  lemma {:induction false} NothingDue(q: seq<Timer>, now: nat)
    requires forall x <- q :: x.sched > now
    ensures Due(q, now) == []
  {
    if q != [] { NothingDue(q[1..], now); }
  }

  lemma {:induction false} DueWithout(q: seq<Timer>, id: TimerId, now: nat)
    ensures Due(Without(q, id), now) == Without(Due(q, now), id)
  {
    if q != [] {
      DueWithout(q[1..], id, now);
      var w, d := Without(q[1..], id), Due(q[1..], now);
      if q[0].id == id {
        assert [] + w == w;
        if q[0].sched <= now {
          assert ([q[0]] + d)[1..] == d && [] + Without(d, id) == Without(d, id);
        } else {
          assert [] + d == d;
        }
      } else {
        assert ([q[0]] + w)[1..] == w;
        if q[0].sched <= now {
          assert ([q[0]] + d)[1..] == d;
        } else {
          assert [] + d == d && [] + Due(w, now) == Due(w, now);
        }
      }
    }
  }

  lemma {:induction false} DueInserted(q: seq<Timer>, t: Timer, now: nat)
    requires t.sched > now
    ensures Due(Inserted(q, t), now) == Due(q, now)
  {
    if q == [] || q[0].sched > t.sched {
      assert ([t] + q)[1..] == q && [] + Due(q, now) == Due(q, now);
    } else {
      DueInserted(q[1..], t, now);
      assert ([q[0]] + Inserted(q[1..], t))[1..] == Inserted(q[1..], t);
    }
  }

  /** Those of the timers that the actions do not cancel. */
  function Spared(ts: seq<Timer>, acts: seq<Action>): (r: seq<Timer>)
    ensures |r| <= |ts|
  {
    if ts == [] then [] else (if Cancels(acts, ts[0].id) then [] else [ts[0]]) + Spared(ts[1..], acts)
  }

  /** Cancelling one timer and then sparing what the rest of the actions spares. */
  lemma {:induction false} SparedStep(ts: seq<Timer>, acts: seq<Action>)
    requires acts != []
    ensures Spared(ts, acts) == Spared(if acts[0].Cancel? then Without(ts, acts[0].id) else ts, acts[1..])
  {
    assert acts == [acts[0]] + acts[1..];
    if ts != [] {
      var rest := ts[1..];
      SparedStep(rest, acts);
      if acts[0].Cancel? {
        var w := Without(rest, acts[0].id);
        if ts[0].id == acts[0].id {
          assert Cancels(acts, ts[0].id) && [] + w == w && [] + Spared(rest, acts) == Spared(rest, acts);
        } else {
          assert Cancels(acts, ts[0].id) <==> Cancels(acts[1..], ts[0].id);
          assert ([ts[0]] + w)[1..] == w;
        }
      } else {
        assert Cancels(acts, ts[0].id) <==> Cancels(acts[1..], ts[0].id);
      }
    }
  }

  lemma {:induction false} DuePerformed(q: seq<Timer>, acts: seq<Action>, now: nat)
    ensures Due(PerformAll(q, acts, now), now) == Spared(Due(q, now), acts)
    decreases |acts|
  {
    if acts == [] {
      SparedAll(Due(q, now));
    } else {
      var q1 := Perform(q, acts[0], now);
      DuePerformed(q1, acts[1..], now);
      SparedStep(Due(q, now), acts);
      match acts[0]
      case Cancel(id) => DueWithout(q, id, now);
      case Set(id, _, _) => if !Queued(q, id) { DueInserted(q, TimerOf(acts[0], now), now); }
    }
  }

  lemma {:induction false} SparedAll(ts: seq<Timer>)
    ensures Spared(ts, []) == ts
  {
    if ts != [] {
      SparedAll(ts[1..]);
      assert ts == [ts[0]] + ts[1..];
    }
  }

  /** A callback takes from the due timers those that it cancels, and adds none. */
  lemma {:induction false} DueAfterFire(q: seq<Timer>, t: Timer, acts: seq<Action>, now: nat)
    ensures Due(AfterFire(q, t, acts, now), now) == Spared(Due(q, now), acts)
  {
    DuePerformed(q, acts, now);
    if t.period > 0 && !Mentions(acts, t.id) { DueInserted(PerformAll(q, acts, now), Again(t, now), now); }
  }

  // ---------------------------------------------------------------- the loop

  /** The loop of timer_tick: the timers it fires and the queue it leaves. */
  function FireAll(q: seq<Timer>, react: Callbacks, now: nat): (seq<Timer>, seq<Timer>)
    decreases |Due(q, now)|
  {
    if q == [] || q[0].sched > now then ([], q)
    else
      DueAfterFire(q[1..], q[0], react(q[0].id), now);
      var (fired, rest) := FireAll(AfterFire(q[1..], q[0], react(q[0].id), now), react, now);
      ([q[0]] + fired, rest)
  }

  /** Of the due timers, in order, those that no callback before them cancels. */
  function Survivors(due: seq<Timer>, react: Callbacks): seq<Timer>
    decreases |due|
  {
    if due == [] then [] else [due[0]] + Survivors(Spared(due[1..], react(due[0].id)), react)
  }

  /** A tick fires exactly the due timers that are not cancelled before their turn, each once and in
      the order of the queue. */
  lemma {:induction false} FiresSurvivors(q: seq<Timer>, react: Callbacks, now: nat)
    requires Sorted(q)
    ensures FireAll(q, react, now).0 == Survivors(Due(q, now), react)
    decreases |Due(q, now)|
  {
    if q == [] {
    } else if q[0].sched > now {
      SortedTail(q);
      NothingDue(q[1..], now);
    } else {
      var acts := react(q[0].id);
      var q1 := AfterFire(q[1..], q[0], acts, now);
      SortedTail(q);
      DueAfterFire(q[1..], q[0], acts, now);
      AfterFireSorted(q[1..], q[0], acts, now);
      FiresSurvivors(q1, react, now);
      assert Due(q, now)[1..] == Due(q[1..], now);
    }
  }

  /** No callback of a due timer cancels one behind it. */
  ghost predicate NoneCancelled(due: seq<Timer>, react: Callbacks) {
    forall i, j :: 0 <= i < j < |due| ==> !Cancels(react(due[i].id), due[j].id)
  }

  /** All due timers fire exactly if none is cancelled by one in front of it. */
  lemma {:induction false} AllSurviveExactlyWhen(due: seq<Timer>, react: Callbacks)
    ensures |Survivors(due, react)| <= |due|
    ensures Survivors(due, react) == due <==> NoneCancelled(due, react)
    decreases |due|
  {
    if due != [] {
      var rest, spared := due[1..], Spared(due[1..], react(due[0].id));
      AllSurviveExactlyWhen(spared, react);
      SparedNoneExactlyWhen(rest, react(due[0].id));
      FirstAndRest(due, react);
      SameBehindFirst(due, Survivors(spared, react));
    }
  }

  lemma SameBehindFirst(due: seq<Timer>, more: seq<Timer>)
    requires due != []
    ensures [due[0]] + more == due <==> more == due[1..]
  {
    assert ([due[0]] + more)[1..] == more && due == [due[0]] + due[1..];
  }

  lemma {:induction false} FirstAndRest(due: seq<Timer>, react: Callbacks)
    requires due != []
    ensures NoneCancelled(due, react) <==>
            NoneCancelled(due[1..], react) && forall j :: 0 <= j < |due[1..]| ==>
              !Cancels(react(due[0].id), due[1..][j].id)
  {
    assert forall j :: 0 <= j < |due[1..]| ==> due[1..][j] == due[j + 1];
    assert forall j :: 1 <= j < |due| ==> due[j] == due[1..][j - 1];
  }

  lemma {:induction false} SparedNoneExactlyWhen(ts: seq<Timer>, acts: seq<Action>)
    ensures Spared(ts, acts) == ts <==> forall j :: 0 <= j < |ts| ==> !Cancels(acts, ts[j].id)
    ensures Spared(ts, acts) != ts ==> |Spared(ts, acts)| < |ts|
  {
    if ts != [] {
      var rest := ts[1..];
      SparedNoneExactlyWhen(rest, acts);
      assert ts == [ts[0]] + rest;
      assert forall j :: 0 <= j < |rest| ==> rest[j] == ts[j + 1];
      assert forall j :: 1 <= j < |ts| ==> ts[j] == rest[j - 1];
    }
  }

  // ---------------------------------------------------------------- the queue stays a queue

  lemma {:induction false} PerformSorted(q: seq<Timer>, a: Action, now: nat)
    ensures Sorted(q) ==> Sorted(Perform(q, a, now))
    ensures DistinctIds(q) ==> DistinctIds(Perform(q, a, now))
  {
    match a
    case Cancel(id) =>
      if Sorted(q) { WithoutStaysSorted(q, id); }
      if DistinctIds(q) { WithoutStaysDistinct(q, id); }
    case Set(id, _, _) =>
      if !Queued(q, id) {
        if Sorted(q) { InsertedSorted(q, TimerOf(a, now)); }
        if DistinctIds(q) { InsertedDistinct(q, TimerOf(a, now)); }
      }
  }

  lemma {:induction false} PerformAllSorted(q: seq<Timer>, acts: seq<Action>, now: nat)
    ensures Sorted(q) ==> Sorted(PerformAll(q, acts, now))
    ensures DistinctIds(q) ==> DistinctIds(PerformAll(q, acts, now))
    decreases |acts|
  {
    if acts != [] {
      PerformSorted(q, acts[0], now);
      PerformAllSorted(Perform(q, acts[0], now), acts[1..], now);
    }
  }

  lemma {:induction false} AfterFireSorted(q: seq<Timer>, t: Timer, acts: seq<Action>, now: nat)
    requires Sorted(q)
    ensures Sorted(AfterFire(q, t, acts, now))
  {
    PerformAllSorted(q, acts, now);
    if t.period > 0 && !Mentions(acts, t.id) { InsertedSorted(PerformAll(q, acts, now), Again(t, now)); }
  }

  /** An id that the actions do not mention: what is queued under it stays. */
  lemma {:induction false} UnmentionedStays(q: seq<Timer>, acts: seq<Action>, now: nat, id: TimerId)
    requires !Mentions(acts, id)
    ensures forall x: Timer :: x.id == id ==> (x in PerformAll(q, acts, now) <==> x in q)
    decreases |acts|
  {
    if acts != [] {
      assert acts[0] in acts && forall a <- acts[1..] :: a in acts;
      var q1 := Perform(q, acts[0], now);
      match acts[0] {
        case Cancel(other) => WithoutMembers(q, other);
        case Set(_, _, _) => InsertedMembers(q, TimerOf(acts[0], now));
      }
      UnmentionedStays(q1, acts[1..], now, id);
    }
  }

  /** What actions add to the queue is nobody's sleep and nobody's timeout. */
  lemma {:induction false} NewOnesAreOthers(q: seq<Timer>, acts: seq<Action>, now: nat)
    ensures forall x <- PerformAll(q, acts, now) :: x in q || x.callback == OtherHandler
    decreases |acts|
  {
    if acts != [] {
      match acts[0] {
        case Cancel(id) => WithoutMembers(q, id);
        case Set(_, _, _) => InsertedMembers(q, TimerOf(acts[0], now));
      }
      NewOnesAreOthers(Perform(q, acts[0], now), acts[1..], now);
    }
  }

  lemma {:induction false} AfterFireDistinct(q: seq<Timer>, t: Timer, acts: seq<Action>, now: nat)
    requires DistinctIds(q) && forall x <- q :: x.id != t.id
    ensures DistinctIds(AfterFire(q, t, acts, now))
  {
    PerformAllSorted(q, acts, now);
    if t.period > 0 && !Mentions(acts, t.id) {
      UnmentionedStays(q, acts, now, t.id);
      InsertedDistinct(PerformAll(q, acts, now), Again(t, now));
    }
  }

  /** After a tick the queue is sorted, nothing in it is due, and no timer is in it twice. */
  lemma {:induction false} FireAllLeaves(q: seq<Timer>, react: Callbacks, now: nat)
    requires Sorted(q) && DistinctIds(q)
    ensures var q' := FireAll(q, react, now).1; Sorted(q') && DistinctIds(q') && forall x <- q' :: x.sched > now
    decreases |Due(q, now)|
  {
    if q == [] {
    } else if q[0].sched > now {
      SortedTail(q);
      assert forall x <- q :: x == q[0] || x in q[1..];
    } else {
      var acts := react(q[0].id);
      SortedTail(q);
      DistinctTail(q);
      DueAfterFire(q[1..], q[0], acts, now);
      AfterFireSorted(q[1..], q[0], acts, now);
      AfterFireDistinct(q[1..], q[0], acts, now);
      FireAllLeaves(AfterFire(q[1..], q[0], acts, now), react, now);
    }
  }

  // ---------------------------------------------------------------- what is in the queue afterwards

  ghost predicate LeftAlone(fired: seq<Timer>, react: Callbacks, id: TimerId) {
    forall t <- fired :: !Mentions(react(t.id), id)
  }

  lemma {:induction false} LeftAloneParts(t: Timer, fired: seq<Timer>, react: Callbacks, id: TimerId)
    ensures LeftAlone([t] + fired, react, id) <==> !Mentions(react(t.id), id) && LeftAlone(fired, react, id)
  {
    assert t in [t] + fired;
    assert forall x :: x in [t] + fired <==> x == t || x in fired;
  }

  ghost predicate Requeued(fired: seq<Timer>, now: nat, x: Timer) {
    exists t <- fired :: t.period > 0 && x == Again(t, now)
  }

  lemma {:induction false} RequeuedParts(t: Timer, fired: seq<Timer>, now: nat, x: Timer)
    ensures Requeued([t] + fired, now, x) <==> (t.period > 0 && x == Again(t, now)) || Requeued(fired, now, x)
  {
    assert t in [t] + fired;
    assert forall y :: y in [t] + fired <==> y == t || y in fired;
  }

  lemma {:induction false} AfterFireMembers(q: seq<Timer>, t: Timer, acts: seq<Action>, now: nat, x: Timer)
    requires !Mentions(acts, x.id)
    ensures x in AfterFire(q, t, acts, now) <==> x in q || (t.period > 0 && x == Again(t, now))
  {
    UnmentionedStays(q, acts, now, x.id);
    InsertedMembers(PerformAll(q, acts, now), Again(t, now));
  }

  /** Under an id that no callback of the tick touches: the timers that were not due stay, the periodic
      ones that fired are queued for now + period, and there is nothing else. */
  lemma {:induction false} QueuedAfterwards(q: seq<Timer>, react: Callbacks, now: nat, x: Timer)
    requires Sorted(q) && LeftAlone(FireAll(q, react, now).0, react, x.id)
    ensures var (fired, q') := FireAll(q, react, now); x in q' <==> (x in q && x.sched > now) || Requeued(fired, now, x)
    decreases |Due(q, now)|
  {
    if q == [] {
    } else if q[0].sched > now {
      SortedTail(q);
      assert forall y <- q :: y == q[0] || y in q[1..];
    } else {
      SortedTail(q);
      AfterFireSorted(q[1..], q[0], react(q[0].id), now);
      var t, acts := q[0], react(q[0].id);
      var q1 := AfterFire(q[1..], t, acts, now);
      var fired := FireAll(q1, react, now).0;
      DueAfterFire(q[1..], t, acts, now);
      LeftAloneParts(t, fired, react, x.id);
      QueuedAfterwards(q1, react, now, x);
      AfterFireMembers(q[1..], t, acts, now, x);
      RequeuedParts(t, fired, now, x);
      assert q == [t] + q[1..];
    }
  }

  // ---------------------------------------------------------------- the loop as it runs

  /** What becomes of the period of the timer whose callback acts. */
  function PeriodAfter(a: Action, id: TimerId, period: nat): nat {
    if a.id != id then period else if a.Set? && a.periodic then AtLeastOne(a.delay) else 0
  }

  /** While its callback runs, a timer that has been touched is queued or has lost its period. */
  ghost predicate Own(q: seq<Timer>, t: Timer, acts: seq<Action>, period: nat) {
    if Mentions(acts, t.id) then Queued(q, t.id) || period == 0 else !Queued(q, t.id) && period == t.period
  }

  lemma {:induction false} OwnStep(q: seq<Timer>, t: Timer, acts: seq<Action>, period: nat, a: Action, now: nat)
    requires Own(q, t, acts, period)
    ensures Own(Perform(q, a, now), t, acts + [a], PeriodAfter(a, t.id, period))
  {
    MentionedOneMore(acts, a, t.id);
    QueuedAfter(q, a, now, t.id);
  }

  /** A callback: it cancels and sets timers of the queue. What it leaves in its own timer's period is
      returned; the timer is off the queue when the callback starts. */
  method Call(q: TimerQueue, t: Timer, acts: seq<Action>, now: nat) returns (period: nat)
    requires Sorted(q.queue) && DistinctIds(q.queue) && !Queued(q.queue, t.id)
    modifies q
    ensures q.queue == PerformAll(old(q.queue), acts, now) && Sorted(q.queue) && DistinctIds(q.queue)
    ensures Own(q.queue, t, acts, period)
  {
    period := t.period;
    var i := 0;
    assert acts[0..] == acts && !Mentions([], t.id);
    while i < |acts|
      invariant i <= |acts| && Sorted(q.queue) && DistinctIds(q.queue)
      invariant PerformAll(q.queue, acts[i..], now) == PerformAll(old(q.queue), acts, now)
      invariant Own(q.queue, t, acts[..i], period)
    {
      OwnStep(q.queue, t, acts[..i], period, acts[i], now);
      PerformNext(q.queue, acts, i, now);
      PerformOne(q, acts[i], now);
      period := PeriodAfter(acts[i], t.id, period);
      i := i + 1;
    }
    assert acts[..i] == acts;
  }

  lemma {:induction false} PerformNext(q: seq<Timer>, acts: seq<Action>, i: nat, now: nat)
    requires i < |acts|
    ensures PerformAll(q, acts[i..], now) == PerformAll(Perform(q, acts[i], now), acts[i + 1..], now)
    ensures acts[..i + 1] == acts[..i] + [acts[i]]
  {
    assert acts[i..][0] == acts[i] && acts[i..][1..] == acts[i + 1..];
  }

  lemma MentionedOneMore(acts: seq<Action>, a: Action, id: TimerId)
    ensures Mentions(acts + [a], id) <==> Mentions(acts, id) || a.id == id
  {
    assert a in acts + [a];
    assert forall b :: b in acts + [a] <==> b in acts || b == a;
  }

  lemma {:induction false} QueuedAfter(q: seq<Timer>, a: Action, now: nat, id: TimerId)
    ensures a.id != id ==> (Queued(Perform(q, a, now), id) <==> Queued(q, id))
    ensures a.id == id ==> (Queued(Perform(q, a, now), id) <==> a.Set?)
  {
    match a
    case Cancel(other) => WithoutMembers(q, other);
    case Set(_, _, _) =>
      InsertedMembers(q, TimerOf(a, now));
      assert TimerOf(a, now) in Inserted(q, TimerOf(a, now));
  }

  method PerformOne(q: TimerQueue, a: Action, now: nat)
    requires Sorted(q.queue) && DistinctIds(q.queue)
    modifies q
    ensures q.queue == Perform(old(q.queue), a, now) && Sorted(q.queue) && DistinctIds(q.queue)
  {
    PerformSorted(q.queue, a, now);
    match a
    case Cancel(id) =>
      q.Cancel(id);
    case Set(id, delay, periodic) =>
      var queued := q.IsQueued(id);
      if !queued {
        if periodic {
          q.SetPeriodic(id, delay, OtherHandler, now);
        } else {
          q.SetOneshot(id, delay, OtherHandler, now);
        }
      }
  }

  lemma {:induction false} StillWanted(q: seq<Timer>, t: Timer, acts: seq<Action>, period: nat)
    requires Own(q, t, acts, period)
    ensures t.period > 0 && !Queued(q, t.id) && period > 0 <==> t.period > 0 && !Mentions(acts, t.id)
    ensures !Mentions(acts, t.id) ==> period == t.period
  {
  }

  /** The callback of `t`, and what follows it: if the timer was periodic, is not queued and still has
      a period, it is queued again. */
  method CallAndRequeue(q: TimerQueue, t: Timer, acts: seq<Action>, now: nat)
    requires Sorted(q.queue) && DistinctIds(q.queue) && !Queued(q.queue, t.id)
    modifies q
    ensures q.queue == AfterFire(old(q.queue), t, acts, now)
  {
    var periodic := t.period > 0;
    var period := Call(q, t, acts, now);
    StillWanted(q.queue, t, acts, period);
    if periodic {
      var queued := q.IsQueued(t.id);
      if !queued && period > 0 {
        q.Insert(t.(sched := now + period));
      }
    }
  }

  lemma {:induction false} FirstTaken(q: seq<Timer>, acts: seq<Action>, now: nat)
    requires q != [] && Sorted(q) && DistinctIds(q)
    ensures Sorted(q[1..]) && DistinctIds(q[1..]) && !Queued(q[1..], q[0].id)
    ensures Sorted(AfterFire(q[1..], q[0], acts, now)) && DistinctIds(AfterFire(q[1..], q[0], acts, now))
  {
    SortedTail(q);
    DistinctTail(q);
    AfterFireSorted(q[1..], q[0], acts, now);
    AfterFireDistinct(q[1..], q[0], acts, now);
  }

  /** One round of the loop. */
  method FireFirst(q: TimerQueue, acts: seq<Action>, now: nat) returns (t: Timer)
    requires q.queue != [] && Sorted(q.queue) && DistinctIds(q.queue)
    modifies q
    ensures t == old(q.queue)[0] && q.queue == AfterFire(old(q.queue)[1..], t, acts, now)
    ensures Sorted(q.queue) && DistinctIds(q.queue)
  {
    FirstTaken(q.queue, acts, now);
    t := q.TakeFirst();
    CallAndRequeue(q, t, acts, now);
  }

  ghost predicate AnyAsks(fired: seq<Timer>, asks: TimerId -> bool) { exists t <- fired :: asks(t.id) }

  lemma AnyAsksOneMore(fired: seq<Timer>, t: Timer, asks: TimerId -> bool)
    ensures AnyAsks(fired + [t], asks) <==> AnyAsks(fired, asks) || asks(t.id)
  {
    assert t in fired + [t];
    assert forall x :: x in fired + [t] <==> x in fired || x == t;
  }

  /** `fired` have fired and left `q`; the loop goes on as the function says. */
  ghost predicate Midway(q0: seq<Timer>, fired: seq<Timer>, q: seq<Timer>, react: Callbacks, now: nat) {
    var (all, last) := FireAll(q0, react, now);
    var (more, last') := FireAll(q, react, now);
    all == fired + more && last == last'
  }

  lemma {:induction false} FireAllStep(q: seq<Timer>, react: Callbacks, now: nat)
    requires q != [] && q[0].sched <= now
    ensures var q1 := AfterFire(q[1..], q[0], react(q[0].id), now);
      && FireAll(q, react, now).0 == [q[0]] + FireAll(q1, react, now).0 &&
        FireAll(q, react, now).1 == FireAll(q1, react, now).1
      && |Due(q1, now)| < |Due(q, now)|
  {
    DueAfterFire(q[1..], q[0], react(q[0].id), now);
  }

  lemma {:induction false} MidwayNext(q0: seq<Timer>, fired: seq<Timer>, q: seq<Timer>, react: Callbacks, now: nat)
    requires Midway(q0, fired, q, react, now) && q != [] && q[0].sched <= now
    ensures Midway(q0, fired + [q[0]], AfterFire(q[1..], q[0], react(q[0].id), now), react, now)
  {
    FireAllStep(q, react, now);
    AppendOne(fired, q[0], FireAll(AfterFire(q[1..], q[0], react(q[0].id), now), react, now).0);
  }

  lemma AppendOne(fired: seq<Timer>, t: Timer, more: seq<Timer>)
    ensures fired + ([t] + more) == (fired + [t]) + more
  {
  }

  /** timer_tick; `asks` tells which callbacks ask for rescheduling. */
  method TimerTick(q: TimerQueue, react: Callbacks, asks: TimerId -> bool, now: nat)
    returns (fired: seq<Timer>, resched: bool)
    requires Sorted(q.queue) && DistinctIds(q.queue)
    modifies q
    ensures (fired, q.queue) == FireAll(old(q.queue), react, now)
    ensures Sorted(q.queue) && DistinctIds(q.queue)
    ensures resched <==> AnyAsks(fired, asks)
  {
    fired, resched := [], false;
    assert forall more: seq<Timer> :: [] + more == more;
    while q.queue != [] && q.queue[0].sched <= now
      invariant Sorted(q.queue) && DistinctIds(q.queue)
      invariant Midway(old(q.queue), fired, q.queue, react, now)
      invariant resched <==> AnyAsks(fired, asks)
      decreases |Due(q.queue, now)|
    {
      FireAllStep(q.queue, react, now);
      MidwayNext(old(q.queue), fired, q.queue, react, now);
      var t := FireFirst(q, react(q.queue[0].id), now);
      AnyAsksOneMore(fired, t, asks);
      fired := fired + [t];
      if asks(t.id) { resched := true; }
    }
    assert fired + [] == fired;
  }
}
