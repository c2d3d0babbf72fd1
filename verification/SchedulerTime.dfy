/** What a sleep is worth over a whole run: a sleeper is left alone until the first tick at which its
    timer is due, and that tick wakes it (kernel/thread.c, kernel/timer.c). */
module KernelSchedulerTime {
  import opened Common
  import opened KernelTimer
  import opened KernelTimerTick
  import opened KernelSchedulerState
  import opened KernelSchedulerSteps
  import opened KernelSchedulerTick
  import opened KernelSchedulerRuns
  import opened KernelSchedulerRest

  /** Thread `t` sleeps and `p` is its timer. */
  predicate Asleep(s: State, t: Tid, p: Timer) {
    s.Is(t, Sleeping) && p in s.timers && p.id == OfThread(t)
  }

  // ---------------------------------------------------------------- the tick

  lemma HeadIsEarliest(ts: seq<Timer>, p: Timer)
    requires Sorted(ts) && p in ts
    ensures ts != [] && ts[0].sched <= p.sched
  {
  }

  /** Of a sleeper's timer there is one, and its handler ends the sleep. */
  lemma SleeperHasOneTimer(s: State, t: Tid, p: Timer, x: Timer)
    requires TimersOk(s) && Asleep(s, t, p) && x in s.timers && x.id == OfThread(t)
    ensures x == p && p.callback == SleepHandler
  {
    assert TimerFits(s.threads, x);
  }

  lemma RoundOfOne(s: State, react: Callbacks, t: Tid, p: Timer)
    requires Core(s) && FromDrivers(react) && Asleep(s, t, p) && s.timers != []
    ensures var s1 := Round(s, react); if s.timers[0].id == OfThread(t) then s1.Is(t, Ready) else Asleep(s1, t, p)
  {
    var x := s.timers[0];
    RoundChangesOne(s, react);
    FirstTimer(s);
    match x.id
    case OfThread(u) =>
      if u == t {
        SleeperHasOneTimer(s, t, p, x);
        WakeSleeperOk(s, t);
      }
    case Driver(n) => DriverRoundKeeps(s.timers, react(Driver(n)), s.now, p);
  }

  lemma {:induction false} FireDueIsExact(s: State, react: Callbacks, t: Tid, p: Timer)
    requires Core(s) && FromDrivers(react) && Asleep(s, t, p)
    ensures var s' := FireDue(s, react); if p.sched <= s.now then s'.Is(t, Ready) else Asleep(s', t, p)
    decreases |Due(s.timers, s.now)|
  {
    HeadIsEarliest(s.timers, p);
    if s.timers[0].sched <= s.now {
      RoundOk(s, react);
      RoundOfOne(s, react, t, p);
      RoundIsShorter(s, react);
      if s.timers[0].id == OfThread(t) {
        SleeperHasOneTimer(s, t, p, s.timers[0]);
        FireDueKeeps(Round(s, react), react, t);
      } else {
        FireDueIsExact(Round(s, react), react, t, p);
      }
    }
  }

  /** Behind the loop a tick only takes from the running thread's quantum. */
  lemma CountDownIsAll(s: State, now: nat, react: Callbacks, t: Tid)
    requires Inv(s) && FromDrivers(react)
    ensures var s1, s2 := FireDue(s.(now := now), react), Tick(s, now, react);
      s2.timers == s1.timers && (t in s1.threads ==> t in s2.threads && s2.threads[t].phase == s1.threads[t].phase)
  {
  }

  /** A tick wakes a sleeper if and only if its timer is due, and otherwise leaves it its timer. */
  lemma TickWakesExactlyTheDue(s: State, now: nat, react: Callbacks, t: Tid, p: Timer)
    requires Inv(s) && FromDrivers(react) && Asleep(s, t, p)
    ensures var s' := Tick(s, now, react); if p.sched <= now then s'.Is(t, Ready) else Asleep(s', t, p)
  {
    ClockIsFree(s, now);
    FireDueIsExact(s.(now := now), react, t, p);
    CountDownIsAll(s, now, react, t);
  }

  // ---------------------------------------------------------------- every step, every run

  /** Only a tick at or after its time ends a sleep. */
  lemma StepLeavesAsleep(s: State, e: Event, t: Tid, p: Timer)
    requires Inv(s) && Allowed(s, e) && Asleep(s, t, p) && !e.DoTick?
    ensures Asleep(Step(s, e), t, p)
  {
    IsResting(s, t, Some(p));
    forall q ensures t !in s.Queue(q).list { ListedIsBlocked(s, q, t); }
    StepLeaves(s, e, t, Rest(s.threads[t], Some(p)));
  }

  lemma FallAsleepSets(s: State, delay: nat)
    requires ReadyOk(s) && s.Is(s.current, Running) && s.current != IDLE
    ensures var b := FallAsleep(s, delay); Resting(b, s.current,
              Rest(b.threads[s.current], Some(Armed(s, delay, SleepHandler))))
  {
    NotQueued(s, s.current);
    InsertedMembers(s.timers, Armed(s, delay, SleepHandler));
  }

  /** thread_sleep puts the caller to sleep until `delay`, but at least one, has passed. */
  lemma SleepSetsTheAlarm(s: State, delay: nat)
    requires ReadyOk(s) && s.Is(s.current, Running) && s.current != IDLE
    ensures var wake := s.now + if delay == 0 then 1 else delay;
      Asleep(Sleep(s, delay), s.current, Timer(OfThread(s.current), wake, 0, SleepHandler))
  {
    var b := FallAsleep(s, delay);
    FallAsleepSets(s, delay);
    ReschedLeaves(b, s.current, Rest(b.threads[s.current], Some(Armed(s, delay, SleepHandler))));
  }

  /** No sleeper wakes early: in every run, as long as no tick reaches its time, it stays asleep. */
  lemma {:induction false} NoSleeperWakesEarly(states: seq<State>, events: seq<Event>, i: nat, j: nat, t: Tid, p: Timer)
    requires IsRun(states, events) && i <= j < |states| && Asleep(states[i], t, p)
    requires forall k :: i <= k < j && events[k].DoTick? ==> events[k].now < p.sched
    ensures Asleep(states[j], t, p)
    decreases j
  {
    if i < j {
      var k := j - 1;
      NoSleeperWakesEarly(states, events, i, k, t, p);
      EveryRunKeepsInv(states, events, k);
      assert Follows(states[k], events[k], states[k + 1]);
      if events[k].DoTick? {
        TickWakesExactlyTheDue(states[k], events[k].now, events[k].react, t, p);
      } else {
        StepLeavesAsleep(states[k], events[k], t, p);
      }
    }
  }

  /** And the first tick that reaches its time does wake it. */
  lemma WakesAtFirstDueTick(states: seq<State>, events: seq<Event>, i: nat, j: nat, t: Tid, p: Timer)
    requires IsRun(states, events) && i <= j < |events| && Asleep(states[i], t, p)
    requires forall k :: i <= k < j && events[k].DoTick? ==> events[k].now < p.sched
    requires events[j].DoTick? && events[j].now >= p.sched
    ensures states[j + 1].Is(t, Ready)
  {
    NoSleeperWakesEarly(states, events, i, j, t, p);
    EveryRunKeepsInv(states, events, j);
    assert Follows(states[j], events[j], states[j + 1]);
    TickWakesExactlyTheDue(states[j], events[j].now, events[j].react, t, p);
  }
}
