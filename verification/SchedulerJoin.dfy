/** thread_join: waiting for a thread's exit and freeing it (kernel/thread.c). What it returns over a
    whole run when the thread exits, and what it does when the wait ends in any other way. */
module KernelSchedulerJoin {
  import opened Common
  import opened KernelTimer
  import opened KernelTimerTick
  import opened KernelSchedulerState
  import opened KernelSchedulerOps
  import opened KernelSchedulerSteps
  import opened KernelSchedulerTick
  import opened KernelSchedulerRuns
  import opened KernelSchedulerRest
  import opened KernelSchedulerWait

  /** thread_join after its wait: only a negative code counts as a failure. */
  function Joined(s: State, t: Tid, code: int): (State, int) {
    if code < 0 then (s, code) else (Retire(s, t), NO_ERR)
  }

  /** thread_join up to the switch; without an answer the caller waits. */
  function Join(s: State, t: Tid, timeout: Option<nat>): (State, Option<int>)
    requires t in s.threads && s.current in s.threads
  {
    if s.threads[t].detached then (s, Some(-ERR_THREAD_DETACHED))
    else if s.threads[t].phase == Death then (Retire(s, t), Some(NO_ERR))
    else if timeout == Some(0) then
      var (s', r) := Joined(s, t, ERR_TIMED_OUT);
      (s', Some(r))
    else (Block(s, ExitOf(t), timeout), None)
  }

  // ---------------------------------------------------------------- whom it may free

  /** Freeing a slot is right exactly if it is free already, or its thread is dead, or suspended with
      nobody waiting for its exit. The first case is that of a second joiner, the others are also those of
      a slot that thread_create has handed out again meanwhile. */
  lemma FreeingKeepsInvExactlyWhen(s: State, t: Tid)
    requires Inv(s) && (t in s.free || t in s.threads)
    ensures Inv(Retire(s, t)) <==> t in s.free || MayBeFreed(s, t)
  {
    if t in s.free { RetireFree(s, t); } else { FreeingThread(s, t); }
  }

  predicate MayBeFreed(s: State, t: Tid) {
    s.Is(t, Death) || (s.Is(t, Suspended) && s.Queue(ExitOf(t)).list == [])
  }

  lemma FreeingThread(s: State, t: Tid)
    requires Inv(s) && t in s.threads
    ensures Inv(Retire(s, t)) <==> MayBeFreed(s, t)
  {
    var s' := Retire(s, t);
    match s.threads[t].phase
    case Death => JoinOk(s, t);
    case Suspended => if s.Queue(ExitOf(t)).list == [] { SuspendedOk(s, t); } else { assert !RestOk(s'); }
    case Running => assert s.current == t;
    case Ready => FreeingReady(s, t);
    case Blocked =>
      ListedIsBlocked(s, s.threads[t].blockedOn.value, t);
      assert !ListedIffBlocked(s'.threads, s'.waits, s.threads[t].blockedOn.value, t);
    case Sleeping =>
      var p :| p in s.timers && p.id == OfThread(t);
      assert !TimerFits(s'.threads, p);
  }

  lemma SuspendedOk(s: State, t: Tid)
    requires Inv(s) && s.Is(t, Suspended) && s.Queue(ExitOf(t)).list == []
    ensures Inv(Retire(s, t))
  {
    OnlyRestersHaveTimers(s, t);
    RetireOk(s, t);
  }

  lemma FreeingQueued(s: State, t: Tid)
    requires ReadyOk(s) && s.Is(t, Ready) && !s.threads[t].idle
    ensures !ReadyOk(Retire(s, t))
  {
    assert t in s.runQueue[s.threads[t].priority] && !Has(Retire(s, t).threads, t, Ready);
  }

  lemma FreeingIdle(s: State, t: Tid)
    requires RestOk(s) && s.Is(t, Ready) && s.threads[t].idle
    ensures !RestOk(Retire(s, t))
  {
    assert t == IDLE;
  }

  lemma FreeingReady(s: State, t: Tid)
    requires Inv(s) && s.Is(t, Ready)
    ensures !Inv(Retire(s, t))
  {
    if s.threads[t].idle { FreeingIdle(s, t); } else { FreeingQueued(s, t); }
  }

  /** A second joiner, in the state that the first one leaves, frees the slot again and changes nothing. */
  lemma SecondJoinerChangesNothing(s: State, t: Tid)
    requires Inv(s) && s.Is(t, Death)
    ensures Retire(Retire(s, t), t) == Retire(s, t) && Inv(Retire(s, t))
  {
    JoinOk(s, t);
    assert t !in s.free;
    LastStaysLast(s.free, t);
    assert s.threads - {t} - {t} == s.threads - {t};
  }

  lemma {:induction false} LastStaysLast(free: seq<Tid>, t: Tid)
    requires t !in free
    ensures Unlisted(free + [t], t) + [t] == free + [t]
  {
    IndexOfLast(free, t);
  }

  lemma {:induction false} IndexOfLast(free: seq<Tid>, t: Tid)
    requires t !in free
    ensures IndexOf(free + [t], t) == |free|
  {
    if free != [] {
      IndexOfLast(free[1..], t);
      assert (free + [t])[1..] == free[1..] + [t];
    }
  }

  /** With a timeout of zero, and so without waiting, a thread that is alive is freed: the scheduler
      survives exactly if it was suspended and nobody waits for it. */
  lemma JoinAtOnceKeepsInvExactlyWhen(s: State, t: Tid)
    requires Inv(s) && t in s.threads && !s.threads[t].detached
    ensures Join(s, t, Some(0)).1 == Some(NO_ERR)
    ensures Inv(Join(s, t, Some(0)).0) <==> MayBeFreed(s, t)
  {
    FreeingThread(s, t);
  }

  // ---------------------------------------------------------------- what it returns when the thread exits

  /** Thread `u` is dead and its exit code is `retcode`. */
  predicate DeadWith(s: State, u: Tid, retcode: int) { s.Is(u, Death) && s.threads[u].retcode == retcode }

  lemma DeadRests(s: State, u: Tid)
    requires Inv(s) && s.Is(u, Death)
    ensures Resting(s, u, Rest(s.threads[u], None)) && u != s.current && forall q :: u !in s.Queue(q).list
  {
    OnlyRestersHaveTimers(s, u);
    IsResting(s, u, None);
    forall q ensures u !in s.Queue(q).list { ListedIsBlocked(s, q, u); }
  }

  lemma TickLeavesDead(s: State, now: nat, react: Callbacks, u: Tid, retcode: int)
    requires Inv(s) && FromDrivers(react) && DeadWith(s, u, retcode)
    ensures DeadWith(Tick(s, now, react), u, retcode)
  {
    ClockIsFree(s, now);
    FireDueKeeps(s.(now := now), react, u);
    FireDueOk(s.(now := now), react);
  }

  lemma NothingReachesDead(s: State, e: Event, u: Tid)
    requires Inv(s) && s.Is(u, Death) && e != DoFree(u)
    ensures !Reaches(s, e, u)
  {
    DeadRests(s, u);
  }

  lemma RestingDead(s: State, u: Tid, th: Thread)
    requires Resting(s, u, Rest(th, None)) && th.phase == Death
    ensures DeadWith(s, u, th.retcode)
  {
  }

  /** A dead thread stays as it is until it is freed. */
  lemma DeadStep(s: State, e: Event, u: Tid, retcode: int)
    requires Inv(s) && Allowed(s, e) && DeadWith(s, u, retcode) && e != DoFree(u)
    ensures DeadWith(Step(s, e), u, retcode)
  {
    if e.DoTick? {
      TickLeavesDead(s, e.now, e.react, u, retcode);
    } else {
      DeadRests(s, u);
      NothingReachesDead(s, e, u);
      StepLeaves(s, e, u, Rest(s.threads[u], None));
      RestingDead(Step(s, e), u, s.threads[u]);
    }
  }

  lemma DeadStepOfRun(states: seq<State>, events: seq<Event>, k: nat, u: Tid, retcode: int)
    requires IsRun(states, events) && k < |events| && DeadWith(states[k], u, retcode) && events[k] != DoFree(u)
    ensures DeadWith(states[k + 1], u, retcode)
  {
    StepOfRun(states, events, k);
    DeadStep(states[k], events[k], u, retcode);
  }

  lemma {:induction false} StaysDead(states: seq<State>, events: seq<Event>, i: nat, j: nat, u: Tid, retcode: int)
    requires IsRun(states, events) && i <= j < |states| && DeadWith(states[i], u, retcode)
    requires forall k :: i <= k < j ==> events[k] != DoFree(u)
    ensures DeadWith(states[j], u, retcode)
    decreases j
  {
    if i < j {
      StaysDead(states, events, i, j - 1, u, retcode);
      DeadStepOfRun(states, events, j - 1, u, retcode);
    }
  }

  /** The state in which a thread that is not detached has just died. */
  function Dying(s: State, retcode: int): State
    requires s.current in s.threads
  {
    s.With(s.current, s.threads[s.current].(phase := Death, retcode := retcode))
  }

  lemma DyingRests(s: State, retcode: int)
    requires Inv(s) && s.current != IDLE && !s.threads[s.current].detached
    ensures var d := Dying(s, retcode); Core(d) && Resting(d, s.current, Rest(d.threads[s.current], None))
    ensures s.current !in Dying(s, retcode).Queue(ExitOf(s.current)).list
  {
    DeadStateOk(s, retcode);
    RunningHasNoTimer(s);
    NotQueued(s, s.current);
    ListedIsBlocked(s, ExitOf(s.current), s.current);
  }

  lemma ExitDies(s: State, retcode: int)
    requires Inv(s) && s.current != IDLE && !s.threads[s.current].detached
    ensures DeadWith(Exit(s, retcode), s.current, retcode)
  {
    var u, d := s.current, Dying(s, retcode);
    var r := Rest(d.threads[u], None);
    DyingRests(s, retcode);
    ReleaseAllLeaves(d, ExitOf(u), 0, u, r);
    ReschedLeaves(ReleaseAll(d, ExitOf(u), 0), u, r);
    RestingDead(Exit(s, retcode), u, r.th);
  }

  lemma WaitedForIsNotDetached(s: State, t: Tid, u: Tid, timeout: Option<Timer>)
    requires Inv(s) && Waiting(s, t, ExitOf(u), timeout)
    ensures u in s.threads && !s.threads[u].detached
  {
    ListedIsBlocked(s, ExitOf(u), t);
  }

  /** A thread that starts to wait for `u` at step i, is still waiting when `u` exits at step j and runs
      again in state k finds `u` dead, gets its exit code and may free it, if nobody has joined `u` before. */
  lemma JoinReturnsTheExitCode(states: seq<State>, events: seq<Event>, i: nat, j: nat, k: nat, u: Tid,
                               timeout: Option<nat>, retcode: int)
    requires IsRun(states, events) && i < j < k < |states| && events[i] == DoBlock(ExitOf(u), timeout)
    requires timeout != Some(0)
    requires events[j] == DoExit(retcode) && states[j].current == u
    requires var t, timer := states[i].current, TimeoutOf(states[i], timeout);
      && (forall m :: i < m < j ==> Ending(states[m], events[m], t, ExitOf(u), timer) == None)
      && (forall m :: j < m < k ==> states[m].Is(t, Ready) && events[m] != DoFree(u))
    ensures var t := states[i].current; t in states[k].threads && states[k].threads[t].blockRet == NO_ERR
    ensures DeadWith(states[k], u, retcode) && Joined(states[k], u, NO_ERR).1 == NO_ERR
    ensures Inv(Joined(states[k], u, NO_ERR).0)
  {
    var t, timer := states[i].current, TimeoutOf(states[i], timeout);
    FirstEndingDecides(states, events, i, j, k, ExitOf(u), timeout);
    WaitsUntil(states, events, i, j, ExitOf(u), timeout);
    StepOfRun(states, events, j);
    WaitedForIsNotDetached(states[j], t, u, timer);
    ExitDies(states[j], retcode);
    StaysDead(states, events, j + 1, k, u, retcode);
    EveryRunKeepsInv(states, events, k);
    JoinOk(states[k], u);
  }
}
