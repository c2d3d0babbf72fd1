/** What a wait is worth over a whole run: a thread in a wait queue stays there until the first wake of
    its turn, the exit or detach of the thread it joins, or the first tick at its timeout; that alone
    decides the code it runs with (kernel/wait_queue.c, kernel/thread.c, kernel/timer.c). */
module KernelSchedulerWait {
  import opened Common
  import opened KernelTimer
  import opened KernelTimerTick
  import opened KernelSchedulerState
  import opened KernelSchedulerOps
  import opened KernelSchedulerSteps
  import opened KernelSchedulerTick
  import opened KernelSchedulerRuns
  import opened KernelSchedulerRest

  /** Thread `t` waits in `q`, with a timeout or for good. */
  predicate Waiting(s: State, t: Tid, q: Qid, timeout: Option<Timer>) {
    s.Is(t, Blocked) && s.threads[t].blockedOn == Some(q) && HasTimer(s.timers, t, timeout)
  }

  /** It waits no longer, and `code` is what its wait has come to. */
  predicate Woken(s: State, t: Tid, code: int) {
    t in s.threads && s.threads[t].phase in {Ready, Running} && s.threads[t].blockRet == code
  }

  /** Whether an operation ends the wait, and with which code. */
  function Ending(s: State, e: Event, t: Tid, q: Qid, timeout: Option<Timer>): Option<int> {
    match e
    case DoWakeOne(r, _, error) => if r == q && s.Queue(q).list != [] && s.Queue(q).list[0] == t then Some(error)
      else None
    case DoWakeAll(r, _, error) => if r == q then Some(error) else None
    case DoExit(_) => if q == ExitOf(s.current) then Some(NO_ERR) else None
    case DoDetach(u) => if q == ExitOf(u) then Some(ERR_THREAD_DETACHED) else None
    case DoTick(now, _) => if timeout.Some? && timeout.value.sched <= now then Some(ERR_TIMED_OUT) else None
    case _ => None
  }

  // ---------------------------------------------------------------- the tick

  lemma FirstTimerOfWaiter(s: State, t: Tid, q: Qid, timeout: Option<Timer>)
    requires TimersOk(s) && Waiting(s, t, q, timeout) && s.timers != [] && s.timers[0].id == OfThread(t)
    ensures timeout == Some(s.timers[0]) && s.timers[0].callback == TimeoutHandler
  {
    assert TimerFits(s.threads, s.timers[0]);
  }

  lemma RoundTimesOut(s: State, react: Callbacks, t: Tid, q: Qid, timeout: Option<Timer>)
    requires Core(s) && Waiting(s, t, q, timeout) && s.timers != [] && s.timers[0].id == OfThread(t)
    ensures timeout == Some(s.timers[0]) && Round(s, react).Is(t, Ready)
    ensures Round(s, react).threads[t].blockRet == ERR_TIMED_OUT
  {
    FirstTimerOfWaiter(s, t, q, timeout);
    DropTimeoutOk(s, t);
    UnblockOk(DropTimer(s), t, ERR_TIMED_OUT);
  }

  lemma RoundOfAnother(s: State, react: Callbacks, t: Tid, q: Qid, timeout: Option<Timer>)
    requires Core(s) && FromDrivers(react) && Waiting(s, t, q, timeout) && s.timers != []
    requires s.timers[0].id != OfThread(t)
    ensures Waiting(Round(s, react), t, q, timeout)
  {
    RoundChangesOne(s, react);
    FirstTimer(s);
    if s.timers[0].id.Driver? {
      forall x: Timer | x.id == OfThread(t) ensures x in Round(s, react).timers <==> x in s.timers {
        DriverRoundKeeps(s.timers, react(s.timers[0].id), s.now, x);
      }
    } else {
      RoundTimers(s, react);
      assert Round(s, react).timers == s.timers[1..];
    }
  }

  lemma {:induction false} FireDueOfWaiter(s: State, react: Callbacks, t: Tid, q: Qid, timeout: Option<Timer>)
    requires Core(s) && FromDrivers(react) && Waiting(s, t, q, timeout)
    ensures var s' := FireDue(s, react);
      if timeout.Some? && timeout.value.sched <= s.now then s'.Is(t, Ready) && s'.threads[t].blockRet == ERR_TIMED_OUT
      else Waiting(s', t, q, timeout)
    decreases |Due(s.timers, s.now)|
  {
    if s.timers != [] && s.timers[0].sched <= s.now {
      RoundOk(s, react);
      RoundIsShorter(s, react);
      if s.timers[0].id == OfThread(t) {
        RoundTimesOut(s, react, t, q, timeout);
        FireDueKeeps(Round(s, react), react, t);
      } else {
        RoundOfAnother(s, react, t, q, timeout);
        FireDueOfWaiter(Round(s, react), react, t, q, timeout);
      }
    }
  }

  /** A tick ends a wait with ERR_TIMED_OUT if the timeout is due, and otherwise leaves it and its timeout. */
  lemma TickTimesOutExactlyTheDue(s: State, now: nat, react: Callbacks, t: Tid, q: Qid, timeout: Option<Timer>)
    requires Inv(s) && FromDrivers(react) && Waiting(s, t, q, timeout)
    ensures var s' := Tick(s, now, react);
      if timeout.Some? && timeout.value.sched <= now then s'.Is(t, Ready) && s'.threads[t].blockRet == ERR_TIMED_OUT
      else Waiting(s', t, q, timeout)
  {
    ClockIsFree(s, now);
    FireDueOfWaiter(s.(now := now), react, t, q, timeout);
    FireDueOk(s.(now := now), react);
  }

  // ---------------------------------------------------------------- a wake

  lemma WokenGoesOn(s: State, t: Tid, code: int)
    requires s.Is(t, Ready) && s.threads[t].blockRet == code
    ensures Woken(s, t, code) && Woken(Resched(s), t, code)
  {
  }

  lemma HeadIsWoken(s: State, t: Tid, q: Qid, error: int)
    requires Core(s) && s.Queue(q).list != [] && s.Queue(q).list[0] == t
    ensures t in s.threads && s.threads[t].priority < |s.runQueue|
    ensures Woken(Release(s, q, 0, error), t, error) && Woken(Resched(Release(s, q, 0, error)), t, error)
  {
    ReleaseOk(s, q, 0, error);
    WokenGoesOn(Release(s, q, 0, error), t, error);
  }

  lemma AllAreWoken(s: State, t: Tid, q: Qid, error: int)
    requires Core(s) && t in s.Queue(q).list
    ensures ReleaseAll(s, q, error).Is(t, Ready)
    ensures Woken(ReleaseAll(s, q, error), t, error) && Woken(Resched(ReleaseAll(s, q, error)), t, error)
  {
    ListedIsBlocked(s, q, t);
    ReleaseAllOk(s, q, error);
    WokenGoesOn(ReleaseAll(s, q, error), t, error);
  }

  lemma WakeOneWakes(s: State, t: Tid, q: Qid, reschedule: bool, error: int)
    requires Inv(s) && s.Queue(q).list != [] && s.Queue(q).list[0] == t && !(reschedule && s.threads[s.current].idle)
    ensures s.threads[s.current].priority < |s.runQueue| && Woken(WakeOne(s, q, reschedule, error), t, error)
  {
    InvBounds(s);
    HeadIsWoken(s, t, q, error);
    if reschedule {
      RunningHasNoTimer(s);
      MakeReadyOk(s, s.current);
      HeadIsWoken(MakeReady(s, s.current), t, q, error);
    }
  }

  lemma WakeAllWakes(s: State, t: Tid, q: Qid, reschedule: bool, error: int)
    requires Inv(s) && t in s.Queue(q).list && !(reschedule && s.threads[s.current].idle)
    ensures s.threads[s.current].priority < |s.runQueue| && Woken(WakeAll(s, q, reschedule, error).0, t, error)
  {
    InvBounds(s);
    AllAreWoken(s, t, q, error);
    if reschedule {
      RunningHasNoTimer(s);
      MakeReadyOk(s, s.current);
      AllAreWoken(MakeReady(s, s.current), t, q, error);
    }
  }

  lemma ExitWakes(s: State, t: Tid, retcode: int)
    requires Inv(s) && s.current != IDLE && t in s.Queue(ExitOf(s.current)).list
    ensures Woken(Exit(s, retcode), t, NO_ERR)
  {
    var cur := s.current;
    assert !s.threads[cur].detached;
    DeadStateOk(s, retcode);
    AllAreWoken(s.With(cur, s.threads[cur].(phase := Death, retcode := retcode)), t, ExitOf(cur), NO_ERR);
  }

  lemma DetachWakes(s: State, t: Tid, u: Tid)
    requires Core(s) && t in s.Queue(ExitOf(u)).list
    ensures Woken(Detach(s, u), t, ERR_THREAD_DETACHED)
  {
    AllAreWoken(s, t, ExitOf(u), ERR_THREAD_DETACHED);
  }

  lemma EndingWakes(s: State, e: Event, t: Tid, q: Qid, timeout: Option<Timer>)
    requires Inv(s) && Allowed(s, e) && Waiting(s, t, q, timeout) && Ending(s, e, t, q, timeout).Some?
    ensures Woken(Step(s, e), t, Ending(s, e, t, q, timeout).value)
  {
    ListedIsBlocked(s, q, t);
    match e
    case DoWakeOne(_, r, error) => WakeOneWakes(s, t, q, r, error);
    case DoWakeAll(_, r, error) => WakeAllWakes(s, t, q, r, error);
    case DoExit(retcode) => ExitWakes(s, t, retcode);
    case DoDetach(u) => DetachWakes(s, t, u);
    case DoTick(now, react) => TickTimesOutExactlyTheDue(s, now, react, t, q, timeout);
  }

  lemma NothingElseReaches(s: State, e: Event, t: Tid, q: Qid, timeout: Option<Timer>)
    requires Inv(s) && Allowed(s, e) && Waiting(s, t, q, timeout) && Ending(s, e, t, q, timeout).None?
    ensures !Reaches(s, e, t)
  {
    forall r ensures t in s.Queue(r).list <==> r == q { ListedIsBlocked(s, r, t); }
  }

  /** One step of the wait: an operation that ends it makes the thread ready, or lets it run, with the
      code; any other leaves it waiting in the same queue with the same timeout. */
  lemma WaitStep(s: State, e: Event, t: Tid, q: Qid, timeout: Option<Timer>)
    requires Inv(s) && Allowed(s, e) && Waiting(s, t, q, timeout)
    ensures match Ending(s, e, t, q, timeout)
            case Some(code) => Woken(Step(s, e), t, code)
            case None => Waiting(Step(s, e), t, q, timeout)
  {
    if Ending(s, e, t, q, timeout).Some? {
      EndingWakes(s, e, t, q, timeout);
    } else if e.DoTick? {
      TickTimesOutExactlyTheDue(s, e.now, e.react, t, q, timeout);
    } else {
      NothingElseReaches(s, e, t, q, timeout);
      IsResting(s, t, timeout);
      StepLeaves(s, e, t, Rest(s.threads[t], timeout));
    }
  }

  // ---------------------------------------------------------------- a code that is not touched

  predicate SameCode(s: State, s': State, t: Tid) {
    t in s.threads && t in s'.threads && s'.threads[t].blockRet == s.threads[t].blockRet
  }

  lemma ReschedKeepsCode(s: State, t: Tid)
    requires t in s.threads
    ensures SameCode(s, Resched(s), t)
  {
  }

  lemma ParkedSwitchKeepsCode(s: State, t: Tid)
    requires s.current in s.threads && s.threads[s.current].priority < |s.runQueue| && t in s.threads
    ensures SameCode(s, Preempt(s), t) && SameCode(s, Yield(s), t)
  {
    ReschedKeepsCode(Park(s), t);
    ReschedKeepsCode(Park(s.With(s.current, s.threads[s.current].(quantum := 0))), t);
  }

  lemma WakeKeepsCode(s: State, q: Qid, reschedule: bool, error: int, t: Tid)
    requires Inv(s) && s.Is(t, Ready) && !(reschedule && s.threads[s.current].idle)
    ensures s.threads[s.current].priority < |s.runQueue|
    ensures SameCode(s, WakeOne(s, q, reschedule, error), t) && SameCode(s, WakeAll(s, q, reschedule, error).0, t)
  {
    WakeOneKeepsCode(s, s, q, error, t);
    WakeAllKeepsCode(s, s, q, error, t);
    if reschedule {
      RunningHasNoTimer(s);
      MakeReadyOk(s, s.current);
      WakeOneKeepsCode(s, MakeReady(s, s.current), q, error, t);
      WakeAllKeepsCode(s, MakeReady(s, s.current), q, error, t);
    }
  }

  lemma WakeOneKeepsCode(s: State, s1: State, q: Qid, error: int, t: Tid)
    requires Core(s1) && s1.Is(t, Ready) && SameCode(s, s1, t)
    ensures s1.Queue(q).list != [] ==>
              var u := s1.Queue(q).list[0];
              && u in s1.threads && s1.threads[u].priority < |s1.runQueue|
              && SameCode(s, Release(s1, q, 0, error), t) && SameCode(s, Resched(Release(s1, q, 0, error)), t)
  {
    if s1.Queue(q).list != [] {
      ReleaseOk(s1, q, 0, error);
      ReschedKeepsCode(Release(s1, q, 0, error), t);
    }
  }

  lemma NotWaiting(s: State, q: Qid, t: Tid)
    requires WaitOk(s) && t in s.threads && s.threads[t].phase != Blocked
    ensures t !in s.Queue(q).list
  {
    ListedIsBlocked(s, q, t);
  }

  lemma WakeAllKeepsCode(s: State, s1: State, q: Qid, error: int, t: Tid)
    requires Core(s1) && s1.Is(t, Ready) && SameCode(s, s1, t)
    ensures SameCode(s, ReleaseAll(s1, q, error), t) && SameCode(s, Resched(ReleaseAll(s1, q, error)), t)
  {
    ReleaseAllOk(s1, q, error);
    NotWaiting(s1, q, t);
    ReschedKeepsCode(ReleaseAll(s1, q, error), t);
  }

  lemma ExitKeepsCode(s: State, retcode: int, t: Tid)
    requires Inv(s) && s.current != IDLE && s.Is(t, Ready)
    ensures SameCode(s, Exit(s, retcode), t)
  {
    var cur := s.current;
    if !s.threads[cur].detached {
      DeadStateOk(s, retcode);
      WakeAllKeepsCode(s, s.With(cur, s.threads[cur].(phase := Death, retcode := retcode)), ExitOf(cur), 0, t);
    }
    ReschedKeepsCode(Die(s, retcode), t);
  }

  lemma TickKeepsCode(s: State, now: nat, react: Callbacks, t: Tid)
    requires Inv(s) && FromDrivers(react) && s.Is(t, Ready)
    ensures SameCode(s, Tick(s, now, react), t)
  {
    ClockIsFree(s, now);
    FireDueKeeps(s.(now := now), react, t);
  }

  lemma ResumeKeepsCode(s: State, u: Tid, intsDisabled: bool, t: Tid)
    requires Inv(s) && u in s.threads && t in s.threads
    ensures s.threads[s.current].priority < |s.runQueue| && s.threads[u].priority < |s.runQueue|
    ensures SameCode(s, Resume(s, u, intsDisabled), t)
  {
    if s.threads[u].phase == Suspended {
      ResumedIsQueued(s, u);
      InvBounds(MakeReady(s, u));
      ParkedSwitchKeepsCode(MakeReady(s, u), t);
    }
  }

  lemma CreateKeepsCode(s: State, priority: nat, t: Tid)
    requires RestOk(s) && t in s.threads
    ensures SameCode(s, Create(s, priority), t)
  {
    if s.free != [] { assert s.free[0] in s.free; }
  }

  lemma DetachKeepsCode(s: State, u: Tid, t: Tid)
    requires Core(s) && s.Is(t, Ready)
    ensures SameCode(s, Detach(s, u), t)
  {
    WakeAllKeepsCode(s, s, ExitOf(u), ERR_THREAD_DETACHED, t);
  }

  /** While a woken thread has not run, nobody touches the code it was woken with: whatever happens
      next, its return code stays. */
  lemma ReturnCodeIsKept(s: State, e: Event, t: Tid)
    requires Inv(s) && Allowed(s, e) && s.Is(t, Ready)
    ensures SameCode(s, Step(s, e), t)
  {
    InvBounds(s);
    match e
    case DoCreate(priority) => CreateKeepsCode(s, priority, t);
    case DoResume(u, ints) => ResumeKeepsCode(s, u, ints, t);
    case DoYield => ParkedSwitchKeepsCode(s, t);
    case DoPreempt => ParkedSwitchKeepsCode(s, t);
    case DoSleep(delay) => ReschedKeepsCode(FallAsleep(s, delay), t);
    case DoExit(retcode) => ExitKeepsCode(s, retcode, t);
    case DoDetach(u) => DetachKeepsCode(s, u, t);
    case DoFree(_) =>
    case DoBecomeIdle => ParkedSwitchKeepsCode(s.With(s.current,
      s.threads[s.current].(priority := IDLE_PRIORITY, idle := true)), t);
    case DoBlock(q, timeout) => ReschedKeepsCode(EnterWait(s, q, timeout), t);
    case DoWakeOne(q, r, error) => WakeKeepsCode(s, q, r, error, t);
    case DoWakeAll(q, r, error) => WakeKeepsCode(s, q, r, error, t);
    case DoDriver(_) =>
    case DoClock(_) =>
    case DoTick(now, react) => TickKeepsCode(s, now, react, t);
  }

  // ---------------------------------------------------------------- every run

  /** The timeout that wait_queue_block sets. */
  function TimeoutOf(s: State, timeout: Option<nat>): Option<Timer> {
    if timeout.None? then None else Some(Timer(OfThread(s.current), s.now + timeout.value, 0, TimeoutHandler))
  }

  lemma EnterWaitSets(s: State, q: Qid, timeout: Option<nat>)
    requires Inv(s) && s.current != IDLE && timeout != Some(0)
    ensures var b := EnterWait(s, q, timeout); Resting(b, s.current, Rest(b.threads[s.current], TimeoutOf(s, timeout)))
  {
    NotQueued(s, s.current);
    RunningHasNoTimer(s);
    if timeout.Some? { InsertedMembers(s.timers, Armed(s, timeout.value, TimeoutHandler)); }
  }

  lemma BlockStartsWait(s: State, q: Qid, timeout: Option<nat>)
    requires Inv(s) && s.current != IDLE && timeout != Some(0)
    ensures Waiting(Block(s, q, timeout), s.current, q, TimeoutOf(s, timeout))
  {
    var b := EnterWait(s, q, timeout);
    EnterWaitSets(s, q, timeout);
    ReschedLeaves(b, s.current, Rest(b.threads[s.current], TimeoutOf(s, timeout)));
  }

  lemma StepOfRun(states: seq<State>, events: seq<Event>, k: nat)
    requires IsRun(states, events) && k < |events|
    ensures Inv(states[k]) && Allowed(states[k], events[k]) && states[k + 1] == Step(states[k], events[k])
  {
    EveryRunKeepsInv(states, events, k);
    assert Follows(states[k], events[k], states[k + 1]);
  }

  /** What becomes of the wait in one step of a run. */
  ghost predicate WaitGoesOn(s: State, e: Event, s': State, t: Tid, q: Qid, timeout: Option<Timer>) {
    match Ending(s, e, t, q, timeout)
    case Some(code) => Woken(s', t, code)
    case None => Waiting(s', t, q, timeout)
  }

  lemma WaitStepOfRun(states: seq<State>, events: seq<Event>, k: nat, t: Tid, q: Qid, timeout: Option<Timer>)
    requires IsRun(states, events) && k < |events| && Waiting(states[k], t, q, timeout)
    ensures WaitGoesOn(states[k], events[k], states[k + 1], t, q, timeout)
  {
    StepOfRun(states, events, k);
    WaitStep(states[k], events[k], t, q, timeout);
  }

  /** In every run: as long as nothing ends the wait, the thread waits. */
  lemma {:induction false} StaysWaiting(states: seq<State>, events: seq<Event>, i: nat, j: nat, t: Tid, q: Qid,
                                        timeout: Option<Timer>)
    requires IsRun(states, events) && i <= j < |states| && Waiting(states[i], t, q, timeout)
    requires forall k :: i <= k < j ==> Ending(states[k], events[k], t, q, timeout) == None
    ensures Waiting(states[j], t, q, timeout)
    decreases j
  {
    if i < j {
      StaysWaiting(states, events, i, j - 1, t, q, timeout);
      WaitStepOfRun(states, events, j - 1, t, q, timeout);
    }
  }

  lemma StepOfRunKeepsCode(states: seq<State>, events: seq<Event>, k: nat, t: Tid)
    requires IsRun(states, events) && k < |events| && states[k].Is(t, Ready)
    ensures SameCode(states[k], states[k + 1], t)
  {
    StepOfRun(states, events, k);
    ReturnCodeIsKept(states[k], events[k], t);
  }

  /** While a woken thread has not run, its code stays, up to and including the moment it runs. */
  lemma {:induction false} CodeStaysUntilItRuns(states: seq<State>, events: seq<Event>, i: nat, j: nat, t: Tid)
    requires IsRun(states, events) && i <= j < |states| && t in states[i].threads
    requires forall k :: i <= k < j ==> states[k].Is(t, Ready)
    ensures SameCode(states[i], states[j], t)
    decreases j
  {
    if i < j {
      CodeStaysUntilItRuns(states, events, i, j - 1, t);
      StepOfRunKeepsCode(states, events, j - 1, t);
    }
  }

  lemma WaitsUntil(states: seq<State>, events: seq<Event>, i: nat, j: nat, q: Qid, timeout: Option<nat>)
    requires IsRun(states, events) && i < j < |states| && events[i] == DoBlock(q, timeout) && timeout != Some(0)
    requires forall m :: i < m < j ==> Ending(states[m], events[m], states[i].current, q,
              TimeoutOf(states[i], timeout)) == None
    ensures Waiting(states[j], states[i].current, q, TimeoutOf(states[i], timeout))
  {
    StepOfRun(states, events, i);
    BlockStartsWait(states[i], q, timeout);
    StaysWaiting(states, events, i + 1, j, states[i].current, q, TimeoutOf(states[i], timeout));
  }

  /** A wait ends once, and the first thing that ends it decides: a thread that blocks at step i, whose
      wait is first ended at step j, and that is not switched to before state k, has in state k the code
      of what happened at step j, whatever else came after. With that code wait_queue_block returns. */
  lemma FirstEndingDecides(states: seq<State>, events: seq<Event>, i: nat, j: nat, k: nat, q: Qid, timeout: Option<nat>)
    requires IsRun(states, events) && i < j < k < |states| && events[i] == DoBlock(q, timeout) && timeout != Some(0)
    requires var t, timer := states[i].current, TimeoutOf(states[i], timeout);
      && (forall m :: i < m < j ==> Ending(states[m], events[m], t, q, timer) == None)
      && Ending(states[j], events[j], t, q, timer).Some?
      && (forall m :: j < m < k ==> states[m].Is(t, Ready))
    ensures var t, timer := states[i].current, TimeoutOf(states[i], timeout);
      && Woken(states[j + 1], t, Ending(states[j], events[j], t, q, timer).value)
      && t in states[k].threads && states[k].threads[t].blockRet == Ending(states[j], events[j], t, q, timer).value
  {
    var t, timer := states[i].current, TimeoutOf(states[i], timeout);
    WaitsUntil(states, events, i, j, q, timeout);
    WaitStepOfRun(states, events, j, t, q, timer);
    CodeStaysUntilItRuns(states, events, j + 1, k, t);
  }
}
