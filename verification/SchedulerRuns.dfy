/** The scheduler as a step system, and its invariant over every run (kernel/thread.c,
    kernel/wait_queue.c, kernel/timer.c). */
module KernelSchedulerRuns {
  import opened Common
  import opened KernelTimer
  import opened KernelTimerTick
  import opened KernelSchedulerState
  import opened KernelSchedulerSteps
  import opened KernelSchedulerTick

  datatype Event =
    | DoCreate(priority: nat) | DoResume(tid: Tid, intsDisabled: bool) | DoYield | DoPreempt
    | DoSleep(delay: nat) | DoExit(retcode: int) | DoDetach(tid: Tid) | DoFree(tid: Tid) | DoBecomeIdle
    | DoBlock(q: Qid, timeout: Option<nat>) | DoWakeOne(q: Qid, reschedule: bool, error: int)
    | DoWakeAll(q: Qid, reschedule: bool, error: int)
    | DoDriver(act: Action) | DoClock(now: nat) | DoTick(now: nat, react: Callbacks)

  /** When the source allows the call: its assertions, live thread ids, and no sleeping, blocking or
      exiting idle thread. */
  ghost predicate Allowed(s: State, e: Event) {
    match e
    case DoCreate(priority) => priority < NUM_PRIORITY
    case DoResume(t, _) => t in s.threads && t != IDLE && s.threads[t].phase != Death
    case DoSleep(_) => s.current != IDLE
    case DoExit(_) => s.current != IDLE
    case DoDetach(t) => t in s.threads && t != IDLE && s.threads[t].phase != Death
    case DoFree(t) => t in s.free || (s.Is(t, Death) && !s.threads[t].detached)
    case DoBecomeIdle => s.current == IDLE
    case DoBlock(q, _) => s.current != IDLE && CanWaitOn(s, q)
    case DoWakeOne(_, reschedule, _) => s.current in s.threads && !(reschedule && s.threads[s.current].idle)
    case DoWakeAll(_, reschedule, _) => s.current in s.threads && !(reschedule && s.threads[s.current].idle)
    case DoDriver(act) => act.id.Driver? && (act.Set? ==> !Queued(s.timers, act.id))
    case DoClock(now) => now >= s.now
    case DoTick(now, react) => now >= s.now && FromDrivers(react)
    case _ => true
  }

  lemma InvBounds(s: State)
    requires Inv(s)
    ensures |s.runQueue| == NUM_PRIORITY && s.current in s.threads
    ensures forall t <- s.threads :: s.threads[t].priority < |s.runQueue|
  {
  }

  ghost function Step(s: State, e: Event): State
    requires Inv(s) && Allowed(s, e)
  {
    InvBounds(s);
    match e
    case DoCreate(priority) => Create(s, priority)
    case DoResume(t, ints) => Resume(s, t, ints)
    case DoYield => Yield(s)
    case DoPreempt => Preempt(s)
    case DoSleep(delay) => Sleep(s, delay)
    case DoExit(retcode) => Exit(s, retcode)
    case DoDetach(t) => Detach(s, t)
    case DoFree(t) => Retire(s, t)
    case DoBecomeIdle => BecomeIdle(s)
    case DoBlock(q, timeout) => Block(s, q, timeout)
    case DoWakeOne(q, r, error) => WakeOne(s, q, r, error)
    case DoWakeAll(q, r, error) => WakeAll(s, q, r, error).0
    case DoDriver(act) => s.(timers := Perform(s.timers, act, s.now))
    case DoClock(now) => s.(now := now)
    case DoTick(now, react) => Tick(s, now, react)
  }

  lemma DriverOk(s: State, act: Action)
    requires Inv(s) && act.id.Driver?
    ensures Inv(s.(timers := Perform(s.timers, act, s.now)))
  {
    var s' := s.(timers := Perform(s.timers, act, s.now));
    DriverActOk(s.threads, s.timers, act, s.now);
  }

  lemma StepOk(s: State, e: Event)
    requires Inv(s) && Allowed(s, e)
    ensures Inv(Step(s, e))
  {
    match e
    case DoCreate(priority) => CreateOk(s, priority);
    case DoResume(t, ints) => ResumeOk(s, t, ints);
    case DoYield => YieldOk(s);
    case DoPreempt => PreemptOk(s);
    case DoSleep(delay) => SleepOk(s, delay);
    case DoExit(retcode) => ExitOk(s, retcode);
    case DoDetach(t) => DetachOk(s, t);
    case DoFree(t) => if t in s.free { RetireFree(s, t); } else { JoinOk(s, t); }
    case DoBecomeIdle => BecomeIdleOk(s);
    case DoBlock(q, timeout) => BlockOk(s, q, timeout);
    case DoWakeOne(q, r, error) => WakeOneOk(s, q, r, error);
    case DoWakeAll(q, r, error) => WakeAllOk(s, q, r, error);
    case DoDriver(act) => DriverOk(s, act);
    case DoClock(now) => ClockIsFree(s, now);
    case DoTick(now, react) => TickOk(s, now, react);
  }

  /** thread_init_early: the boot thread runs, every other slot is free. */
  function Initial(slots: seq<Tid>): State {
    State(map[IDLE := Thread(Running, HIGHEST_PRIORITY, 0, false, true, None, NO_ERR, 0)], slots,
          seq(NUM_PRIORITY, _ => []), {}, IDLE, map[], [], 0)
  }

  lemma InitialOk(slots: seq<Tid>)
    requires NoDup(slots) && IDLE !in slots
    ensures Inv(Initial(slots))
  {
  }

  /** One allowed step; Step is defined on the states the invariant holds in, and no others occur. */
  ghost predicate Follows(s: State, e: Event, s': State) {
    Inv(s) ==> Allowed(s, e) && s' == Step(s, e)
  }

  /** `states` is a run of the scheduler under `events`. */
  ghost predicate IsRun(states: seq<State>, events: seq<Event>) {
    && |states| == |events| + 1 && NoDup(states[0].free) && IDLE !in states[0].free &&
      states[0] == Initial(states[0].free)
    && forall i :: 0 <= i < |events| ==> Follows(states[i], events[i], states[i + 1])
  }

  /** The invariant holds in every state of every run. */
  lemma {:induction false} EveryRunKeepsInv(states: seq<State>, events: seq<Event>, i: nat)
    requires IsRun(states, events) && i < |states|
    ensures Inv(states[i])
  {
    if i == 0 {
      InitialOk(states[0].free);
    } else {
      var k := i - 1;
      EveryRunKeepsInv(states, events, k);
      assert Follows(states[k], events[k], states[k + 1]);
      StepOk(states[k], events[k]);
    }
  }
}
