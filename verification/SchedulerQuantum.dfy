/** The quantum of a thread over a whole run: five ticks once it has used up its last one, and thread_timer_tick
    asks for rescheduling when they are over (kernel/thread.c). */
module KernelSchedulerQuantum {
  import opened Common
  import opened KernelTimer
  import opened KernelTimerTick
  import opened KernelSchedulerState
  import opened KernelSchedulerOps
  import opened KernelSchedulerSteps
  import opened KernelSchedulerTick
  import opened KernelSchedulerRuns
  import opened KernelSchedulerWait
  import opened KernelSchedulerOutcomes

  ghost predicate SameQuantum(s: State, s': State, t: Tid) {
    t in s.threads && t in s'.threads && s'.threads[t].quantum == s.threads[t].quantum
  }

  /** Whether the operation makes its caller give up the rest of its quantum. */
  predicate Spends(s: State, e: Event) {
    e == DoYield || e == DoBecomeIdle || (e.DoResume? && s.Is(e.tid, Suspended) && !e.intsDisabled)
  }

  /** What is left of the quantum of `t`: it is spent, or a tick is taken from it. */
  ghost function Left(s: State, e: Event, t: Tid): int
    requires t in s.threads
  {
    if Spends(s, e) && t == s.current then 0
    else s.threads[t].quantum - if e.DoTick? && t == s.current then 1 else 0
  }

  // ---------------------------------------------------------------- the switch

  /** `t` has what was left, and five if nothing was and it has been switched to; `c` ran before. */
  predicate Carried(c: Tid, left: int, s': State, t: Tid) {
    t in s'.threads ==> s'.threads[t].quantum == if s'.current == t && c != t && left <= 0 then 5 else left
  }

  /** What the switch needs. */
  ghost predicate CanSwitch(m: State) { BitmapOk(m.runQueue, m.bitmap) && PickNext(m).0 in m.threads }

  lemma ParkedCanSwitch(m: State)
    requires Parked(m)
    ensures CanSwitch(m)
  {
    PickNextIsReady(m);
  }

  lemma SwitchCarries(m: State, c: Tid, left: int, t: Tid)
    requires CanSwitch(m) && m.current == c && (t in m.threads ==> m.threads[t].quantum == left)
    ensures Carried(c, left, Resched(m), t)
  {
    PickNextQueued(m);
    assert PickNext(m).1.threads == m.threads && PickNext(m).1.current == m.current;
  }

  // ---------------------------------------------------------------- each operation

  lemma {:induction false} ReleaseAllQuantum(s: State, q: Qid, error: int, t: Tid)
    requires t in s.threads
    ensures SameQuantum(s, ReleaseAll(s, q, error), t) && ReleaseAll(s, q, error).current == s.current
    decreases |s.Queue(q).list|
  {
    var w := s.Queue(q);
    if w.list != [] && w.list[0] in s.threads && s.threads[w.list[0]].priority < |s.runQueue| {
      ReleaseAllQuantum(Release(s, q, 0, error), q, error, t);
    }
  }

  lemma {:induction false} FireDueQuantum(s: State, react: Callbacks, t: Tid)
    requires t in s.threads
    ensures SameQuantum(s, FireDue(s, react), t)
    decreases |Due(s.timers, s.now)|
  {
    if s.timers != [] && s.timers[0].sched <= s.now {
      RoundIsShorter(s, react);
      FireDueQuantum(Round(s, react), react, t);
    }
  }

  /** A tick is taken from the quantum of the running thread, and from no other. */
  lemma TickQuantum(s: State, now: nat, react: Callbacks, t: Tid)
    requires Inv(s) && FromDrivers(react) && t in s.threads
    ensures var s' := Tick(s, now, react);
      && t in s'.threads && s'.current == s.current
      && s'.threads[t].quantum == s.threads[t].quantum - if t == s.current then 1 else 0
  {
    TickFires(s, now, react);
    FireDueQuantum(s.(now := now), react, t);
  }

  lemma YieldParksCanSwitch(s: State)
    requires Inv(s)
    ensures s.threads[s.current].priority < |s.runQueue|
    ensures CanSwitch(Park(s)) && CanSwitch(Park(s.With(s.current, s.threads[s.current].(quantum := 0))))
  {
    YieldParks(s);
    ParkOk(s);
    ParkedCanSwitch(Park(s));
    ParkedCanSwitch(Park(s.With(s.current, s.threads[s.current].(quantum := 0))));
  }

  lemma YieldCarries(s: State, t: Tid)
    requires s.current in s.threads && s.threads[s.current].priority < |s.runQueue| && t in s.threads
    requires CanSwitch(Park(s)) && CanSwitch(Park(s.With(s.current, s.threads[s.current].(quantum := 0))))
    ensures Carried(s.current, if t == s.current then 0 else s.threads[t].quantum, Yield(s), t)
    ensures Carried(s.current, s.threads[t].quantum, Preempt(s), t)
  {
    var m := s.With(s.current, s.threads[s.current].(quantum := 0));
    SwitchCarries(Park(m), s.current, if t == s.current then 0 else s.threads[t].quantum, t);
    SwitchCarries(Park(s), s.current, s.threads[t].quantum, t);
  }

  lemma YieldQuantum(s: State, t: Tid)
    requires Inv(s) && t in s.threads
    ensures s.threads[s.current].priority < |s.runQueue|
    ensures Carried(s.current, if t == s.current then 0 else s.threads[t].quantum, Yield(s), t)
    ensures Carried(s.current, s.threads[t].quantum, Preempt(s), t)
  {
    YieldParksCanSwitch(s);
    YieldCarries(s, t);
  }

  lemma ResumeQuantum(s: State, u: Tid, intsDisabled: bool, t: Tid)
    requires Inv(s) && u in s.threads && t in s.threads
    ensures s.threads[s.current].priority < |s.runQueue| && s.threads[u].priority < |s.runQueue|
    ensures var spends := s.threads[u].phase == Suspended && !intsDisabled;
      Carried(s.current, if spends && t == s.current then 0 else s.threads[t].quantum, Resume(s, u, intsDisabled), t)
  {
    InvBounds(s);
    if s.threads[u].phase == Suspended {
      ResumedIsQueued(s, u);
      YieldQuantum(MakeReady(s, u), t);
    }
  }

  lemma SleepQuantum(s: State, delay: nat, t: Tid)
    requires Inv(s) && s.current != IDLE && t in s.threads
    ensures Carried(s.current, s.threads[t].quantum, Sleep(s, delay), t)
  {
    SleepParks(s, delay);
    ParkedCanSwitch(FallAsleep(s, delay));
    SwitchCarries(FallAsleep(s, delay), s.current, s.threads[t].quantum, t);
  }

  lemma BlockQuantum(s: State, q: Qid, timeout: Option<nat>, t: Tid)
    requires Inv(s) && s.current != IDLE && CanWaitOn(s, q) && t in s.threads
    ensures Carried(s.current, s.threads[t].quantum, Block(s, q, timeout), t)
  {
    if timeout != Some(0) {
      EnterWaitOk(s, q, timeout);
      ParkedCanSwitch(EnterWait(s, q, timeout));
      SwitchCarries(EnterWait(s, q, timeout), s.current, s.threads[t].quantum, t);
    }
  }

  lemma DieQuantum(s: State, retcode: int, t: Tid)
    requires s.current in s.threads && t in s.threads
    ensures var m := Die(s, retcode);
      m.current == s.current && (t in m.threads ==> m.threads[t].quantum == s.threads[t].quantum)
  {
    if !s.threads[s.current].detached {
      ReleaseAllQuantum(s.With(s.current, s.threads[s.current].(phase := Death, retcode := retcode)),
        ExitOf(s.current), 0, t);
    }
  }

  lemma ExitQuantum(s: State, retcode: int, t: Tid)
    requires Inv(s) && s.current != IDLE && t in s.threads
    ensures Carried(s.current, s.threads[t].quantum, Exit(s, retcode), t)
  {
    DieParks(s, retcode);
    ParkedCanSwitch(Die(s, retcode));
    DieQuantum(s, retcode, t);
    SwitchCarries(Die(s, retcode), s.current, s.threads[t].quantum, t);
  }

  lemma BecomeIdleQuantum(s: State, t: Tid)
    requires Inv(s) && s.current == IDLE && t in s.threads
    ensures |s.runQueue| > 0
    ensures Carried(s.current, if t == s.current then 0 else s.threads[t].quantum, BecomeIdle(s), t)
  {
    MayBecomeIdle(s);
    YieldQuantum(s.With(s.current, s.threads[s.current].(priority := IDLE_PRIORITY, idle := true)), t);
  }

  lemma WakeOneParks(s: State, q: Qid, error: int)
    requires Inv(s) && !s.threads[s.current].idle && s.Queue(q).list != []
    ensures s.threads[s.current].priority < |s.runQueue|
    ensures var m, u := MakeReady(s, s.current), s.Queue(q).list[0];
      && m.Queue(q).list == s.Queue(q).list && u in m.threads && m.threads[u].priority < |m.runQueue|
      && CanSwitch(Release(m, q, 0, error))
  {
    var m := MakeReady(s, s.current);
    RunningHasNoTimer(s);
    MakeReadyOk(s, s.current);
    WakeOneFrom(m, q, error);
    ParkedCanSwitch(Release(m, q, 0, error));
  }

  lemma WakeOneCarries(s: State, q: Qid, error: int, t: Tid)
    requires s.current in s.threads && s.threads[s.current].priority < |s.runQueue| && t in s.threads
    requires var m := MakeReady(s, s.current);
      && s.Queue(q).list != [] && m.Queue(q).list == s.Queue(q).list && s.Queue(q).list[0] in m.threads
      && m.threads[s.Queue(q).list[0]].priority < |m.runQueue| && CanSwitch(Release(m, q, 0, error))
    ensures Carried(s.current, s.threads[t].quantum, WakeOne(s, q, true, error), t)
  {
    var r := Release(MakeReady(s, s.current), q, 0, error);
    assert r.current == s.current && r.threads[t].quantum == s.threads[t].quantum;
    SwitchCarries(r, s.current, s.threads[t].quantum, t);
  }

  lemma WakeOneQuantum(s: State, q: Qid, reschedule: bool, error: int, t: Tid)
    requires Inv(s) && !(reschedule && s.threads[s.current].idle) && t in s.threads
    ensures s.threads[s.current].priority < |s.runQueue|
    ensures Carried(s.current, s.threads[t].quantum, WakeOne(s, q, reschedule, error), t)
  {
    InvBounds(s);
    if s.Queue(q).list != [] {
      if reschedule {
        WakeOneParks(s, q, error);
        WakeOneCarries(s, q, error, t);
      } else {
        WakeOneFrom(s, q, error);
      }
    }
  }

  lemma WakeAllQuantum(s: State, q: Qid, reschedule: bool, error: int, t: Tid)
    requires Inv(s) && !(reschedule && s.threads[s.current].idle) && t in s.threads
    ensures s.threads[s.current].priority < |s.runQueue|
    ensures Carried(s.current, s.threads[t].quantum, WakeAll(s, q, reschedule, error).0, t)
  {
    InvBounds(s);
    CountIsNumberWoken(s, q, reschedule, error);
    if reschedule && s.Queue(q).count > 0 {
      var m := MakeReady(s, s.current);
      RunningHasNoTimer(s);
      MakeReadyOk(s, s.current);
      WakeAllParks(m, q, error);
      ParkedCanSwitch(ReleaseAll(m, q, error));
      ReleaseAllQuantum(m, q, error, t);
      SwitchCarries(ReleaseAll(m, q, error), s.current, s.threads[t].quantum, t);
    } else {
      ReleaseAllQuantum(s, q, error, t);
    }
  }

  lemma DetachQuantum(s: State, u: Tid, t: Tid)
    requires t in s.threads
    ensures SameQuantum(s, Detach(s, u), t) && Detach(s, u).current == s.current
  {
    ReleaseAllQuantum(s, ExitOf(u), ERR_THREAD_DETACHED, t);
  }

  lemma CreateQuantum(s: State, priority: nat, t: Tid)
    requires Inv(s) && t in s.threads
    ensures SameQuantum(s, Create(s, priority), t) && Create(s, priority).current == s.current
  {
    if s.free != [] { assert s.free[0] in s.free; }
  }

  lemma YieldStep(s: State, t: Tid)
    requires Inv(s) && Allowed(s, DoYield) && t in s.threads
    ensures Carried(s.current, Left(s, DoYield, t), Step(s, DoYield), t)
  {
    YieldQuantum(s, t);
  }

  lemma PreemptStep(s: State, t: Tid)
    requires Inv(s) && Allowed(s, DoPreempt) && t in s.threads
    ensures Carried(s.current, Left(s, DoPreempt, t), Step(s, DoPreempt), t)
  {
    YieldQuantum(s, t);
  }

  lemma BecomeIdleStep(s: State, t: Tid)
    requires Inv(s) && Allowed(s, DoBecomeIdle) && t in s.threads
    ensures Carried(s.current, Left(s, DoBecomeIdle, t), Step(s, DoBecomeIdle), t)
  {
    BecomeIdleQuantum(s, t);
  }

  lemma ResumeStep(s: State, u: Tid, intsDisabled: bool, t: Tid)
    requires Inv(s) && Allowed(s, DoResume(u, intsDisabled)) && t in s.threads
    ensures Carried(s.current, Left(s, DoResume(u, intsDisabled), t), Step(s, DoResume(u, intsDisabled)), t)
  {
    ResumeQuantum(s, u, intsDisabled, t);
  }

  lemma TickStep(s: State, now: nat, react: Callbacks, t: Tid)
    requires Inv(s) && Allowed(s, DoTick(now, react)) && t in s.threads
    ensures Carried(s.current, Left(s, DoTick(now, react), t), Step(s, DoTick(now, react)), t)
  {
    TickQuantum(s, now, react, t);
  }

  lemma SleepStep(s: State, delay: nat, t: Tid)
    requires Inv(s) && Allowed(s, DoSleep(delay)) && t in s.threads
    ensures Carried(s.current, Left(s, DoSleep(delay), t), Step(s, DoSleep(delay)), t)
  {
    SleepQuantum(s, delay, t);
  }

  lemma ExitStep(s: State, retcode: int, t: Tid)
    requires Inv(s) && Allowed(s, DoExit(retcode)) && t in s.threads
    ensures Carried(s.current, Left(s, DoExit(retcode), t), Step(s, DoExit(retcode)), t)
  {
    ExitQuantum(s, retcode, t);
  }

  lemma BlockStep(s: State, q: Qid, timeout: Option<nat>, t: Tid)
    requires Inv(s) && Allowed(s, DoBlock(q, timeout)) && t in s.threads
    ensures Carried(s.current, Left(s, DoBlock(q, timeout), t), Step(s, DoBlock(q, timeout)), t)
  {
    BlockQuantum(s, q, timeout, t);
  }

  lemma WakeOneStep(s: State, q: Qid, reschedule: bool, error: int, t: Tid)
    requires Inv(s) && Allowed(s, DoWakeOne(q, reschedule, error)) && t in s.threads
    ensures Carried(s.current, Left(s, DoWakeOne(q, reschedule, error), t), Step(s, DoWakeOne(q, reschedule, error)), t)
  {
    WakeOneQuantum(s, q, reschedule, error, t);
  }

  lemma WakeAllStep(s: State, q: Qid, reschedule: bool, error: int, t: Tid)
    requires Inv(s) && Allowed(s, DoWakeAll(q, reschedule, error)) && t in s.threads
    ensures Carried(s.current, Left(s, DoWakeAll(q, reschedule, error), t), Step(s, DoWakeAll(q, reschedule, error)), t)
  {
    WakeAllQuantum(s, q, reschedule, error, t);
  }

  lemma DetachStep(s: State, u: Tid, t: Tid)
    requires Inv(s) && Allowed(s, DoDetach(u)) && t in s.threads
    ensures Carried(s.current, Left(s, DoDetach(u), t), Step(s, DoDetach(u)), t)
  {
    DetachQuantum(s, u, t);
  }

  lemma CreateStep(s: State, priority: nat, t: Tid)
    requires Inv(s) && Allowed(s, DoCreate(priority)) && t in s.threads
    ensures Carried(s.current, Left(s, DoCreate(priority), t), Step(s, DoCreate(priority)), t)
  {
    CreateQuantum(s, priority, t);
  }

  lemma RestStep(s: State, e: Event, t: Tid)
    requires Inv(s) && Allowed(s, e) && t in s.threads && (e.DoFree? || e.DoDriver? || e.DoClock?)
    ensures Carried(s.current, Left(s, e, t), Step(s, e), t)
  {
  }

  /** In every operation a thread keeps what is left of its quantum, and one that is switched to with nothing left
      gets five. */
  lemma StepQuantum(s: State, e: Event, t: Tid)
    requires Inv(s) && Allowed(s, e) && t in s.threads
    ensures Carried(s.current, Left(s, e, t), Step(s, e), t)
  {
    match e
    case DoYield => YieldStep(s, t);
    case DoPreempt => PreemptStep(s, t);
    case DoBecomeIdle => BecomeIdleStep(s, t);
    case DoResume(u, ints) => ResumeStep(s, u, ints, t);
    case DoTick(now, react) => TickStep(s, now, react, t);
    case DoSleep(delay) => SleepStep(s, delay, t);
    case DoExit(retcode) => ExitStep(s, retcode, t);
    case DoBlock(q, timeout) => BlockStep(s, q, timeout, t);
    case DoWakeOne(q, r, error) => WakeOneStep(s, q, r, error, t);
    case DoWakeAll(q, r, error) => WakeAllStep(s, q, r, error, t);
    case DoDetach(u) => DetachStep(s, u, t);
    case DoCreate(priority) => CreateStep(s, priority, t);
    case _ => RestStep(s, e, t);
  }

  // ---------------------------------------------------------------- every run

  /** The number of ticks between two states of a run. */
  function Ticks(events: seq<Event>, a: nat, b: nat): nat
    requires a <= b <= |events|
  {
    if a == b then 0 else Ticks(events, a, b - 1) + if events[b - 1].DoTick? then 1 else 0
  }

  lemma QuantumStepOfRun(states: seq<State>, events: seq<Event>, k: nat, t: Tid)
    requires IsRun(states, events) && k < |events| && t in states[k].threads
    ensures Carried(states[k].current, Left(states[k], events[k], t), states[k + 1], t)
  {
    StepOfRun(states, events, k);
    StepQuantum(states[k], events[k], t);
  }

  lemma CurrentIsThread(states: seq<State>, events: seq<Event>, k: nat)
    requires IsRun(states, events) && k < |states|
    ensures states[k].current in states[k].threads
  {
    EveryRunKeepsInv(states, events, k);
  }

  /** In every run a thread that is switched to with its quantum used up has five ticks: as long as it runs and does
      not spend them itself, what is left is five less the ticks since. */
  lemma {:induction false} RunsFiveTicks(states: seq<State>, events: seq<Event>, a: nat, b: nat, t: Tid)
    requires IsRun(states, events) && a < b < |states|
    requires t in states[a].threads && states[a].current != t && states[a].threads[t].quantum <= 0
    requires !events[a].DoTick? && forall k :: a < k <= b ==> states[k].current == t
    requires forall k :: a < k < b ==> !Spends(states[k], events[k])
    ensures t in states[b].threads && states[b].threads[t].quantum == 5 - Ticks(events, a + 1, b)
    decreases b
  {
    CurrentIsThread(states, events, b);
    if b == a + 1 {
      QuantumStepOfRun(states, events, a, t);
    } else {
      RunsFiveTicks(states, events, a, b - 1, t);
      QuantumStepOfRun(states, events, b - 1, t);
    }
  }
}
