/** Turns: how long a ready thread can be passed over. Every switch brings it one place forward in its
    run queue as long as nobody with a lower number is about (kernel/thread.c). */
module KernelSchedulerTurn {
  import opened Common
  import opened KernelTimer
  import opened KernelTimerTick
  import opened KernelSchedulerState
  import opened KernelSchedulerOps
  import opened KernelSchedulerSteps
  import opened KernelSchedulerTick
  import opened KernelSchedulerRuns
  import opened KernelSchedulerWait

  /** Thread `t` has `i` others in front of it in run queue `p`. */
  predicate QueuedAt(s: State, t: Tid, p: nat, i: nat) {
    p < |s.runQueue| && i < |s.runQueue[p]| && s.runQueue[p][i] == t
  }

  /** No thread but the idle thread is ready or runs with a number below `p`. */
  ghost predicate NobodyBelow(s: State, p: nat) {
    forall u <- s.threads :: s.threads[u].phase in {Ready, Running} && !s.threads[u].idle ==> s.threads[u].priority >= p
  }

  /** Each pick is of the first in the queue. */
  lemma ReschedTurn(s: State, t: Tid, p: nat, i: nat)
    requires Parked(s) && QueuedAt(s, t, p, i) && NobodyBelow(Resched(s), p)
    ensures if i == 0 then Resched(s).current == t else QueuedAt(Resched(s), t, p, i - 1)
  {
    var q := Lowest(s.bitmap, 0);
    assert p in s.bitmap;
    PickNextQueued(s);
    DequeueIsReady(s, q);
    ReschedSwitches(s);
  }

  // ---------------------------------------------------------------- queues only grow at their end

  ghost predicate Prefixed(s: State, s': State) {
    |s'.runQueue| == |s.runQueue| && forall k :: 0 <= k < |s.runQueue| ==> s.runQueue[k] <= s'.runQueue[k]
  }

  lemma MakeReadyAppends(s: State, u: Tid)
    requires u in s.threads && s.threads[u].priority < |s.runQueue|
    ensures Prefixed(s, MakeReady(s, u))
  {
  }

  lemma {:induction false} ReleaseAllAppends(s: State, q: Qid, error: int)
    ensures Prefixed(s, ReleaseAll(s, q, error))
    decreases |s.Queue(q).list|
  {
    var w := s.Queue(q);
    if w.list != [] && w.list[0] in s.threads && s.threads[w.list[0]].priority < |s.runQueue| {
      ReleaseAllAppends(Release(s, q, 0, error), q, error);
    }
  }

  lemma RoundAppends(s: State, react: Callbacks)
    requires s.timers != []
    ensures Prefixed(s, Round(s, react))
  {
  }

  lemma {:induction false} FireDueAppends(s: State, react: Callbacks)
    ensures Prefixed(s, FireDue(s, react))
    decreases |Due(s.timers, s.now)|
  {
    if s.timers != [] && s.timers[0].sched <= s.now {
      RoundIsShorter(s, react);
      RoundAppends(s, react);
      FireDueAppends(Round(s, react), react);
    }
  }

  // ---------------------------------------------------------------- one step

  /** `s'` follows `s` in one step in which `t` stays at its place and nobody is switched to, or moves
      forward, or runs. */
  ghost predicate Advances(s: State, s': State, t: Tid, p: nat, i: nat) {
    || s'.current == t
    || (s'.current == s.current && QueuedAt(s', t, p, i))
    || (i > 0 && QueuedAt(s', t, p, i - 1))
  }

  lemma SwitchAdvances(s: State, m: State, t: Tid, p: nat, i: nat)
    requires Parked(m) && Prefixed(s, m) && QueuedAt(s, t, p, i) && NobodyBelow(Resched(m), p)
    ensures Advances(s, Resched(m), t, p, i)
  {
    ReschedTurn(m, t, p, i);
  }

  lemma ParkAdvances(s: State, m: State, t: Tid, p: nat, i: nat)
    requires Inv(m) && m.runQueue == s.runQueue && QueuedAt(s, t, p, i)
    ensures m.threads[m.current].priority < |m.runQueue|
    ensures NobodyBelow(Preempt(m), p) ==> Advances(s, Preempt(m), t, p, i)
    ensures NobodyBelow(Yield(m), p) ==> Advances(s, Yield(m), t, p, i)
  {
    ParkOk(m);
    YieldParks(m);
    if NobodyBelow(Preempt(m), p) { SwitchAdvances(s, Park(m), t, p, i); }
    if NobodyBelow(Yield(m), p) {
      SwitchAdvances(s, Park(m.With(m.current, m.threads[m.current].(quantum := 0))), t, p, i);
    }
  }

  lemma ResumeAdvances(s: State, u: Tid, intsDisabled: bool, t: Tid, p: nat, i: nat)
    requires Inv(s) && u in s.threads && QueuedAt(s, t, p, i)
    ensures s.threads[s.current].priority < |s.runQueue| && s.threads[u].priority < |s.runQueue|
    ensures NobodyBelow(Resume(s, u, intsDisabled), p) ==> Advances(s, Resume(s, u, intsDisabled), t, p, i)
  {
    InvBounds(s);
    if s.threads[u].phase == Suspended {
      ResumedIsQueued(s, u);
      MakeReadyAppends(s, u);
      ParkAdvances(MakeReady(s, u), MakeReady(s, u), t, p, i);
    }
  }

  lemma DieAdvances(s: State, retcode: int, t: Tid, p: nat, i: nat)
    requires Inv(s) && s.current != IDLE && QueuedAt(s, t, p, i) && NobodyBelow(Exit(s, retcode), p)
    ensures Advances(s, Exit(s, retcode), t, p, i)
  {
    DieParks(s, retcode);
    if !s.threads[s.current].detached {
      ReleaseAllAppends(s.With(s.current, s.threads[s.current].(phase := Death, retcode := retcode)),
        ExitOf(s.current), 0);
    }
    SwitchAdvances(s, Die(s, retcode), t, p, i);
  }

  lemma WakeAndSwitchAdvances(s: State, q: Qid, error: int, t: Tid, p: nat, i: nat)
    requires Inv(s) && !s.threads[s.current].idle && QueuedAt(s, t, p, i) && s.Queue(q).list != []
    ensures s.threads[s.current].priority < |s.runQueue|
    ensures NobodyBelow(WakeOne(s, q, true, error), p) ==> Advances(s, WakeOne(s, q, true, error), t, p, i)
  {
    InvBounds(s);
    RunningHasNoTimer(s);
    MakeReadyOk(s, s.current);
    var s1 := MakeReady(s, s.current);
    MakeReadyAppends(s, s.current);
    WakeOneFrom(s1, q, error);
    if NobodyBelow(WakeOne(s, q, true, error), p) { SwitchAdvances(s, Release(s1, q, 0, error), t, p, i); }
  }

  lemma WakeOneAdvances(s: State, q: Qid, reschedule: bool, error: int, t: Tid, p: nat, i: nat)
    requires Inv(s) && !(reschedule && s.threads[s.current].idle) && QueuedAt(s, t, p, i)
    ensures s.threads[s.current].priority < |s.runQueue|
    ensures NobodyBelow(WakeOne(s, q, reschedule, error), p) ==>
              Advances(s, WakeOne(s, q, reschedule, error), t, p, i)
  {
    InvBounds(s);
    if s.Queue(q).list != [] {
      if reschedule { WakeAndSwitchAdvances(s, q, error, t, p, i); } else { WakeOneFrom(s, q, error); }
    }
  }

  lemma WakeAllAdvances(s: State, q: Qid, reschedule: bool, error: int, t: Tid, p: nat, i: nat)
    requires Inv(s) && !(reschedule && s.threads[s.current].idle) && QueuedAt(s, t, p, i)
    ensures s.threads[s.current].priority < |s.runQueue|
    ensures NobodyBelow(WakeAll(s, q, reschedule, error).0, p) ==>
              Advances(s, WakeAll(s, q, reschedule, error).0, t, p, i)
  {
    CountIsNumberWokenHere(s, q, reschedule, error);
    if NobodyBelow(WakeAll(s, q, reschedule, error).0, p) {
      if reschedule && s.Queue(q).count > 0 {
        RunningHasNoTimer(s);
        MakeReadyOk(s, s.current);
        MakeReadyAppends(s, s.current);
        ReleaseAllAppends(MakeReady(s, s.current), q, error);
        WakeAllParks(MakeReady(s, s.current), q, error);
        SwitchAdvances(s, ReleaseAll(MakeReady(s, s.current), q, error), t, p, i);
      } else {
        ReleaseAllAppends(s, q, error);
        WakeAllQuietly(s, q, error);
      }
    }
  }

  lemma CountIsNumberWokenHere(s: State, q: Qid, reschedule: bool, error: int)
    requires Inv(s)
    ensures s.threads[s.current].priority < |s.runQueue|
    ensures s.Queue(q).count > 0 <==> WakeAll(s, q, reschedule, error).1 > 0
  {
    InvBounds(s);
    CountIsNumberWoken(s, q, reschedule, error);
  }

  lemma TickAdvances(s: State, now: nat, react: Callbacks, t: Tid, p: nat, i: nat)
    requires Inv(s) && FromDrivers(react) && QueuedAt(s, t, p, i)
    ensures Advances(s, Tick(s, now, react), t, p, i)
  {
    TickFires(s, now, react);
    FireDueAppends(s.(now := now), react);
  }

  lemma DetachAdvances(s: State, u: Tid, t: Tid, p: nat, i: nat)
    requires Core(s) && QueuedAt(s, t, p, i)
    ensures Advances(s, Detach(s, u), t, p, i)
  {
    ReleaseAllOk(s, ExitOf(u), ERR_THREAD_DETACHED);
    ReleaseAllAppends(s, ExitOf(u), ERR_THREAD_DETACHED);
  }

  /** In one step a ready thread with nobody below it is not passed by a switch. */
  lemma StepAdvances(s: State, e: Event, t: Tid, p: nat, i: nat)
    requires Inv(s) && Allowed(s, e) && QueuedAt(s, t, p, i) && NobodyBelow(Step(s, e), p)
    ensures Advances(s, Step(s, e), t, p, i)
  {
    InvBounds(s);
    match e
    case DoResume(u, ints) => ResumeAdvances(s, u, ints, t, p, i);
    case DoYield => ParkAdvances(s, s, t, p, i);
    case DoPreempt => ParkAdvances(s, s, t, p, i);
    case DoSleep(delay) =>
      SleepParks(s, delay);
      SwitchAdvances(s, FallAsleep(s, delay), t, p, i);
    case DoExit(retcode) => DieAdvances(s, retcode, t, p, i);
    case DoDetach(u) => DetachAdvances(s, u, t, p, i);
    case DoBecomeIdle =>
      MayBecomeIdle(s);
      ParkAdvances(s, s.With(s.current, s.threads[s.current].(priority := IDLE_PRIORITY, idle := true)), t, p, i);
    case DoBlock(q, timeout) =>
      if timeout != Some(0) {
        EnterWaitOk(s, q, timeout);
        SwitchAdvances(s, EnterWait(s, q, timeout), t, p, i);
      }
    case DoWakeOne(q, r, error) => WakeOneAdvances(s, q, r, error, t, p, i);
    case DoWakeAll(q, r, error) => WakeAllAdvances(s, q, r, error, t, p, i);
    case DoTick(now, react) => TickAdvances(s, now, react, t, p, i);
    case _ =>
  }

  // ---------------------------------------------------------------- every run

  /** The number of switches to another thread between two states of a run. */
  function Switches(states: seq<State>, a: nat, b: nat): nat
    requires a <= b < |states|
  {
    if a == b then 0
    else Switches(states, a, b - 1) + if states[b].current != states[b - 1].current then 1 else 0
  }

  ghost predicate RanBetween(states: seq<State>, a: nat, b: nat, t: Tid) {
    exists j :: a < j <= b && j < |states| && states[j].current == t
  }

  /** So far `t` has either had its turn or come forward once for every switch. */
  ghost predicate OnItsWay(states: seq<State>, a: nat, b: nat, t: Tid, p: nat, i: nat)
    requires a <= b < |states|
  {
    RanBetween(states, a, b, t) || exists k: nat :: QueuedAt(states[b], t, p, k) && k + Switches(states, a, b) <= i
  }

  lemma StepOfRunAdvances(states: seq<State>, events: seq<Event>, k: nat, t: Tid, p: nat, i: nat)
    requires IsRun(states, events) && k < |events| && QueuedAt(states[k], t, p, i) && NobodyBelow(states[k + 1], p)
    ensures Advances(states[k], states[k + 1], t, p, i)
  {
    StepOfRun(states, events, k);
    StepAdvances(states[k], events[k], t, p, i);
  }

  lemma {:induction false} StillOnItsWay(states: seq<State>, a: nat, b: nat, t: Tid, p: nat, i: nat, k: nat)
    requires a < b < |states| && QueuedAt(states[b - 1], t, p, k) && k + Switches(states, a, b - 1) <= i
    requires Advances(states[b - 1], states[b], t, p, k)
    ensures OnItsWay(states, a, b, t, p, i)
  {
    if states[b].current != t {
      var next := if states[b].current == states[b - 1].current && QueuedAt(states[b], t, p, k) then k else k - 1;
      assert QueuedAt(states[b], t, p, next) && next + Switches(states, a, b) <= i;
    }
  }

  lemma {:induction false} ComesForward(states: seq<State>, events: seq<Event>, a: nat, b: nat, t: Tid, p: nat, i: nat)
    requires IsRun(states, events) && a <= b < |states| && QueuedAt(states[a], t, p, i)
    requires forall k :: a < k <= b ==> NobodyBelow(states[k], p)
    ensures OnItsWay(states, a, b, t, p, i)
    decreases b
  {
    if a < b {
      ComesForward(states, events, a, b - 1, t, p, i);
      if !RanBetween(states, a, b - 1, t) {
        var k: nat :| QueuedAt(states[b - 1], t, p, k) && k + Switches(states, a, b - 1) <= i;
        StepOfRunAdvances(states, events, b - 1, t, p, k);
        StillOnItsWay(states, a, b, t, p, i, k);
      }
    }
  }

  /** In every run, a thread with `i` others before it in its queue runs after at most i + 1 switches, as
      long as no thread with a lower number is ready or runs meanwhile. */
  lemma RunsWithinItsTurn(states: seq<State>, events: seq<Event>, a: nat, b: nat, t: Tid, p: nat, i: nat)
    requires IsRun(states, events) && a <= b < |states| && QueuedAt(states[a], t, p, i)
    requires forall k :: a < k <= b ==> NobodyBelow(states[k], p)
    requires Switches(states, a, b) > i
    ensures exists j :: a < j <= b && states[j].current == t
  {
    ComesForward(states, events, a, b, t, p, i);
  }
}
