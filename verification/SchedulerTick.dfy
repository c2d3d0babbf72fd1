/** The tick: the timers that are due fire, and the running thread's quantum counts down
    (kernel/timer.c, kernel/thread.c, kernel/wait_queue.c). The timer of a thread ends its sleep or its
    wait; the callback of a driver's timer may cancel and set the timers of drivers. */
module KernelSchedulerTick {
  import opened KernelTimer
  import opened KernelTimerTick
  import opened KernelSchedulerState
  import opened KernelSchedulerOps
  import opened KernelSchedulerSteps

  ghost predicate DriverActs(acts: seq<Action>) { forall a <- acts :: a.id.Driver? }

  /** Only drivers have callbacks of their own, and they keep to the timers of drivers. */
  ghost predicate FromDrivers(react: Callbacks) {
    && (forall t: Tid :: react(OfThread(t)) == [])
    && forall n: nat :: DriverActs(react(Driver(n)))
  }

  /** The handlers of threads' timers: thread_sleep_handler and wait_queue_timeout_handler. */
  function Fire(s: State, t: Tid, callback: Callback): State {
    if callback == SleepHandler then
      if s.Is(t, Sleeping) && s.threads[t].priority < |s.runQueue| then MakeReady(s, t) else s
    else Unblock(s, t, ERR_TIMED_OUT)
  }

  function DropTimer(s: State): State
    requires s.timers != []
  {
    s.(timers := s.timers[1..])
  }

  /** One round of the loop of timer_tick. */
  function Round(s: State, react: Callbacks): State
    requires s.timers != []
  {
    var p := s.timers[0];
    match p.id
    case OfThread(t) => Fire(DropTimer(s), t, p.callback)
    case Driver(_) => s.(timers := AfterFire(s.timers[1..], p, react(p.id), s.now))
  }

  lemma RoundIsShorter(s: State, react: Callbacks)
    requires s.timers != [] && s.timers[0].sched <= s.now
    ensures Round(s, react).now == s.now && |Due(Round(s, react).timers, s.now)| < |Due(s.timers, s.now)|
  {
    DueAfterFire(s.timers[1..], s.timers[0], react(s.timers[0].id), s.now);
  }

  /** The loop of timer_tick. */
  function FireDue(s: State, react: Callbacks): State
    decreases |Due(s.timers, s.now)|
  {
    if s.timers == [] || s.timers[0].sched > s.now then s
    else
      RoundIsShorter(s, react);
      FireDue(Round(s, react), react)
  }

  /** thread_timer_tick. */
  function CountDown(s: State): State {
    if s.current in s.threads then s.With(s.current, s.threads[s.current].(quantum := s.threads[s.current].quantum - 1))
      else s
  }

  /** timer_tick with thread_timer_tick. */
  function Tick(s: State, now: nat, react: Callbacks): State {
    CountDown(FireDue(s.(now := now), react))
  }

  // ---------------------------------------------------------------- the timer of a thread

  lemma FirstTimer(s: State)
    requires TimersOk(s) && s.timers != []
    ensures var p := s.timers[0]; TimerFits(s.threads, p) && forall x <- s.timers[1..] :: x in s.timers && x.id != p.id
    ensures Sorted(s.timers[1..]) && DistinctIds(s.timers[1..])
    ensures forall x <- s.timers :: x == s.timers[0] || x in s.timers[1..]
  {
    assert s.timers == [s.timers[0]] + s.timers[1..];
    assert forall i :: 0 <= i < |s.timers[1..]| ==> s.timers[1..][i] == s.timers[i + 1];
  }

  lemma OthersKeepTheirs(s: State, t: Tid)
    requires TimersOk(s) && s.timers != [] && s.timers[0].id == OfThread(t)
    ensures forall u <- s.threads :: u != t && s.threads[u].phase == Sleeping ==> Queued(s.timers[1..], OfThread(u))
  {
    FirstTimer(s);
    forall u <- s.threads | u != t && s.threads[u].phase == Sleeping ensures Queued(s.timers[1..], OfThread(u)) {
      var p :| p in s.timers && p.id == OfThread(u);
    }
  }

  lemma WakeSleeperTimers(s: State, s': State, t: Tid)
    requires TimersOk(s) && s.timers != [] && s.timers[0].id == OfThread(t)
    requires t in s.threads && s'.threads == s.threads[t := s.threads[t].(phase := Ready)]
    requires s'.timers == s.timers[1..]
    ensures TimersOk(s')
  {
    FirstTimer(s);
    OthersKeepTheirs(s, t);
  }

  lemma WakeSleeperOk(s: State, t: Tid)
    requires Core(s) && s.timers != [] && s.timers[0].id == OfThread(t) && s.timers[0].callback == SleepHandler
    ensures s.Is(t, Sleeping)
    ensures var s' := Fire(DropTimer(s), t, SleepHandler); s' == MakeReady(DropTimer(s), t) && Core(s')
  {
    FirstTimer(s);
    var s' := Fire(DropTimer(s), t, SleepHandler);
    assert s' == MakeReady(DropTimer(s), t);
    EnqueueOk(s, t);
    WaitUntouched(s, MakeReady(s, t), t);
    RestUntouched(s, MakeReady(s, t), t);
    WakeSleeperTimers(s, s', t);
  }

  lemma DropTimeoutOk(s: State, t: Tid)
    requires Core(s) && s.timers != [] && s.timers[0].id == OfThread(t) && s.timers[0].callback == TimeoutHandler
    ensures Core(DropTimer(s)) && t in s.threads
  {
    FirstTimer(s);
    OthersKeepTheirs(s, t);
  }

  lemma HandlerOk(s: State, t: Tid)
    requires Core(s) && s.timers != [] && s.timers[0].id == OfThread(t)
    ensures t in s.threads && Core(Fire(DropTimer(s), t, s.timers[0].callback))
  {
    FirstTimer(s);
    if s.timers[0].callback == SleepHandler {
      WakeSleeperOk(s, t);
    } else {
      DropTimeoutOk(s, t);
      UnblockOk(DropTimer(s), t, ERR_TIMED_OUT);
    }
  }

  // ---------------------------------------------------------------- the timer of a driver

  /** A driver leaves the threads' timers alone. */
  lemma {:induction false} DriversKeepOut(ts: seq<Timer>, acts: seq<Action>, now: nat, x: Timer)
    requires DriverActs(acts) && x.id.OfThread?
    ensures x in PerformAll(ts, acts, now) <==> x in ts
  {
    UnmentionedStays(ts, acts, now, x.id);
  }

  lemma {:induction false} DriverActsOk(threads: Threads, ts: seq<Timer>, acts: seq<Action>, now: nat)
    requires TimersAre(threads, ts) && DriverActs(acts)
    ensures TimersAre(threads, PerformAll(ts, acts, now))
  {
    var ts' := PerformAll(ts, acts, now);
    PerformAllSorted(ts, acts, now);
    NewOnesAreOthers(ts, acts, now);
    forall p <- ts' ensures TimerFits(threads, p) {
      if p.id.OfThread? { DriversKeepOut(ts, acts, now, p); }
    }
    forall t <- threads | threads[t].phase == Sleeping ensures Queued(ts', OfThread(t)) {
      var p :| p in ts && p.id == OfThread(t);
      DriversKeepOut(ts, acts, now, p);
    }
  }

  lemma {:induction false} DriverActOk(threads: Threads, ts: seq<Timer>, act: Action, now: nat)
    requires TimersAre(threads, ts) && act.id.Driver?
    ensures TimersAre(threads, Perform(ts, act, now))
  {
    DriverActsOk(threads, ts, [act], now);
    var ts' := Perform(ts, act, now);
    assert PerformAll(ts', [], now) == ts' && [act][1..] == [];
  }

  lemma {:induction false} DroppedDriverTimer(threads: Threads, ts: seq<Timer>)
    requires TimersAre(threads, ts) && ts != [] && ts[0].id.Driver?
    ensures TimersAre(threads, ts[1..]) && ts[0].callback == OtherHandler && forall x <- ts[1..] :: x.id != ts[0].id
  {
    SortedTail(ts);
    DistinctTail(ts);
    assert ts == [ts[0]] + ts[1..] && TimerFits(threads, ts[0]);
    forall t <- threads | threads[t].phase == Sleeping ensures Queued(ts[1..], OfThread(t)) {
      var p :| p in ts && p.id == OfThread(t);
    }
  }

  lemma {:induction false} QueuedAgainOk(threads: Threads, ts: seq<Timer>, x: Timer)
    requires TimersAre(threads, ts) && x.id.Driver? && x.callback == OtherHandler && forall p <- ts :: p.id != x.id
    ensures TimersAre(threads, Inserted(ts, x))
  {
    InsertedSorted(ts, x);
    InsertedDistinct(ts, x);
    InsertedMembers(ts, x);
  }

  lemma {:induction false} DriverRoundOk(threads: Threads, ts: seq<Timer>, acts: seq<Action>, now: nat)
    requires TimersAre(threads, ts) && ts != [] && ts[0].id.Driver? && DriverActs(acts)
    ensures TimersAre(threads, AfterFire(ts[1..], ts[0], acts, now))
  {
    DroppedDriverTimer(threads, ts);
    DriverActsOk(threads, ts[1..], acts, now);
    if ts[0].period > 0 && !Mentions(acts, ts[0].id) {
      UnmentionedStays(ts[1..], acts, now, ts[0].id);
      QueuedAgainOk(threads, PerformAll(ts[1..], acts, now), Again(ts[0], now));
    }
  }

  lemma {:induction false} DriverRoundKeeps(ts: seq<Timer>, acts: seq<Action>, now: nat, x: Timer)
    requires ts != [] && ts[0].id.Driver? && DriverActs(acts) && x.id.OfThread?
    ensures x in AfterFire(ts[1..], ts[0], acts, now) <==> x in ts
  {
    DriversKeepOut(ts[1..], acts, now, x);
    InsertedMembers(PerformAll(ts[1..], acts, now), Again(ts[0], now));
    assert ts == [ts[0]] + ts[1..];
  }

  // ---------------------------------------------------------------- a round

  lemma RoundOk(s: State, react: Callbacks)
    requires Core(s) && s.timers != [] && FromDrivers(react)
    ensures Core(Round(s, react)) && Round(s, react).now == s.now
  {
    match s.timers[0].id
    case OfThread(t) => HandlerOk(s, t);
    case Driver(n) => DriverRoundOk(s.threads, s.timers, react(Driver(n)), s.now);
  }

  lemma UnblockChangesOne(s: State, t: Tid, error: int)
    requires Core(s)
    ensures var s' := Unblock(s, t, error);
      && s'.current == s.current && s'.threads.Keys == s.threads.Keys
      && (forall u <- s.threads :: u != t ==> s'.threads[u] == s.threads[u])
      && (!s.Is(t, Blocked) ==> s' == s)
  {
    UnblockOk(s, t, error);
  }

  /** A handler changes no thread but its own, and that one only if it sleeps or is blocked. */
  lemma HandlerChangesOne(s: State, t: Tid, callback: Callback)
    requires callback != SleepHandler ==> Core(s)
    ensures var s' := Fire(s, t, callback);
      && s'.current == s.current && s'.threads.Keys == s.threads.Keys
      && (forall u <- s.threads :: u != t ==> s'.threads[u] == s.threads[u])
      && (t in s.threads && s.threads[t].phase !in {Sleeping, Blocked} ==> s'.threads == s.threads)
  {
    if callback != SleepHandler { UnblockChangesOne(s, t, ERR_TIMED_OUT); }
  }

  lemma RoundChangesOne(s: State, react: Callbacks)
    requires Core(s) && s.timers != []
    ensures var s' := Round(s, react);
      && s'.current == s.current && s'.threads.Keys == s.threads.Keys
      && (forall u <- s.threads :: s.timers[0].id != OfThread(u) ==> s'.threads[u] == s.threads[u])
      && (forall u <- s.threads :: s.threads[u].phase !in {Sleeping, Blocked} ==> s'.threads[u] == s.threads[u])
  {
    if s.timers[0].id.OfThread? {
      var t := s.timers[0].id.tid;
      FirstTimer(s);
      if s.timers[0].callback != SleepHandler { DropTimeoutOk(s, t); }
      HandlerChangesOne(DropTimer(s), t, s.timers[0].callback);
    }
  }

  /** What a round does to the queue is what the timer module says. */
  lemma RoundTimers(s: State, react: Callbacks)
    requires TimersOk(s) && s.timers != [] && FromDrivers(react)
    ensures Round(s, react).timers == AfterFire(s.timers[1..], s.timers[0], react(s.timers[0].id), s.now)
  {
    FirstTimer(s);
  }

  // ---------------------------------------------------------------- all rounds

  lemma {:induction false} FireDueOk(s: State, react: Callbacks)
    requires Core(s) && FromDrivers(react)
    ensures Core(FireDue(s, react)) && FireDue(s, react).current == s.current && FireDue(s, react).now == s.now
    ensures FireDue(s, react).timers == FireAll(s.timers, react, s.now).1
    decreases |Due(s.timers, s.now)|
  {
    if s.timers != [] && s.timers[0].sched <= s.now {
      RoundOk(s, react);
      RoundChangesOne(s, react);
      RoundTimers(s, react);
      RoundIsShorter(s, react);
      FireDueOk(Round(s, react), react);
    }
  }

  /** A thread that neither sleeps nor is blocked is left alone. */
  lemma {:induction false} FireDueKeeps(s: State, react: Callbacks, t: Tid)
    requires Core(s) && FromDrivers(react) && t in s.threads && s.threads[t].phase !in {Sleeping, Blocked}
    ensures t in FireDue(s, react).threads && FireDue(s, react).threads[t] == s.threads[t]
    decreases |Due(s.timers, s.now)|
  {
    if s.timers != [] && s.timers[0].sched <= s.now {
      RoundOk(s, react);
      RoundChangesOne(s, react);
      RoundIsShorter(s, react);
      FireDueKeeps(Round(s, react), react, t);
    }
  }

  lemma ClockIsFree(s: State, now: nat)
    requires Inv(s)
    ensures Inv(s.(now := now))
  {
    var s0 := s.(now := now);
  }

  lemma TickFires(s: State, now: nat, react: Callbacks)
    requires Inv(s) && FromDrivers(react)
    ensures Core(s.(now := now)) && Inv(FireDue(s.(now := now), react))
    ensures FireDue(s.(now := now), react).current == s.current
    ensures FireDue(s.(now := now), react).timers == FireAll(s.timers, react, now).1
  {
    ClockIsFree(s, now);
    FireDueOk(s.(now := now), react);
    FireDueKeeps(s.(now := now), react, s.current);
  }

  /** A tick keeps the invariant, and does to the queue of all timers, those of threads and those of
      drivers, what the loop of timer_tick does: none that is left is due. */
  lemma TickOk(s: State, now: nat, react: Callbacks)
    requires Inv(s) && FromDrivers(react)
    ensures Inv(Tick(s, now, react)) && Tick(s, now, react).timers == FireAll(s.timers, react, now).1
    ensures forall p <- Tick(s, now, react).timers :: p.sched > now
  {
    TickFires(s, now, react);
    FireAllLeaves(s.timers, react, now);
    SameRoleOk(FireDue(s.(now := now), react), Tick(s, now, react), s.current);
  }
}
