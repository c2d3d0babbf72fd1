/** Threads that rest, asleep, in a wait queue or dead: which operations leave them, their records and
    their timers, as they are (kernel/thread.c, kernel/wait_queue.c). */
module KernelSchedulerRest {
  import opened Common
  import opened KernelTimer
  import opened KernelTimerTick
  import opened KernelSchedulerState
  import opened KernelSchedulerOps
  import opened KernelSchedulerSteps
  import opened KernelSchedulerRuns

  /** The record of a resting thread and the timer that may end its rest. */
  datatype Rest = Rest(th: Thread, timer: Option<Timer>)

  predicate HasTimer(ts: seq<Timer>, t: Tid, o: Option<Timer>) {
    if o.Some? then o.value in ts && o.value.id == OfThread(t) else forall p <- ts :: p.id != OfThread(t)
  }

  /** The thread rests, and no run queue holds it: also true in the middle of an operation. It may be
      detached meanwhile. */
  ghost predicate Resting(s: State, t: Tid, r: Rest) {
    && t in s.threads && s.threads[t].(detached := r.th.detached) == r.th && r.th.phase in {Sleeping, Blocked, Death} &&
      t != IDLE
    && HasTimer(s.timers, t, r.timer)
    && forall k :: 0 <= k < |s.runQueue| ==> t !in s.runQueue[k]
  }

  lemma NotQueued(s: State, t: Tid)
    requires ReadyOk(s) && t in s.threads && s.threads[t].phase != Ready
    ensures forall k :: 0 <= k < |s.runQueue| ==> t !in s.runQueue[k]
  {
    forall k | 0 <= k < |s.runQueue| ensures t !in s.runQueue[k] {
      assert t in s.runQueue[k] ==> Has(s.threads, t, Ready);
    }
  }

  lemma IsResting(s: State, t: Tid, timer: Option<Timer>)
    requires Inv(s) && t in s.threads && s.threads[t].phase in {Sleeping, Blocked, Death}
    requires HasTimer(s.timers, t, timer)
    ensures Resting(s, t, Rest(s.threads[t], timer)) && t != s.current
  {
    NotQueued(s, t);
  }

  // ---------------------------------------------------------------- what the parts of an operation leave alone

  lemma OtherChanged(s: State, u: Tid, th: Thread, t: Tid, r: Rest)
    requires Resting(s, t, r) && u != t
    ensures Resting(s.With(u, th), t, r)
  {
  }

  lemma OtherQueued(s: State, u: Tid, t: Tid, r: Rest)
    requires Resting(s, t, r) && u != t && u in s.threads && s.threads[u].priority < |s.runQueue|
    ensures Resting(MakeReady(s, u), t, r)
  {
  }

  lemma PicksAnother(s: State, t: Tid, r: Rest)
    requires Resting(s, t, r)
    ensures PickNext(s).0 != t && Resting(PickNext(s).1, t, r)
  {
    var k := Lowest(s.bitmap, 0);
    if k < |s.runQueue| && s.runQueue[k] != [] {
      assert s.runQueue[k][0] in s.runQueue[k];
      assert forall x <- s.runQueue[k][1..] :: x in s.runQueue[k];
    }
  }

  lemma ReschedLeaves(s: State, t: Tid, r: Rest)
    requires Resting(s, t, r)
    ensures Resting(Resched(s), t, r)
  {
    PicksAnother(s, t, r);
    WithoutMembers(s.timers, OfThread(PickNext(s).0));
  }

  lemma ParkLeaves(s: State, t: Tid, r: Rest)
    requires Resting(s, t, r) && s.current != t && s.current in s.threads
    requires s.threads[s.current].priority < |s.runQueue|
    ensures Resting(Park(s), t, r) && Resting(Preempt(s), t, r) && Resting(Yield(s), t, r)
  {
    OtherChanged(s, s.current, s.threads[s.current].(phase := Ready), t, r);
    OtherQueued(s, s.current, t, r);
    ReschedLeaves(Park(s), t, r);
    var s1 := s.With(s.current, s.threads[s.current].(quantum := 0));
    OtherQueued(s1, s.current, t, r);
    ReschedLeaves(Park(s1), t, r);
  }

  lemma ReleaseLeaves(s: State, q: Qid, error: int, t: Tid, r: Rest)
    requires Core(s) && Resting(s, t, r) && s.Queue(q).list != [] && s.Queue(q).list[0] != t
    ensures var u := s.Queue(q).list[0]; u in s.threads && s.threads[u].priority < |s.runQueue|
    ensures Resting(Release(s, q, 0, error), t, r)
  {
    ReleaseOk(s, q, 0, error);
    var u := s.Queue(q).list[0];
    OtherQueued(s.With(u, s.threads[u].(blockedOn := None, blockRet := error)), u, t, r);
  }

  lemma {:induction false} ReleaseAllLeaves(s: State, q: Qid, error: int, t: Tid, r: Rest)
    requires Core(s) && Resting(s, t, r) && t !in s.Queue(q).list
    ensures Resting(ReleaseAll(s, q, error), t, r)
    decreases |s.Queue(q).list|
  {
    if s.Queue(q).list != [] {
      ReleaseLeaves(s, q, error, t, r);
      ReleaseOk(s, q, 0, error);
      HeadReleased(s, Release(s, q, 0, error), q, error);
      ReleaseAllLeaves(Release(s, q, 0, error), q, error, t, r);
    }
  }

  lemma WakeOneLeaves(s: State, q: Qid, reschedule: bool, error: int, t: Tid, r: Rest)
    requires Inv(s) && Resting(s, t, r) && t != s.current && !(reschedule && s.threads[s.current].idle)
    requires s.Queue(q).list != [] ==> s.Queue(q).list[0] != t
    ensures s.threads[s.current].priority < |s.runQueue| && Resting(WakeOne(s, q, reschedule, error), t, r)
  {
    InvBounds(s);
    if reschedule {
      OtherQueued(s, s.current, t, r);
      RunningHasNoTimer(s);
      MakeReadyOk(s, s.current);
      var s1 := MakeReady(s, s.current);
      if s1.Queue(q).list != [] {
        ReleaseLeaves(s1, q, error, t, r);
        ReschedLeaves(Release(s1, q, 0, error), t, r);
      }
    } else if s.Queue(q).list != [] {
      ReleaseLeaves(s, q, error, t, r);
    }
  }

  lemma WakeAllLeaves(s: State, q: Qid, reschedule: bool, error: int, t: Tid, r: Rest)
    requires Inv(s) && Resting(s, t, r) && t != s.current && !(reschedule && s.threads[s.current].idle)
    requires t !in s.Queue(q).list
    ensures s.threads[s.current].priority < |s.runQueue| && Resting(WakeAll(s, q, reschedule, error).0, t, r)
  {
    InvBounds(s);
    ReleaseAllLeaves(s, q, error, t, r);
    ReschedLeaves(ReleaseAll(s, q, error), t, r);
    if reschedule {
      OtherQueued(s, s.current, t, r);
      RunningHasNoTimer(s);
      MakeReadyOk(s, s.current);
      ReleaseAllLeaves(MakeReady(s, s.current), q, error, t, r);
      ReschedLeaves(ReleaseAll(MakeReady(s, s.current), q, error), t, r);
    }
  }

  lemma ResumeLeaves(s: State, u: Tid, intsDisabled: bool, t: Tid, r: Rest)
    requires Inv(s) && Resting(s, t, r) && t != s.current && u in s.threads
    ensures s.threads[s.current].priority < |s.runQueue| && s.threads[u].priority < |s.runQueue|
    ensures Resting(Resume(s, u, intsDisabled), t, r)
  {
    InvBounds(s);
    if s.threads[u].phase == Suspended {
      OtherQueued(s, u, t, r);
      assert MakeReady(s, u).threads[s.current].priority == s.threads[s.current].priority;
      ParkLeaves(MakeReady(s, u), t, r);
    }
  }

  lemma ExitLeaves(s: State, retcode: int, t: Tid, r: Rest)
    requires Inv(s) && s.current != IDLE && Resting(s, t, r) && t != s.current
    requires !s.threads[s.current].detached ==> t !in s.Queue(ExitOf(s.current)).list
    ensures Resting(Exit(s, retcode), t, r)
  {
    var cur := s.current;
    if !s.threads[cur].detached {
      DeadStateOk(s, retcode);
      ReleaseAllLeaves(s.With(cur, s.threads[cur].(phase := Death, retcode := retcode)), ExitOf(cur), 0, t, r);
    }
    ReschedLeaves(Die(s, retcode), t, r);
  }

  lemma BecomeIdleLeaves(s: State, t: Tid, r: Rest)
    requires Resting(s, t, r) && t != s.current && s.current in s.threads && |s.runQueue| > 0
    ensures Resting(BecomeIdle(s), t, r)
  {
    var s1 := s.With(s.current, s.threads[s.current].(priority := IDLE_PRIORITY, idle := true));
    OtherChanged(s, s.current, s1.threads[s.current], t, r);
    ParkLeaves(s1, t, r);
  }

  lemma DetachedLeaves(s: State, u: Tid, t: Tid, r: Rest)
    requires Resting(s, t, r) && u in s.threads
    ensures Resting(s.With(u, s.threads[u].(detached := true)), t, r)
  {
  }

  lemma DetachLeaves(s: State, u: Tid, t: Tid, r: Rest)
    requires Core(s) && Resting(s, t, r) && t !in s.Queue(ExitOf(u)).list
    ensures Resting(Detach(s, u), t, r)
  {
    ReleaseAllLeaves(s, ExitOf(u), ERR_THREAD_DETACHED, t, r);
    var s1 := ReleaseAll(s, ExitOf(u), ERR_THREAD_DETACHED);
    if u in s1.threads { DetachedLeaves(s1, u, t, r); }
  }

  lemma CreateLeaves(s: State, priority: nat, t: Tid, r: Rest)
    requires RestOk(s) && Resting(s, t, r)
    ensures Resting(Create(s, priority), t, r)
  {
    if s.free != [] { assert s.free[0] in s.free; }
  }

  lemma FallAsleepLeaves(s: State, delay: nat, t: Tid, r: Rest)
    requires Resting(s, t, r) && t != s.current && s.current in s.threads
    ensures Resting(Sleep(s, delay), t, r)
  {
    InsertedMembers(s.timers, Armed(s, delay, SleepHandler));
    ReschedLeaves(FallAsleep(s, delay), t, r);
  }

  lemma BlockLeaves(s: State, q: Qid, timeout: Option<nat>, t: Tid, r: Rest)
    requires Resting(s, t, r) && t != s.current && s.current in s.threads
    ensures Resting(Block(s, q, timeout), t, r)
  {
    if timeout.Some? { InsertedMembers(s.timers, Armed(s, timeout.value, TimeoutHandler)); }
    ReschedLeaves(EnterWait(s, q, timeout), t, r);
  }

  lemma DriverLeaves(s: State, act: Action, t: Tid, r: Rest)
    requires Resting(s, t, r) && act.id.Driver?
    ensures Resting(s.(timers := Perform(s.timers, act, s.now)), t, r)
  {
    match act
    case Cancel(id) => WithoutMembers(s.timers, id);
    case Set(_, _, _) => InsertedMembers(s.timers, TimerOf(act, s.now));
  }

  // ---------------------------------------------------------------- what a whole operation leaves alone

  /** The operation takes the thread off a wait queue, or frees it when it is dead. */
  ghost predicate Reaches(s: State, e: Event, t: Tid) {
    match e
    case DoWakeOne(q, _, _) => s.Queue(q).list != [] && s.Queue(q).list[0] == t
    case DoWakeAll(q, _, _) => t in s.Queue(q).list
    case DoExit(_) => s.current in s.threads && !s.threads[s.current].detached && t in s.Queue(ExitOf(s.current)).list
    case DoDetach(u) => t in s.Queue(ExitOf(u)).list
    case DoFree(u) => u == t
    case _ => false
  }

  /** Apart from ticks, no operation changes a resting thread or its timer but one that takes it off
      its queue or frees it. */
  lemma StepLeaves(s: State, e: Event, t: Tid, r: Rest)
    requires Inv(s) && Allowed(s, e) && Resting(s, t, r) && t != s.current && !e.DoTick? && !Reaches(s, e, t)
    ensures Resting(Step(s, e), t, r)
  {
    InvBounds(s);
    match e
    case DoCreate(priority) => CreateLeaves(s, priority, t, r);
    case DoResume(u, ints) => ResumeLeaves(s, u, ints, t, r);
    case DoYield => ParkLeaves(s, t, r);
    case DoPreempt => ParkLeaves(s, t, r);
    case DoSleep(delay) => FallAsleepLeaves(s, delay, t, r);
    case DoExit(retcode) => ExitLeaves(s, retcode, t, r);
    case DoDetach(u) => DetachLeaves(s, u, t, r);
    case DoFree(_) =>
    case DoBecomeIdle => BecomeIdleLeaves(s, t, r);
    case DoBlock(q, timeout) => BlockLeaves(s, q, timeout, t, r);
    case DoWakeOne(q, resched, error) => WakeOneLeaves(s, q, resched, error, t, r);
    case DoWakeAll(q, resched, error) => WakeAllLeaves(s, q, resched, error, t, r);
    case DoDriver(act) => DriverLeaves(s, act, t, r);
    case DoClock(_) =>
  }
}
