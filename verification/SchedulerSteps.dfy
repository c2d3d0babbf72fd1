/** The entry points of the scheduler as functions from state to state; each keeps the invariant
    (kernel/thread.c, kernel/wait_queue.c). */
module KernelSchedulerSteps {
  import opened Common
  import opened KernelTimer
  import opened KernelSchedulerState
  import opened KernelSchedulerOps

  // ---------------------------------------------------------------- the operations

  /** thread_yield. */
  function Yield(s: State): State
    requires s.current in s.threads && s.threads[s.current].priority < |s.runQueue|
  {
    Resched(Park(s.With(s.current, s.threads[s.current].(quantum := 0))))
  }

  /** thread_preempt. */
  function Preempt(s: State): State
    requires s.current in s.threads && s.threads[s.current].priority < |s.runQueue|
  {
    Resched(Park(s))
  }

  /** timer_set_oneshot for the current thread. */
  function Armed(s: State, delay: nat, callback: Callback): Timer {
    Timer(OfThread(s.current), s.now + AtLeastOne(delay), 0, callback)
  }

  function FallAsleep(s: State, delay: nat): State
    requires s.current in s.threads
  {
    s.With(s.current, s.threads[s.current].(phase := Sleeping)).(timers := Inserted(s.timers,
      Armed(s, delay, SleepHandler)))
  }

  /** thread_sleep. */
  function Sleep(s: State, delay: nat): State
    requires s.current in s.threads
  {
    Resched(FallAsleep(s, delay))
  }

  function EnterWait(s: State, q: Qid, timeout: Option<nat>): State
    requires s.current in s.threads
  {
    var th := s.threads[s.current].(phase := Blocked, blockedOn := Some(q), blockRet := NO_ERR);
    var w := WaitQueue(s.Queue(q).list + [s.current], s.Queue(q).count + 1);
    s.With(s.current, th).(waits := s.waits[q := w],
                           timers := if timeout.None? then s.timers
                             else Inserted(s.timers, Armed(s, timeout.value, TimeoutHandler)))
  }

  /** wait_queue_block up to the switch; an infinite timeout is None, a zero one does not block. */
  function Block(s: State, q: Qid, timeout: Option<nat>): State
    requires s.current in s.threads
  {
    if timeout == Some(0) then s else Resched(EnterWait(s, q, timeout))
  }

  /** wait_queue_wake_one. */
  function WakeOne(s: State, q: Qid, reschedule: bool, error: int): State
    requires s.current in s.threads && s.threads[s.current].priority < |s.runQueue|
  {
    var s1 := if reschedule then MakeReady(s, s.current) else s;
    var list := s1.Queue(q).list;
    if list == [] || list[0] !in s1.threads || s1.threads[list[0]].priority >= |s1.runQueue| then s
    else if reschedule then Resched(Release(s1, q, 0, error)) else Release(s1, q, 0, error)
  }

  /** wait_queue_wake_all: the early test looks at the count, the late one at how many were woken. */
  function WakeAll(s: State, q: Qid, reschedule: bool, error: int): (State, nat)
    requires s.current in s.threads && s.threads[s.current].priority < |s.runQueue|
  {
    var s1 := if reschedule && s.Queue(q).count > 0 then MakeReady(s, s.current) else s;
    var ret := |s1.Queue(q).list|;
    var s2 := ReleaseAll(s1, q, error);
    (if ret > 0 && reschedule then Resched(s2) else s2, ret)
  }

  /** thread_create: the first free slot, or nothing when there is none. */
  function Create(s: State, priority: nat): State {
    if s.free == [] then s
    else
      var t := s.free[0];
      s.(threads := s.threads[t := Thread(Suspended, priority, 0, false, false, None, NO_ERR, 0)],
         free := s.free[1..], waits := s.waits[ExitOf(t) := WaitQueue([], 0)])
  }

  /** thread_resume. */
  function Resume(s: State, t: Tid, intsDisabled: bool): State
    requires s.current in s.threads && s.threads[s.current].priority < |s.runQueue|
    requires t in s.threads && s.threads[t].priority < |s.runQueue|
  {
    if s.threads[t].phase != Suspended then s
    else if intsDisabled then MakeReady(s, t)
    else if MakeReady(s, t).threads[s.current].priority < |MakeReady(s, t).runQueue| then Yield(MakeReady(s, t)) else s
  }

  /** list_delete on the node by which a slot hangs in the free list, if it does. */
  function Unlisted(free: seq<Tid>, t: Tid): seq<Tid> {
    if t in free then var i := IndexOf(free, t); free[..i] + free[i + 1..] else free
  }

  /** A slot is taken off the list it is in, that of the threads or that of the free slots, and goes to
      the end of the latter. */
  function Retire(s: State, t: Tid): State {
    s.(threads := s.threads - {t}, free := Unlisted(s.free, t) + [t])
  }

  /** thread_exit up to the switch. */
  function Die(s: State, retcode: int): State
    requires s.current in s.threads
  {
    if s.threads[s.current].detached then Retire(s, s.current)
    else ReleaseAll(s.With(s.current, s.threads[s.current].(phase := Death, retcode := retcode)), ExitOf(s.current), 0)
  }

  /** thread_exit. */
  function Exit(s: State, retcode: int): State
    requires s.current in s.threads
  {
    Resched(Die(s, retcode))
  }

  /** thread_detach of a thread that is not dead. */
  function Detach(s: State, t: Tid): State {
    var s1 := ReleaseAll(s, ExitOf(t), ERR_THREAD_DETACHED);
    if t in s1.threads then s1.With(t, s1.threads[t].(detached := true)) else s1
  }

  /** thread_become_idle: the boot thread takes the lowest priority and is no longer queued. */
  function BecomeIdle(s: State): State
    requires s.current in s.threads && |s.runQueue| > 0
  {
    Yield(s.With(s.current, s.threads[s.current].(priority := IDLE_PRIORITY, idle := true)))
  }

  // ---------------------------------------------------------------- each keeps the invariant

  lemma YieldParks(s: State)
    requires Inv(s)
    ensures s.threads[s.current].priority < |s.runQueue|
    ensures Parked(Park(s.With(s.current, s.threads[s.current].(quantum := 0))))
  {
    var s1 := s.With(s.current, s.threads[s.current].(quantum := 0));
    CurrentChanged(s, s1.threads[s.current]);
    ParkOk(s1);
  }

  lemma YieldOk(s: State)
    requires Inv(s)
    ensures s.threads[s.current].priority < |s.runQueue| && Inv(Yield(s))
  {
    YieldParks(s);
    ReschedOk(Park(s.With(s.current, s.threads[s.current].(quantum := 0))));
  }

  lemma PreemptOk(s: State)
    requires Inv(s)
    ensures s.threads[s.current].priority < |s.runQueue| && Inv(Preempt(s))
  {
    ParkOk(s);
    ReschedOk(Park(s));
  }

  lemma ArmedTimersOk(s: State, s': State, t: Tid, x: Timer)
    requires TimersOk(s) && x.id == OfThread(t) && NoTimer(s, t) && t in s'.threads
    requires s'.timers == Inserted(s.timers, x)
    requires s'.threads == s.threads[t := s'.threads[t]] && TimerFits(s'.threads, x)
    ensures TimersOk(s')
  {
    InsertedSorted(s.timers, x);
    InsertedDistinct(s.timers, x);
    InsertedMembers(s.timers, x);
    forall u <- s'.threads | s'.threads[u].phase == Sleeping && u != t ensures Queued(s'.timers, OfThread(u)) {
      assert s.threads[u].phase == Sleeping;
    }
  }

  lemma FallAsleepOk(s: State, delay: nat)
    requires Inv(s) && s.current != IDLE
    ensures Core(FallAsleep(s, delay)) && FallAsleep(s, delay).Is(s.current, Sleeping)
  {
    RunningHasNoTimer(s);
    var a := s.With(s.current, s.threads[s.current].(phase := Sleeping));
    ReadyUntouched(s, a, s.current);
    WaitUntouched(s, a, s.current);
    RestUntouched(s, a, s.current);
    ArmedTimersOk(s, FallAsleep(s, delay), s.current, Armed(s, delay, SleepHandler));
  }

  /** When the running thread has become something else, nobody runs. */
  lemma NobodyRuns(s: State)
    requires RestOk(s) && s.current in s.threads && s.threads[s.current].phase != Running
    ensures forall t <- s.threads :: s.threads[t].phase != Running
  {
  }

  lemma SleepParks(s: State, delay: nat)
    requires Inv(s) && s.current != IDLE
    ensures Parked(FallAsleep(s, delay)) && Sorted(s.timers) && NoTimer(s, s.current)
  {
    FallAsleepOk(s, delay);
    NobodyRuns(FallAsleep(s, delay));
    RunningHasNoTimer(s);
  }

  lemma SleepOk(s: State, delay: nat)
    requires Inv(s) && s.current != IDLE
    ensures Inv(Sleep(s, delay))
  {
    SleepParks(s, delay);
    ReschedOk(FallAsleep(s, delay));
  }

  /** What entering a wait does to the wait queues and to their members. */
  lemma EnterWaitLists(s: State, q: Qid, timeout: Option<nat>)
    requires WaitOk(s) && s.Is(s.current, Running)
    ensures var s' := EnterWait(s, q, timeout);
      && s'.Queue(q) == WaitQueue(s.Queue(q).list + [s.current], |s.Queue(q).list| + 1)
      && (forall r :: r != q ==> s'.Queue(r) == s.Queue(r))
      && (forall r :: s.current !in s.Queue(r).list)
      && s'.threads == s.threads[s.current := s'.threads[s.current]]
      && s'.threads[s.current].phase == Blocked && s'.threads[s.current].blockedOn == Some(q)
  {
    ListedIsBlocked(s, q, s.current);
    forall r ensures s.current !in s.Queue(r).list { ListedIsBlocked(s, r, s.current); }
  }

  lemma EnteredWait(s: State, s': State, q: Qid, t: Tid)
    requires WaitOk(s) && t in s.threads && s.threads[t].phase != Blocked && t in s'.threads
    requires s'.Queue(q) == WaitQueue(s.Queue(q).list + [t], |s.Queue(q).list| + 1)
    requires forall r :: r != q ==> s'.Queue(r) == s.Queue(r)
    requires forall r :: t !in s.Queue(r).list
    requires s'.threads == s.threads[t := s'.threads[t]] && s'.threads[t].phase == Blocked
    requires s'.threads[t].blockedOn == Some(q)
    ensures WaitOk(s')
  {
    forall r ensures QueueIn(s'.waits, r).count == |QueueIn(s'.waits, r).list| && NoDup(QueueIn(s'.waits, r).list) {
      ListedIsBlocked(s, r, t);
    }
    forall r, u ensures ListedIffBlocked(s'.threads, s'.waits, r, u) { ListedIsBlocked(s, r, u); }
  }

  lemma EnterWaitWait(s: State, q: Qid, timeout: Option<nat>)
    requires Inv(s)
    ensures WaitOk(EnterWait(s, q, timeout))
  {
    EnterWaitLists(s, q, timeout);
    EnteredWait(s, EnterWait(s, q, timeout), q, s.current);
  }

  /** A thread may wait on an exit queue while its owner is alive and can be joined. */
  predicate CanWaitOn(s: State, q: Qid) {
    q.ExitOf? ==> q.tid in s.threads && !s.threads[q.tid].detached && s.threads[q.tid].phase != Death
  }

  lemma EnterWaitRest(s: State, q: Qid, timeout: Option<nat>)
    requires Inv(s) && s.current != IDLE && CanWaitOn(s, q)
    ensures RestOk(EnterWait(s, q, timeout))
  {
    var s' := EnterWait(s, q, timeout);
    assert forall r :: r != q ==> s'.Queue(r) == s.Queue(r);
  }

  lemma EnterWaitTimers(s: State, q: Qid, timeout: Option<nat>)
    requires Inv(s)
    ensures TimersOk(EnterWait(s, q, timeout))
  {
    RunningHasNoTimer(s);
    var b := EnterWait(s, q, timeout);
    if timeout.None? {
      TimersUntouched(s, s.With(s.current, b.threads[s.current]), s.current);
    } else {
      ArmedTimersOk(s, b, s.current, Armed(s, timeout.value, TimeoutHandler));
    }
  }

  lemma EnterWaitOk(s: State, q: Qid, timeout: Option<nat>)
    requires Inv(s) && s.current != IDLE && CanWaitOn(s, q)
    ensures Parked(EnterWait(s, q, timeout))
  {
    var b := EnterWait(s, q, timeout);
    ReadyUntouched(s, s.With(s.current, b.threads[s.current]), s.current);
    EnterWaitWait(s, q, timeout);
    EnterWaitRest(s, q, timeout);
    EnterWaitTimers(s, q, timeout);
    NobodyRuns(b);
  }

  lemma BlockOk(s: State, q: Qid, timeout: Option<nat>)
    requires Inv(s) && s.current != IDLE && CanWaitOn(s, q)
    ensures Inv(Block(s, q, timeout))
  {
    EnterWaitOk(s, q, timeout);
    ReschedOk(EnterWait(s, q, timeout));
  }

  lemma WakeOneFrom(s: State, q: Qid, error: int)
    requires Core(s) && s.Queue(q).list != []
    ensures var u := s.Queue(q).list[0]; u in s.threads && s.threads[u].priority < |s.runQueue|
    ensures var s' := Release(s, q, 0, error);
      && Core(s') && s'.current == s.current
      && (s.Is(s.current, Running) ==> Inv(s'))
      && (s.Is(s.current, Ready) && NoTimer(s, s.current) ==> Parked(s'))
  {
    ReleaseOk(s, q, 0, error);
    ListedIsBlocked(s, q, s.Queue(q).list[0]);
    var s' := Release(s, q, 0, error);
    if s.Is(s.current, Ready) { NobodyRuns(s'); }
  }

  lemma WakeOneOk(s: State, q: Qid, reschedule: bool, error: int)
    requires Inv(s) && !(reschedule && s.threads[s.current].idle)
    ensures s.threads[s.current].priority < |s.runQueue| && Inv(WakeOne(s, q, reschedule, error))
  {
    if reschedule {
      RunningHasNoTimer(s);
      MakeReadyOk(s, s.current);
      var s1 := MakeReady(s, s.current);
      if s1.Queue(q).list != [] {
        WakeOneFrom(s1, q, error);
        ReschedOk(Release(s1, q, 0, error));
      }
    } else if s.Queue(q).list != [] {
      WakeOneFrom(s, q, error);
    }
  }

  /** The early test of wait_queue_wake_all, on the count, agrees with the late one, on the number woken. */
  lemma CountIsNumberWoken(s: State, q: Qid, reschedule: bool, error: int)
    requires Inv(s) && s.threads[s.current].priority < |s.runQueue|
    ensures WakeAll(s, q, reschedule, error).1 == |s.Queue(q).list|
    ensures s.Queue(q).count > 0 <==> WakeAll(s, q, reschedule, error).1 > 0
  {
    assert s.Queue(q).count == |s.Queue(q).list|;
    assert MakeReady(s, s.current).Queue(q) == s.Queue(q);
  }

  lemma WakeAllOk(s: State, q: Qid, reschedule: bool, error: int)
    requires Inv(s) && !(reschedule && s.threads[s.current].idle)
    ensures s.threads[s.current].priority < |s.runQueue| && Inv(WakeAll(s, q, reschedule, error).0)
  {
    CountIsNumberWoken(s, q, reschedule, error);
    if reschedule && s.Queue(q).count > 0 {
      RunningHasNoTimer(s);
      MakeReadyOk(s, s.current);
      WakeAllParks(MakeReady(s, s.current), q, error);
      ReschedOk(ReleaseAll(MakeReady(s, s.current), q, error));
    } else {
      WakeAllQuietly(s, q, error);
    }
  }

  lemma WakeAllQuietly(s: State, q: Qid, error: int)
    requires Inv(s)
    ensures Inv(ReleaseAll(s, q, error)) && AllReleased(s, ReleaseAll(s, q, error), q, error)
  {
    ReleaseAllOk(s, q, error);
    RunningIsKept(s, ReleaseAll(s, q, error), q, error);
  }

  lemma RunningIsKept(s: State, s': State, q: Qid, error: int)
    requires WaitOk(s) && s.Is(s.current, Running) && AllReleased(s, s', q, error)
    ensures s'.current == s.current && s'.Is(s.current, Running) && s'.threads[s.current] == s.threads[s.current]
  {
    ListedIsBlocked(s, q, s.current);
  }

  lemma WakeAllParks(s: State, q: Qid, error: int)
    requires Core(s) && s.Is(s.current, Ready) && NoTimer(s, s.current)
    ensures Parked(ReleaseAll(s, q, error))
  {
    NobodyRuns(s);
    ReleaseAllOk(s, q, error);
    ReleasedStaysParked(s, ReleaseAll(s, q, error), q, error);
  }

  lemma ReleasedStaysParked(s: State, s': State, q: Qid, error: int)
    requires WaitOk(s) && AllReleased(s, s', q, error) && Core(s')
    requires s.Is(s.current, Ready) && NoTimer(s, s.current) && forall t <- s.threads :: s.threads[t].phase != Running
    ensures Parked(s')
  {
    ListedIsBlocked(s, q, s.current);
  }

  lemma CreateOk(s: State, priority: nat)
    requires Inv(s) && priority < NUM_PRIORITY
    ensures Inv(Create(s, priority))
  {
    if s.free != [] {
      var t := s.free[0];
      assert t in s.free && s.free == [t] + s.free[1..];
      var s' := Create(s, priority);
      ListedIsBlocked(s, ExitOf(t), t);
      assert QueueIn(s.waits, ExitOf(t)) == WaitQueue([], 0);
      NewThread(s, s', t);
    }
  }

  lemma NewThread(s: State, s': State, t: Tid)
    requires Inv(s) && t !in s.threads && t in s'.threads && s'.threads == s.threads[t := s'.threads[t]]
    requires s'.threads[t] == Thread(Suspended, s'.threads[t].priority, 0, false, false, None, NO_ERR, 0)
    requires s'.threads[t].priority < NUM_PRIORITY
    requires s'.runQueue == s.runQueue && s'.bitmap == s.bitmap && s'.timers == s.timers && s'.current == s.current
    requires forall r :: QueueIn(s'.waits, r) == QueueIn(s.waits, r)
    requires s.free == [t] + s'.free
    ensures Inv(s')
  {
    NewThreadReady(s, s', t);
    NewThreadWaits(s, s', t);
    NewThreadRest(s, s', t);
    assert TimersOk(s');
  }

  lemma NewThreadRest(s: State, s': State, t: Tid)
    requires RestOk(s) && t !in s.threads && t in s'.threads && s'.threads == s.threads[t := s'.threads[t]]
    requires s'.threads[t].phase == Suspended && !s'.threads[t].idle && !s'.threads[t].detached
    requires s'.current == s.current && (forall r :: QueueIn(s'.waits, r) == QueueIn(s.waits, r))
    requires s.free == [t] + s'.free
    ensures RestOk(s')
  {
    assert forall i :: 0 <= i < |s'.free| ==> s'.free[i] == s.free[i + 1] && s.free[i + 1] != s.free[0];
    forall u | u in s'.free ensures u !in s'.threads { assert u in s.free && u != t; }
  }

  lemma NewThreadReady(s: State, s': State, t: Tid)
    requires ReadyOk(s) && t !in s.threads && t in s'.threads && s'.threads == s.threads[t := s'.threads[t]]
    requires s'.threads[t].phase == Suspended && s'.threads[t].priority < NUM_PRIORITY
    requires s'.runQueue == s.runQueue && s'.bitmap == s.bitmap
    ensures ReadyOk(s')
  {
    forall p, u | 0 <= p < NUM_PRIORITY && u in s.runQueue[p]
      ensures u != t
    {
      assert s.Is(u, Ready);
    }
  }

  lemma NewThreadWaits(s: State, s': State, t: Tid)
    requires WaitOk(s) && t !in s.threads && t in s'.threads && s'.threads == s.threads[t := s'.threads[t]]
    requires s'.threads[t].phase == Suspended && s'.threads[t].blockedOn == None
    requires forall r :: QueueIn(s'.waits, r) == QueueIn(s.waits, r)
    ensures WaitOk(s')
  {
    forall q, u ensures ListedIffBlocked(s'.threads, s'.waits, q, u) { ListedIsBlocked(s, q, u); }
  }

  lemma ResumedIsQueued(s: State, t: Tid)
    requires Inv(s) && s.Is(t, Suspended)
    ensures s.threads[t].priority < |s.runQueue| && Inv(MakeReady(s, t))
  {
    MakeReadyOk(s, t);
  }

  lemma ResumeOk(s: State, t: Tid, intsDisabled: bool)
    requires Inv(s) && t in s.threads
    ensures s.threads[s.current].priority < |s.runQueue| && s.threads[t].priority < |s.runQueue|
    ensures Inv(Resume(s, t, intsDisabled))
  {
    if s.threads[t].phase == Suspended {
      ResumedIsQueued(s, t);
      YieldOk(MakeReady(s, t));
    }
  }

  // ---------------------------------------------------------------- threads that go away

  lemma RetireReady(s: State, t: Tid)
    requires ReadyOk(s) && t in s.threads && s.threads[t].phase != Ready
    ensures ReadyOk(Retire(s, t))
  {
    var threads := Retire(s, t).threads;
    forall p, u | 0 <= p < NUM_PRIORITY && u in s.runQueue[p]
      ensures Has(threads, u, Ready) && threads[u].priority == p && !threads[u].idle
    {
      assert Has(s.threads, u, Ready) && u != t;
    }
    forall u | u in threads
      ensures threads[u].priority < NUM_PRIORITY
      ensures (threads[u].phase == Ready && !threads[u].idle ==> u in s.runQueue[threads[u].priority])
    {
      assert u in s.threads && threads[u] == s.threads[u];
    }
  }

  lemma RetireWaits(s: State, t: Tid)
    requires WaitOk(s) && t in s.threads && s.threads[t].phase != Blocked
    ensures WaitOk(Retire(s, t))
  {
    var s' := Retire(s, t);
    forall q, u ensures ListedIffBlocked(s'.threads, s'.waits, q, u) { ListedIsBlocked(s, q, u); }
  }

  lemma RetireRest(s: State, t: Tid)
    requires RestOk(s) && t in s.threads && t != IDLE && s.Queue(ExitOf(t)).list == []
    ensures RestOk(Retire(s, t))
  {
    assert t !in s.free;
  }

  /** Freeing a slot that is free already only moves it to the end of the list. */
  lemma RetireFree(s: State, t: Tid)
    requires Inv(s) && t in s.free
    ensures Inv(Retire(s, t)) && Retire(s, t) == s.(free := Unlisted(s.free, t) + [t])
  {
    RemovedAt(s.free, IndexOf(s.free, t));
    OneMoreNoDup(Unlisted(s.free, t), t);
    assert s.threads - {t} == s.threads;
  }

  lemma RetireTimers(s: State, t: Tid)
    requires TimersOk(s) && NoTimer(s, t)
    ensures TimersOk(Retire(s, t))
  {
    forall p <- s.timers ensures TimerFits(s.threads - {t}, p) { assert TimerFits(s.threads, p); }
  }

  lemma RetireOk(s: State, t: Tid)
    requires Core(s) && t in s.threads && t != IDLE && s.threads[t].phase in {Suspended, Running, Death}
    requires NoTimer(s, t) && s.Queue(ExitOf(t)).list == []
    ensures Core(Retire(s, t))
  {
    RetireReady(s, t);
    RetireWaits(s, t);
    RetireRest(s, t);
    RetireTimers(s, t);
  }

  lemma DeadStateOk(s: State, retcode: int)
    requires Inv(s) && s.current != IDLE && !s.threads[s.current].detached
    ensures Core(s.With(s.current, s.threads[s.current].(phase := Death, retcode := retcode)))
  {
    var s1 := s.With(s.current, s.threads[s.current].(phase := Death, retcode := retcode));
    RunningHasNoTimer(s);
    ReadyUntouched(s, s1, s.current);
    WaitUntouched(s, s1, s.current);
    TimersUntouched(s, s1, s.current);
    RestUntouched(s, s1, s.current);
  }

  lemma DieParks(s: State, retcode: int)
    requires Inv(s) && s.current != IDLE
    ensures Parked(Die(s, retcode))
  {
    RunningHasNoTimer(s);
    if s.threads[s.current].detached {
      RetireOk(s, s.current);
    } else {
      DeadStateOk(s, retcode);
      DeadIsParked(s.With(s.current, s.threads[s.current].(phase := Death, retcode := retcode)));
    }
  }

  lemma ExitOk(s: State, retcode: int)
    requires Inv(s) && s.current != IDLE
    ensures Inv(Exit(s, retcode))
  {
    DieParks(s, retcode);
    ReschedOk(Die(s, retcode));
  }

  lemma DeadIsParked(s: State)
    requires Core(s) && s.Is(s.current, Death)
    ensures Parked(ReleaseAll(s, ExitOf(s.current), 0))
  {
    NobodyRuns(s);
    ReleaseAllOk(s, ExitOf(s.current), 0);
    DeadStaysParked(s, ReleaseAll(s, ExitOf(s.current), 0));
  }

  lemma DeadStaysParked(s: State, s': State)
    requires WaitOk(s) && s.Is(s.current, Death) && forall t <- s.threads :: s.threads[t].phase != Running
    requires AllReleased(s, s', ExitOf(s.current), 0) && Core(s')
    ensures Parked(s')
  {
    ListedIsBlocked(s, ExitOf(s.current), s.current);
  }

  lemma DetachOk(s: State, t: Tid)
    requires Inv(s) && t in s.threads && s.threads[t].phase != Death
    ensures Inv(Detach(s, t))
  {
    WakeAllQuietly(s, ExitOf(t), ERR_THREAD_DETACHED);
    RunningIsKept(s, ReleaseAll(s, ExitOf(t), ERR_THREAD_DETACHED), ExitOf(t), ERR_THREAD_DETACHED);
    SameRoleOk(ReleaseAll(s, ExitOf(t), ERR_THREAD_DETACHED), Detach(s, t), t);
  }

  /** `s'` differs from `s` only in thread `t`, which keeps what the queues depend on. */
  ghost predicate SameRole(s: State, s': State, t: Tid) {
    && t in s.threads && t in s'.threads && s' == s.(threads := s.threads[t := s'.threads[t]])
    && s'.threads[t].phase == s.threads[t].phase && s'.threads[t].priority == s.threads[t].priority
    && s'.threads[t].idle == s.threads[t].idle && s'.threads[t].blockedOn == s.threads[t].blockedOn
  }

  lemma SameRoleReady(s: State, s': State, t: Tid)
    requires ReadyOk(s) && SameRole(s, s', t)
    ensures ReadyOk(s')
  {
  }

  lemma SameRoleWaits(s: State, s': State, t: Tid)
    requires WaitOk(s) && SameRole(s, s', t)
    ensures WaitOk(s')
  {
    forall q, u ensures ListedIffBlocked(s'.threads, s'.waits, q, u) { ListedIsBlocked(s, q, u); }
  }

  lemma SameRoleTimers(s: State, s': State, t: Tid)
    requires TimersOk(s) && SameRole(s, s', t)
    ensures TimersOk(s')
  {
  }

  lemma SameRoleOk(s: State, s': State, t: Tid)
    requires Inv(s) && SameRole(s, s', t)
    requires s'.threads[t].detached ==> s.Queue(ExitOf(t)).list == []
    ensures Inv(s')
  {
    SameRoleReady(s, s', t);
    SameRoleWaits(s, s', t);
    SameRoleTimers(s, s', t);
    SameRoleRest(s, s', t);
  }

  lemma SameRoleRest(s: State, s': State, t: Tid)
    requires RestOk(s) && SameRole(s, s', t) && (s'.threads[t].detached ==> s.Queue(ExitOf(t)).list == [])
    ensures RestOk(s')
  {
  }

  lemma OnlyRestersHaveTimers(s: State, t: Tid)
    requires TimersOk(s) && t in s.threads && s.threads[t].phase in {Suspended, Running, Death}
    ensures NoTimer(s, t)
  {
    forall p <- s.timers ensures p.id != OfThread(t) { assert TimerFits(s.threads, p); }
  }

  /** thread_join of a thread that is already dead. */
  lemma JoinOk(s: State, t: Tid)
    requires Inv(s) && s.Is(t, Death)
    ensures Inv(Retire(s, t))
  {
    OnlyRestersHaveTimers(s, t);
    assert t != IDLE && s.Queue(ExitOf(t)).list == [];
    RetireOk(s, t);
  }

  lemma MayBecomeIdle(s: State)
    requires Inv(s) && s.current == IDLE
    ensures |s.runQueue| > 0 && Inv(s.With(s.current, s.threads[s.current].(priority := IDLE_PRIORITY, idle := true)))
  {
    CurrentChanged(s, s.threads[s.current].(priority := IDLE_PRIORITY, idle := true));
  }

  lemma BecomeIdleOk(s: State)
    requires Inv(s) && s.current == IDLE
    ensures |s.runQueue| > 0 && Inv(BecomeIdle(s))
  {
    MayBecomeIdle(s);
    YieldOk(s.With(s.current, s.threads[s.current].(priority := IDLE_PRIORITY, idle := true)));
  }
}
