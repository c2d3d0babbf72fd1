/** What each operation does to the records of the threads it is about (kernel/thread.c, kernel/wait_queue.c). */
module KernelSchedulerEffects {
  import opened Common
  import opened KernelTimer
  import opened KernelTimerTick
  import opened KernelSchedulerState
  import opened KernelSchedulerOps
  import opened KernelSchedulerSteps
  import opened KernelSchedulerTick
  import opened KernelSchedulerRuns
  import opened KernelSchedulerRest
  import opened KernelSchedulerWait
  import opened KernelSchedulerJoin
  import opened KernelSchedulerTurn
  import opened KernelSchedulerOutcomes

  // ---------------------------------------------------------------- coming and going

  /** A thread is created in the first free slot, suspended, with the priority that has been asked for, not to be
      queued and not waited for by anybody; everything else stays. Without a free slot nothing happens. */
  lemma CreatedIsSuspended(s: State, priority: nat)
    requires Inv(s) && priority < NUM_PRIORITY
    ensures var s' := Step(s, DoCreate(priority));
      if s.free == [] then s' == s
      else
        var t := s.free[0];
        && t !in s.threads && s'.threads.Keys == s.threads.Keys + {t}
        && s'.Is(t, Suspended) && s'.threads[t].priority == priority && !s'.threads[t].detached && !s'.threads[t].idle
        && (forall u <- s.threads :: s'.threads[u] == s.threads[u])
        && s.free == [t] + s'.free && s'.runQueue == s.runQueue && s'.timers == s.timers && s'.current == s.current
        && forall q :: s'.Queue(q) == s.Queue(q)
  {
    if s.free != [] {
      assert s.free[0] in s.free && s.free == [s.free[0]] + s.free[1..];
      var t, s' := s.free[0], Step(s, DoCreate(priority));
      forall q ensures s'.Queue(q) == s.Queue(q) { ListedIsBlocked(s, ExitOf(t), t); }
    }
  }

  /** A switch leaves a thread that is not ready, the wait queues and the free slots as they are. */
  lemma SwitchLeaves(m: State, t: Tid)
    requires Parked(m) && !m.Is(t, Ready)
    ensures var s' := Resched(m);
      && s'.current != t && s'.waits == m.waits && s'.free == m.free
      && (t in s'.threads <==> t in m.threads) && (t in m.threads ==> s'.threads[t] == m.threads[t])
  {
    ReschedSwitches(m);
  }

  lemma DeadBeforeSwitch(s: State, retcode: int)
    requires Inv(s) && s.current != IDLE && !s.threads[s.current].detached
    ensures var t, m := s.current, Die(s, retcode);
      m.Is(t, Death) && m.threads[t].retcode == retcode && m.Queue(ExitOf(t)).list == []
  {
    var t := s.current;
    DeadStateOk(s, retcode);
    ReleaseAllOk(s.With(t, s.threads[t].(phase := Death, retcode := retcode)), ExitOf(t), 0);
    ListedIsBlocked(s, ExitOf(t), t);
  }

  lemma SlotFreed(s: State)
    requires Inv(s)
    ensures var m := Retire(s, s.current); s.current !in m.threads && m.free == s.free + [s.current]
  {
    assert s.current !in s.free;
  }

  /** A thread that exits is dead with its exit code, and nobody waits for it any longer... */
  lemma ExitedIsDead(s: State, retcode: int)
    requires Inv(s) && s.current != IDLE && !s.threads[s.current].detached
    ensures var t, s' := s.current, Exit(s, retcode);
      s'.current != t && s'.Is(t, Death) && s'.threads[t].retcode == retcode && s'.Queue(ExitOf(t)).list == []
  {
    DieParks(s, retcode);
    DeadBeforeSwitch(s, retcode);
    SwitchLeaves(Die(s, retcode), s.current);
  }

  /** ... and if it has been detached its slot is free. */
  lemma ExitedIsGone(s: State, retcode: int)
    requires Inv(s) && s.current != IDLE && s.threads[s.current].detached
    ensures var t, s' := s.current, Exit(s, retcode);
      s'.current != t && t !in s'.threads && s'.free == s.free + [t]
  {
    DieParks(s, retcode);
    SlotFreed(s);
    SwitchLeaves(Retire(s, s.current), s.current);
  }

  lemma OneMarked(s: State, t: Tid)
    requires t in s.threads
    ensures var s' := s.With(t, s.threads[t].(detached := true));
      && s'.threads[t] == s.threads[t].(detached := true) && s'.threads.Keys == s.threads.Keys
      && s'.waits == s.waits && s'.free == s.free
  {
  }

  /** A thread that is detached is marked, is otherwise what it was, and nobody waits for it any longer. */
  lemma DetachedIsMarked(s: State, t: Tid)
    requires Inv(s) && t in s.threads
    ensures var s' := Detach(s, t);
      && t in s'.threads && s'.threads[t].detached && s'.Queue(ExitOf(t)).list == []
      && (t !in s.Queue(ExitOf(t)).list ==> s'.threads[t] == s.threads[t].(detached := true))
      && s'.threads.Keys == s.threads.Keys && s'.free == s.free
  {
    ReleaseAllOk(s, ExitOf(t), ERR_THREAD_DETACHED);
    OneMarked(ReleaseAll(s, ExitOf(t), ERR_THREAD_DETACHED), t);
  }

  /** What thread_join answers at once, and what becomes of the thread: a detached thread is refused and stays; a
      dead one is freed; one that is alive is waited for, but freed if the timeout is zero. */
  lemma JoinAnswers(s: State, t: Tid, timeout: Option<nat>)
    requires Inv(s) && t in s.threads && s.current != IDLE && t != s.current
    ensures var (s', answer) := Join(s, t, timeout);
      if s.threads[t].detached then s' == s && answer == Some(-ERR_THREAD_DETACHED)
      else if s.Is(t, Death) || timeout == Some(0) then
        answer == Some(NO_ERR) && s'.threads == s.threads - {t} && t in s'.free && s'.current == s.current
      else answer == None && Waiting(s', s.current, ExitOf(t), TimeoutOf(s, timeout))
  {
    if !s.threads[t].detached && s.threads[t].phase != Death && timeout != Some(0) {
      BlockStartsWait(s, ExitOf(t), timeout);
    }
  }

  /** The idle thread stands in no queue. */
  ghost predicate IdleStands(s: State, priority: nat) {
    && s.Is(IDLE, if s.current == IDLE then Running else Ready)
    && s.threads[IDLE].idle && s.threads[IDLE].priority == priority
    && forall p :: 0 <= p < |s.runQueue| ==> IDLE !in s.runQueue[p]
  }

  lemma IdleIsNotQueued(s: State)
    requires ReadyOk(s) && IDLE in s.threads && s.threads[IDLE].idle
    ensures forall p :: 0 <= p < |s.runQueue| ==> IDLE !in s.runQueue[p]
  {
  }

  lemma IdleStaysIdle(k: State)
    requires Parked(k) && k.Is(IDLE, Ready) && k.threads[IDLE].idle && k.current == IDLE
    ensures IdleStands(Resched(k), k.threads[IDLE].priority)
  {
    ReschedSwitches(k);
    IdleIsNotQueued(Resched(k));
  }

  /** It goes on exactly if no other thread is ready. */
  lemma IdleGoesOnExactlyWhen(k: State)
    requires Parked(k)
    ensures Resched(k).current == IDLE && k.Is(IDLE, Ready) && k.threads[IDLE].idle ==> forall u :: !Contends(k, u)
    ensures (forall u :: !Contends(k, u)) ==> Resched(k).current == IDLE
  {
    ReschedSwitches(k);
    if u :| Contends(k, u) { ContenderPicked(k, u); } else { NobodyPicked(k); }
  }

  lemma IdleYields(m: State)
    requires Inv(m) && m.current == IDLE && m.threads[IDLE].idle
    ensures m.threads[m.current].priority < |m.runQueue|
    ensures IdleStands(Yield(m), m.threads[IDLE].priority)
    ensures Yield(m).current == IDLE <==> forall u :: !Contends(m, u)
  {
    YieldParks(m);
    var k := Park(m.With(IDLE, m.threads[IDLE].(quantum := 0)));
    assert forall u :: Contends(m, u) <==> Contends(k, u);
    IdleStaysIdle(k);
    IdleGoesOnExactlyWhen(k);
  }

  /** The thread that becomes idle is marked and has the lowest number, stands in no queue, and goes on exactly if
      no other thread is ready. */
  lemma BecomesIdle(s: State)
    requires Inv(s) && s.current == IDLE
    ensures |s.runQueue| > 0 && IdleStands(BecomeIdle(s), IDLE_PRIORITY)
    ensures BecomeIdle(s).current == IDLE <==> forall u :: !Contends(s, u)
  {
    var m := s.With(IDLE, s.threads[IDLE].(priority := IDLE_PRIORITY, idle := true));
    MayBecomeIdle(s);
    IdleYields(m);
    SameContenders(s, m);
  }

  lemma SameContenders(s: State, m: State)
    requires s.Is(IDLE, Running) && m.Is(IDLE, Running) && m.threads == s.threads[IDLE := m.threads[IDLE]]
    ensures (forall u :: !Contends(s, u)) <==> (forall u :: !Contends(m, u))
  {
    assert forall u :: Contends(s, u) <==> Contends(m, u);
  }

  lemma ContenderPicked(k: State, u: Tid)
    requires Parked(k) && Contends(k, u)
    ensures PickNext(k).0 in k.threads && !k.threads[PickNext(k).0].idle
  {
    ContenderIsQueued(k, u);
    PickNextQueued(k);
    DequeueIsReady(k, Lowest(k.bitmap, 0));
  }

  lemma NobodyPicked(k: State)
    requires Parked(k) && forall u :: !Contends(k, u)
    ensures PickNext(k).0 == IDLE
  {
    PickNextQueued(k);
    if Lowest(k.bitmap, 0) < NUM_PRIORITY {
      DequeueIsReady(k, Lowest(k.bitmap, 0));
      assert Contends(k, PickNext(k).0);
    }
  }

  // ---------------------------------------------------------------- wait queues

  /** A thread that blocks stands at the end of the wait queue, and another one runs. */
  lemma BlockedIsLast(s: State, q: Qid, timeout: Option<nat>)
    requires Inv(s) && s.current != IDLE && CanWaitOn(s, q) && timeout != Some(0)
    ensures var s' := Block(s, q, timeout);
      && s'.Queue(q).list == s.Queue(q).list + [s.current] && s'.Queue(q).count == |s.Queue(q).list| + 1
      && Waiting(s', s.current, q, TimeoutOf(s, timeout)) && s'.current != s.current
  {
    EnterWaitOk(s, q, timeout);
    EnterWaitLists(s, q, timeout);
    BlockStartsWait(s, q, timeout);
    SwitchLeaves(EnterWait(s, q, timeout), s.current);
  }

  lemma ReleasedIsQueued(s: State, q: Qid, error: int)
    requires s.Queue(q).list != [] && s.Queue(q).list[0] in s.threads
    requires s.threads[s.Queue(q).list[0]].priority < |s.runQueue|
    ensures var s', u := Release(s, q, 0, error), s.Queue(q).list[0];
      && s'.Is(u, Ready) && s'.threads[u].blockRet == error && QueuedLast(s', u, s'.threads[u].priority)
      && s'.Queue(q).list == s.Queue(q).list[1..] && s'.current == s.current
  {
    assert s.Queue(q).list[..0] + s.Queue(q).list[0 + 1..] == s.Queue(q).list[1..];
  }

  /** The first of a wait queue is woken: it is ready with the code, stands at the end of its run queue, and the
      others move up. */
  lemma WokenIsQueued(s: State, q: Qid, error: int)
    requires Inv(s) && s.Queue(q).list != []
    ensures s.threads[s.current].priority < |s.runQueue|
    ensures var s', u := WakeOne(s, q, false, error), s.Queue(q).list[0];
      && s'.Is(u, Ready) && s'.threads[u].blockRet == error && QueuedLast(s', u, s'.threads[u].priority)
      && s'.Queue(q).list == s.Queue(q).list[1..] && s'.current == s.current
  {
    InvBounds(s);
    ReleaseReady(s, q, 0, error);
    ReleasedIsQueued(s, q, error);
  }
}
