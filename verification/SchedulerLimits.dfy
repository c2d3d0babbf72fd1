/** What the scheduler asks of the boot thread, which later becomes the idle thread. The source
    asserts in places that the caller is not the idle thread; that is not enough, for the thread is
    the scheduler's fallback from the start (kernel/thread.c, kernel/wait_queue.c). */
module KernelSchedulerLimits {
  import opened Common
  import opened KernelTimer
  import opened KernelSchedulerState
  import opened KernelSchedulerOps
  import opened KernelSchedulerSteps
  import opened KernelSchedulerRuns

  /** thread_sleep keeps the invariant exactly if the caller is not the boot or idle thread. */
  lemma SleepKeepsInvExactlyWhen(s: State, delay: nat)
    requires Inv(s)
    ensures Inv(Sleep(s, delay)) <==> s.current != IDLE
  {
    if s.current != IDLE {
      SleepOk(s, delay);
    } else {
      InsertedMembers(s.timers, Armed(s, delay, SleepHandler));
      AsleepIsNoFallback(FallAsleep(s, delay), Armed(s, delay, SleepHandler));
    }
  }

  /** wait_queue_block that does block, likewise. */
  lemma BlockKeepsInvExactlyWhen(s: State, q: Qid, timeout: Option<nat>)
    requires Inv(s) && CanWaitOn(s, q) && timeout != Some(0)
    ensures Inv(Block(s, q, timeout)) <==> s.current != IDLE
  {
    if s.current != IDLE {
      BlockOk(s, q, timeout);
    } else {
      WaitingIsNoFallback(EnterWait(s, q, timeout));
    }
  }

  /** The boot thread asleep: either it is chosen all the same and runs with its timer still set, or
      the fallback is gone. */
  lemma {:induction false} AsleepIsNoFallback(s: State, p: Timer)
    requires s.current == IDLE && s.Is(IDLE, Sleeping) && p in s.timers && p.id == OfThread(IDLE)
    requires p.callback == SleepHandler
    ensures !Inv(Resched(s))
  {
    var n, s' := PickNext(s).0, Resched(s);
    assert n == IDLE ==> s'.timers == s.timers && s'.Is(IDLE, Running);
    assert n != IDLE ==> IDLE in s'.threads && s'.threads[IDLE] == s.threads[IDLE];
  }

  /** The boot thread in a wait queue: either it runs while it still stands there, or the fallback is gone. */
  lemma {:induction false} WaitingIsNoFallback(s: State)
    requires s.current == IDLE && s.Is(IDLE, Blocked) && s.threads[IDLE].blockedOn.Some?
    ensures !Inv(Resched(s))
  {
    var n, s' := PickNext(s).0, Resched(s);
    assert n == IDLE ==> s'.Is(IDLE, Running) && s'.threads[IDLE].blockedOn.Some?;
    assert n != IDLE ==> IDLE in s'.threads && s'.threads[IDLE] == s.threads[IDLE];
  }

  /** thread_exit, likewise; the boot thread is detached from the start. */
  lemma ExitKeepsInvExactlyWhen(s: State, retcode: int)
    requires Inv(s) && (s.current == IDLE ==> s.threads[IDLE].detached)
    ensures Inv(Exit(s, retcode)) <==> s.current != IDLE
  {
    if s.current != IDLE {
      ExitOk(s, retcode);
    } else {
      assert IDLE !in Exit(s, retcode).threads;
    }
  }

  /** Nobody that is ready, and not the thread about to be woken, would run before the idle thread. */
  predicate IdleIsNext(s: State, q: Qid)
    requires s.current in s.threads && s.Queue(q).list != [] && s.Queue(q).list[0] in s.threads
  {
    var p := s.threads[s.current].priority;
    p < |s.runQueue| && (forall k :: 0 <= k <= p ==> s.runQueue[k] == []) &&
      s.threads[s.Queue(q).list[0]].priority >= p
  }

  /** The wake as such, with the caller queued before it and without. */
  lemma QueuedBeforeWake(s: State, q: Qid, error: int)
    requires s.current in s.threads && s.Queue(q).list != [] && s.Queue(q).list[0] in s.threads
    requires s.Queue(q).list[0] != s.current
    requires s.threads[s.current].priority < |s.runQueue| && s.threads[s.Queue(q).list[0]].priority < |s.runQueue|
    ensures var c, u, m := s.current, s.Queue(q).list[0], Release(MakeReady(s, s.current), q, 0, error);
      var r, p, pu := Release(s, q, 0, error), s.threads[s.current].priority, s.threads[u].priority;
      var queued := s.runQueue[p := s.runQueue[p] + [c]];
      && m.runQueue == queued[pu := queued[pu] + [u]] && r.runQueue == s.runQueue[pu := s.runQueue[pu] + [u]]
      && m.bitmap == s.bitmap + {p} + {pu} && r.bitmap == s.bitmap + {pu}
      && m.threads == r.threads[c := s.threads[c].(phase := Ready)] && c in r.threads && r.threads[c] == s.threads[c]
      && m == r.(threads := m.threads, runQueue := m.runQueue, bitmap := m.bitmap) && r.current == c
  {
  }

  lemma IdleIsPicked(s: State, q: Qid, error: int)
    requires BitmapOk(s.runQueue, s.bitmap) && s.current in s.threads && s.Queue(q).list != []
    requires s.Queue(q).list[0] in s.threads && s.Queue(q).list[0] != s.current && IdleIsNext(s, q)
    requires s.threads[s.Queue(q).list[0]].priority < |s.runQueue|
    ensures var m, r := Release(MakeReady(s, s.current), q, 0, error), Release(s, q, 0, error);
      PickNext(m) == (s.current, m.(runQueue := r.runQueue, bitmap := r.bitmap))
  {
    QueuedBeforeWake(s, q, error);
    var c, u := s.current, s.Queue(q).list[0];
    var p, pu := s.threads[c].priority, s.threads[u].priority;
    var m, r := Release(MakeReady(s, c), q, 0, error), Release(s, q, 0, error);
    assert m.runQueue[p] == if pu == p then [c, u] else [c];
    assert Lowest(m.bitmap, 0) == p;
    assert forall k :: 0 <= k < |s.runQueue| ==> Dequeue(m, p).runQueue[k] == r.runQueue[k];
    assert Dequeue(m, p).runQueue == r.runQueue;
    assert Dequeue(m, p).bitmap == r.bitmap;
  }

  /** A thread that has queued itself and is picked again goes on as if nothing had happened. */
  lemma SwitchedBack(m: State, r: State)
    requires m.current in r.threads && r.threads[m.current].phase == Running
    requires m.threads == r.threads[m.current := r.threads[m.current].(phase := Ready)]
    requires m == r.(threads := m.threads, runQueue := m.runQueue, bitmap := m.bitmap)
    requires PickNext(m) == (m.current, m.(runQueue := r.runQueue, bitmap := r.bitmap))
    ensures Resched(m) == r
  {
    assert m.threads[m.current := m.threads[m.current].(phase := Running)] == r.threads;
  }

  lemma IdleGoesOn(s: State, q: Qid, error: int)
    requires Inv(s) && s.Queue(q).list != [] && s.Queue(q).list[0] in s.threads && IdleIsNext(s, q)
    requires s.Is(s.Queue(q).list[0], Blocked)
    ensures WakeOne(s, q, true, error) == WakeOne(s, q, false, error)
  {
    InvBounds(s);
    QueuedBeforeWake(s, q, error);
    IdleIsPicked(s, q, error);
    var m, r := Release(MakeReady(s, s.current), q, 0, error), Release(s, q, 0, error);
    SwitchedBack(m, r);
  }

  lemma IdleStaysQueued(s: State, q: Qid, error: int)
    requires Inv(s) && s.threads[s.current].idle && s.Queue(q).list != [] && s.Queue(q).list[0] in s.threads
    requires s.Is(s.Queue(q).list[0], Blocked) && !IdleIsNext(s, q)
    requires s.threads[s.current].priority < |s.runQueue|
    ensures !Inv(WakeOne(s, q, true, error))
  {
    InvBounds(s);
    QueuedBeforeWake(s, q, error);
    var m := Release(MakeReady(s, s.current), q, 0, error);
    IdleBehindOthers(s, m, s.threads[s.current].priority, s.threads[s.Queue(q).list[0]].priority);
  }

  /** An idle thread in a run queue that is not the first to be taken off. */
  lemma IdleBehindOthers(s: State, m: State, p: nat, pu: nat)
    requires BitmapOk(s.runQueue, s.bitmap) && p < NUM_PRIORITY && |m.runQueue| == NUM_PRIORITY
    requires (forall k :: 0 <= k < |s.runQueue| ==> s.runQueue[k] <= m.runQueue[k]) && m.bitmap == s.bitmap + {p} + {pu}
    requires |m.runQueue[p]| > |s.runQueue[p]| && m.runQueue[p][|s.runQueue[p]|] == m.current
    requires m.current in m.threads && m.threads[m.current].idle
    requires (exists k :: 0 <= k <= p && s.runQueue[k] != []) || pu < p
    ensures !ReadyOk(Resched(m))
  {
    var low := Lowest(m.bitmap, 0);
    if low == p {
      assert s.runQueue[p] != [] by { assert forall k :: 0 <= k < p ==> k !in m.bitmap; }
      assert m.runQueue[p][1..][|s.runQueue[p]| - 1] == m.current;
    }
    assert m.current in Resched(m).runQueue[p];
    assert m.current in Resched(m).threads && Resched(m).threads[m.current].idle;
  }

  /** A rescheduling wake by the idle thread puts that thread, which no other operation queues, into a run
      queue. This does no harm exactly if it is the next to run. */
  lemma WakeByIdleKeepsInvExactlyWhen(s: State, q: Qid, error: int)
    requires Inv(s) && s.threads[s.current].idle && s.Queue(q).list != []
    ensures s.Queue(q).list[0] in s.threads && s.threads[s.current].priority < |s.runQueue|
    ensures Inv(WakeOne(s, q, true, error)) <==> IdleIsNext(s, q)
  {
    WakeOneFrom(s, q, error);
    ListedIsBlocked(s, q, s.Queue(q).list[0]);
    if IdleIsNext(s, q) { IdleGoesOn(s, q, error); } else { IdleStaysQueued(s, q, error); }
  }

  /** The first thing the boot thread does is to wait: nobody else is ready, so it goes on running
      while it stands in the queue. */
  lemma BootThreadRunsWhileWaiting(slots: seq<Tid>, n: nat)
    requires NoDup(slots) && IDLE !in slots
    ensures Inv(Initial(slots))
    ensures var s' := Block(Initial(slots), Other(n), None); s'.Is(IDLE, Running) && IDLE in s'.Queue(Other(n)).list
  {
    InitialOk(slots);
    var s := EnterWait(Initial(slots), Other(n), None);
    assert s.Queue(Other(n)).list == [] + [IDLE];
    assert s.bitmap == {};
  }
}
