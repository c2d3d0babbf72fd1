/** What each operation comes to for the threads it is about, and who runs after it (kernel/thread.c,
    kernel/wait_queue.c). */
module KernelSchedulerOutcomes {
  import opened Common
  import opened KernelTimer
  import opened KernelTimerTick
  import opened KernelSchedulerState
  import opened KernelSchedulerOps
  import opened KernelSchedulerSteps
  import opened KernelSchedulerTick
  import opened KernelSchedulerRuns
  import opened KernelSchedulerWait
  import opened KernelSchedulerTurn

  // ---------------------------------------------------------------- who runs

  /** A thread that could run and is not the idle thread. */
  predicate Contends(s: State, u: Tid) { s.Is(u, Ready) && !s.threads[u].idle }

  /** No ready thread has a lower number than the running one, and the idle thread runs only if none is ready. */
  ghost predicate BestRuns(s: State) {
    && s.current in s.threads
    && forall u :: Contends(s, u) ==>
         !s.threads[s.current].idle && s.threads[s.current].priority <= s.threads[u].priority
  }

  /** A thread that contends keeps its queue in use. */
  lemma ContenderIsQueued(s: State, u: Tid)
    requires ReadyOk(s) && Contends(s, u)
    ensures u in s.runQueue[s.threads[u].priority] && s.threads[u].priority in s.bitmap
    ensures Lowest(s.bitmap, 0) <= s.threads[u].priority < NUM_PRIORITY
  {
  }

  lemma ReschedPicksBest(s: State)
    requires Parked(s)
    ensures BestRuns(Resched(s))
  {
    var q, n, s' := Lowest(s.bitmap, 0), PickNext(s).0, Resched(s);
    PickNextQueued(s);
    ReschedSwitches(s);
    if q < NUM_PRIORITY { DequeueIsReady(s, q); }
    forall u | Contends(s', u)
      ensures !s'.threads[s'.current].idle && s'.threads[s'.current].priority <= s'.threads[u].priority
    {
      assert u != n && s'.threads[u] == s.threads[u];
      ContenderIsQueued(s, u);
    }
  }

  /** The operations that end in thread_resched. */
  predicate Reschedules(s: State, e: Event) {
    match e
    case DoYield => true
    case DoPreempt => true
    case DoSleep(_) => true
    case DoExit(_) => true
    case DoBecomeIdle => true
    case DoBlock(_, timeout) => timeout != Some(0)
    case DoResume(t, intsDisabled) => s.Is(t, Suspended) && !intsDisabled
    case DoWakeOne(q, reschedule, _) => reschedule && s.Queue(q).list != []
    case DoWakeAll(q, reschedule, _) => reschedule && s.Queue(q).list != []
    case _ => false
  }

  lemma YieldPicksBest(s: State)
    requires Inv(s)
    ensures s.threads[s.current].priority < |s.runQueue| && BestRuns(Yield(s)) && BestRuns(Preempt(s))
  {
    YieldParks(s);
    ParkOk(s);
    ReschedPicksBest(Park(s.With(s.current, s.threads[s.current].(quantum := 0))));
    ReschedPicksBest(Park(s));
  }

  lemma WakeOnePicksBest(s: State, q: Qid, error: int)
    requires Inv(s) && !s.threads[s.current].idle && s.Queue(q).list != []
    ensures s.threads[s.current].priority < |s.runQueue| && BestRuns(WakeOne(s, q, true, error))
  {
    InvBounds(s);
    RunningHasNoTimer(s);
    MakeReadyOk(s, s.current);
    WakeOneFrom(MakeReady(s, s.current), q, error);
    ReschedPicksBest(Release(MakeReady(s, s.current), q, 0, error));
  }

  lemma WakeAllPicksBest(s: State, q: Qid, error: int)
    requires Inv(s) && !s.threads[s.current].idle && s.Queue(q).list != []
    ensures s.threads[s.current].priority < |s.runQueue| && BestRuns(WakeAll(s, q, true, error).0)
  {
    InvBounds(s);
    CountIsNumberWoken(s, q, true, error);
    RunningHasNoTimer(s);
    MakeReadyOk(s, s.current);
    WakeAllParks(MakeReady(s, s.current), q, error);
    ReschedPicksBest(ReleaseAll(MakeReady(s, s.current), q, error));
  }

  lemma BlockPicksBest(s: State, q: Qid, timeout: Option<nat>)
    requires Inv(s) && s.current != IDLE && CanWaitOn(s, q)
    ensures if timeout != Some(0) then BestRuns(Block(s, q, timeout)) else Block(s, q, timeout) == s
  {
    if timeout != Some(0) {
      EnterWaitOk(s, q, timeout);
      ReschedPicksBest(EnterWait(s, q, timeout));
    }
  }

  lemma ResumePicksBest(s: State, t: Tid, intsDisabled: bool)
    requires Inv(s) && t in s.threads
    ensures s.threads[s.current].priority < |s.runQueue| && s.threads[t].priority < |s.runQueue|
    ensures var s' := Resume(s, t, intsDisabled);
      if s.Is(t, Suspended) && !intsDisabled then BestRuns(s') else s'.current == s.current
  {
    InvBounds(s);
    if s.threads[t].phase == Suspended {
      ResumedIsQueued(s, t);
      YieldPicksBest(MakeReady(s, t));
    }
  }

  lemma WakeOneLeavesOrPicks(s: State, q: Qid, reschedule: bool, error: int)
    requires Inv(s) && !(reschedule && s.threads[s.current].idle)
    ensures s.threads[s.current].priority < |s.runQueue|
    ensures var s' := WakeOne(s, q, reschedule, error);
      if reschedule && s.Queue(q).list != [] then BestRuns(s') else s'.current == s.current
  {
    InvBounds(s);
    if s.Queue(q).list != [] {
      if reschedule { WakeOnePicksBest(s, q, error); } else { WakeOneFrom(s, q, error); }
    }
  }

  lemma WakeAllLeavesOrPicks(s: State, q: Qid, reschedule: bool, error: int)
    requires Inv(s) && !(reschedule && s.threads[s.current].idle)
    ensures s.threads[s.current].priority < |s.runQueue|
    ensures var s' := WakeAll(s, q, reschedule, error).0;
      if reschedule && s.Queue(q).list != [] then BestRuns(s') else s'.current == s.current
  {
    CountIsNumberWokenHere(s, q, reschedule, error);
    if reschedule && s.Queue(q).list != [] {
      WakeAllPicksBest(s, q, error);
    } else {
      WakeAllQuietly(s, q, error);
      CountIsNumberWoken(s, q, reschedule, error);
    }
  }

  /** After each of them one of the best runs; no other operation changes who runs. */
  lemma BestRunsAfterRescheduling(s: State, e: Event)
    requires Inv(s) && Allowed(s, e)
    ensures if Reschedules(s, e) then BestRuns(Step(s, e)) else Step(s, e).current == s.current
  {
    InvBounds(s);
    match e
    case DoYield => YieldPicksBest(s);
    case DoPreempt => YieldPicksBest(s);
    case DoSleep(delay) => SleepParks(s, delay); ReschedPicksBest(FallAsleep(s, delay));
    case DoExit(retcode) => DieParks(s, retcode); ReschedPicksBest(Die(s, retcode));
    case DoBecomeIdle =>
      MayBecomeIdle(s);
      YieldPicksBest(s.With(s.current, s.threads[s.current].(priority := IDLE_PRIORITY, idle := true)));
    case DoBlock(q, timeout) => BlockPicksBest(s, q, timeout);
    case DoResume(t, ints) => ResumePicksBest(s, t, ints);
    case DoWakeOne(q, r, error) => WakeOneLeavesOrPicks(s, q, r, error);
    case DoWakeAll(q, r, error) => WakeAllLeavesOrPicks(s, q, r, error);
    case DoDetach(t) => WakeAllQuietly(s, ExitOf(t), ERR_THREAD_DETACHED);
    case DoTick(now, react) => TickFires(s, now, react);
    case _ =>
  }

  // ---------------------------------------------------------------- giving way

  predicate QueuedLast(s: State, t: Tid, p: nat) {
    p < |s.runQueue| && s.runQueue[p] != [] && s.runQueue[p][|s.runQueue[p]| - 1] == t
  }

  lemma QueuedIsReady(s: State, t: Tid, p: nat)
    requires ReadyOk(s) && p < |s.runQueue| && t in s.runQueue[p]
    ensures s.Is(t, Ready) && s.threads[t].priority == p
  {
  }

  /** The first thread has been taken off one of the queues, or none has. */
  predicate FirstTakenOff(queues: seq<seq<Tid>>, after: seq<seq<Tid>>, n: Tid) {
    || after == queues
    || exists q :: 0 <= q < |queues| && queues[q] != [] && queues[q][0] == n && after == queues[q := queues[q][1..]]
  }

  /** What a switch does to the run queues. */
  lemma ReschedQueues(m: State)
    requires Parked(m)
    ensures ReadyOk(Resched(m)) && FirstTakenOff(m.runQueue, Resched(m).runQueue, Resched(m).current)
  {
    PickNextQueued(m);
    ReschedSwitches(m);
  }

  lemma LastStays(queues: seq<seq<Tid>>, after: seq<seq<Tid>>, n: Tid, t: Tid, p: nat)
    requires FirstTakenOff(queues, after, n) && n != t
    requires p < |queues| && queues[p] != [] && queues[p][|queues[p]| - 1] == t
    ensures p < |after| && after[p] != [] && after[p][|after[p]| - 1] == t && t in after[p]
  {
    assert t in queues[p];
  }

  lemma SwitchKeepsLast(m: State, s': State, t: Tid, p: nat)
    requires ReadyOk(s') && FirstTakenOff(m.runQueue, s'.runQueue, s'.current) && QueuedLast(m, t, p)
    requires s'.current != t
    ensures QueuedLast(s', t, p) && s'.Is(t, Ready)
  {
    LastStays(m.runQueue, s'.runQueue, s'.current, t, p);
    QueuedIsReady(s', t, p);
  }

  lemma ReschedKeepsLast(m: State, t: Tid, p: nat)
    requires Parked(m) && QueuedLast(m, t, p) && Resched(m).current != t
    ensures QueuedLast(Resched(m), t, p) && Resched(m).Is(t, Ready)
  {
    ReschedQueues(m);
    SwitchKeepsLast(m, Resched(m), t, p);
  }

  /** A ready thread that the caller has to let go first. */
  ghost predicate HasRival(s: State) {
    s.current in s.threads && exists u :: Contends(s, u) && s.threads[u].priority <= s.threads[s.current].priority
  }

  /** A caller that is preempted goes on exactly if every ready thread has a higher number, and otherwise stands
      at the end of its queue. */
  lemma PreemptedGoesOnExactlyWhen(s: State)
    requires Inv(s) && !s.threads[s.current].idle
    ensures s.threads[s.current].priority < |s.runQueue| && Parked(Park(s))
    ensures Preempt(s).current == s.current <==> !HasRival(s)
    ensures Preempt(s).current != s.current ==>
              Preempt(s).Is(s.current, Ready) && QueuedLast(Preempt(s), s.current, s.threads[s.current].priority)
  {
    ParkOk(s);
    var m := Park(s);
    ReschedSwitches(m);
    if u :| Contends(s, u) && s.threads[u].priority <= s.threads[s.current].priority { ParkedGivesWay(s, u); }
    if Preempt(s).current != s.current {
      var n := Preempt(s).current;
      ContenderIsQueued(m, s.current);
      PickNextQueued(m);
      DequeueIsReady(m, Lowest(m.bitmap, 0));
      assert Contends(s, n) && s.threads[n].priority <= s.threads[s.current].priority;
      ReschedKeepsLast(m, s.current, s.threads[s.current].priority);
    }
  }

  /** The same for thread_yield. */
  lemma YielderGoesOnExactlyWhen(s: State)
    requires Inv(s) && !s.threads[s.current].idle
    ensures s.threads[s.current].priority < |s.runQueue|
    ensures Yield(s).current == s.current <==> !HasRival(s)
    ensures Yield(s).current != s.current ==>
              Yield(s).Is(s.current, Ready) && QueuedLast(Yield(s), s.current, s.threads[s.current].priority)
  {
    var th := s.threads[s.current].(quantum := 0);
    CurrentChanged(s, th);
    PreemptedGoesOnExactlyWhen(s.With(s.current, th));
    SameRivals(s, s.With(s.current, th));
  }

  lemma SameRivals(s: State, m: State)
    requires s.current in s.threads && s.threads[s.current].phase == Running
    requires m == s.With(s.current, s.threads[s.current].(quantum := 0))
    ensures HasRival(s) <==> HasRival(m)
  {
    assert forall u :: Contends(s, u) <==> Contends(m, u);
    if u :| Contends(s, u) && s.threads[u].priority <= s.threads[s.current].priority {
      assert Contends(m, u) && m.threads[u].priority <= m.threads[m.current].priority;
    }
    if u :| Contends(m, u) && m.threads[u].priority <= m.threads[m.current].priority {
      assert Contends(s, u) && s.threads[u].priority <= s.threads[s.current].priority;
    }
  }

  // ---------------------------------------------------------------- a thread that is resumed

  /** Thread `t` has been queued behind `n` others at most, and nobody but `c` behind it; or it runs already. */
  ghost predicate HasBeenQueued(s: State, t: Tid, p: nat, n: nat, c: Tid) {
    || s.current == t
    || (s.Is(t, Ready) && exists i: nat :: i <= n && QueuedAt(s, t, p, i) && OnlyBehind(s, p, i, c))
  }

  predicate OnlyBehind(s: State, p: nat, i: nat, c: Tid)
    requires p < |s.runQueue|
  {
    forall j :: i < j < |s.runQueue[p]| ==> s.runQueue[p][j] == c
  }

  lemma PlaceStays(queues: seq<seq<Tid>>, after: seq<seq<Tid>>, n: Tid, t: Tid, p: nat, i: nat, c: Tid) returns (k: nat)
    requires FirstTakenOff(queues, after, n) && n != t
    requires p < |queues| && i < |queues[p]| && queues[p][i] == t
    requires forall j :: i < j < |queues[p]| ==> queues[p][j] == c
    ensures k <= i && p < |after| && k < |after[p]| && after[p][k] == t && t in after[p]
    ensures forall j :: k < j < |after[p]| ==> after[p][j] == c
  {
    k := i;
    if after[p] != queues[p] {
      assert after[p] == queues[p][1..];
      k := i - 1;
    }
  }

  lemma SwitchMovesOn(m: State, s': State, t: Tid, p: nat, i: nat, c: Tid)
    requires ReadyOk(s') && FirstTakenOff(m.runQueue, s'.runQueue, s'.current)
    requires QueuedAt(m, t, p, i) && OnlyBehind(m, p, i, c)
    ensures HasBeenQueued(s', t, p, i, c)
  {
    if s'.current != t {
      var k := PlaceStays(m.runQueue, s'.runQueue, s'.current, t, p, i, c);
      assert QueuedAt(s', t, p, k) && OnlyBehind(s', p, k, c);
      QueuedIsReady(s', t, p);
    }
  }

  lemma ReschedMovesOn(m: State, t: Tid, p: nat, i: nat, c: Tid)
    requires Parked(m) && QueuedAt(m, t, p, i) && OnlyBehind(m, p, i, c)
    ensures HasBeenQueued(Resched(m), t, p, i, c)
  {
    ReschedQueues(m);
    SwitchMovesOn(m, Resched(m), t, p, i, c);
  }

  lemma YieldMovesOn(m: State, t: Tid, p: nat, i: nat)
    requires Inv(m) && QueuedAt(m, t, p, i) && i == |m.runQueue[p]| - 1
    ensures m.threads[m.current].priority < |m.runQueue| && HasBeenQueued(Yield(m), t, p, i, m.current)
  {
    YieldParks(m);
    ReschedMovesOn(Park(m.With(m.current, m.threads[m.current].(quantum := 0))), t, p, i, m.current);
  }

  /** A suspended thread that is resumed is ready, with those in front of it that were queued before and nobody
      but the caller behind it, or it runs at once. */
  lemma ResumedIsReady(s: State, t: Tid, intsDisabled: bool)
    requires Inv(s) && t != IDLE && s.Is(t, Suspended)
    ensures s.threads[t].priority < |s.runQueue|
    ensures var s', p := Step(s, DoResume(t, intsDisabled)), s.threads[t].priority;
      && HasBeenQueued(s', t, p, |s.runQueue[p]|, s.current)
      && (intsDisabled ==> s'.current == s.current && s'.Is(t, Ready) && QueuedLast(s', t, p))
  {
    InvBounds(s);
    ResumedIsQueued(s, t);
    var m, p := MakeReady(s, t), s.threads[t].priority;
    assert QueuedAt(m, t, p, |s.runQueue[p]|) && OnlyBehind(m, p, |s.runQueue[p]|, s.current);
    if intsDisabled {
      assert m.Is(t, Ready);
    } else {
      YieldMovesOn(m, t, p, |s.runQueue[p]|);
    }
  }

  /** With interrupts enabled the caller goes on exactly if every ready thread, the resumed one among them, has a
      higher number. */
  lemma ResumerGoesOnExactlyWhen(s: State, t: Tid)
    requires Inv(s) && t != IDLE && s.Is(t, Suspended) && !s.threads[s.current].idle
    ensures s.threads[s.current].priority < |s.runQueue| && s.threads[t].priority < |s.runQueue|
    ensures Resume(s, t, false).current == s.current <==>
              !HasRival(s) && s.threads[t].priority > s.threads[s.current].priority
  {
    InvBounds(s);
    ResumedIsQueued(s, t);
    YielderGoesOnExactlyWhen(MakeReady(s, t));
    RivalsOfResumed(s, t);
  }

  lemma RivalsOfResumed(s: State, t: Tid)
    requires s.current in s.threads && s.Is(t, Suspended) && s.Is(s.current, Running) && !s.threads[t].idle
    requires s.threads[t].priority < |s.runQueue|
    ensures HasRival(MakeReady(s, t)) <==> HasRival(s) || s.threads[t].priority <= s.threads[s.current].priority
  {
    var m := MakeReady(s, t);
    assert forall u :: u != t ==> (Contends(s, u) <==> Contends(m, u));
    assert Contends(m, t) && !Contends(s, t);
    if u :| Contends(s, u) && s.threads[u].priority <= s.threads[s.current].priority {
      assert Contends(m, u) && m.threads[u].priority <= m.threads[m.current].priority;
    }
    if u :| Contends(m, u) && m.threads[u].priority <= m.threads[m.current].priority {
      assert u == t || (Contends(s, u) && s.threads[u].priority <= s.threads[s.current].priority);
    }
  }

  lemma ResumedPlace(s: State, t: Tid, intsDisabled: bool) returns (i: nat)
    requires Inv(s) && t != IDLE && s.Is(t, Suspended)
    ensures var s', p := Step(s, DoResume(t, intsDisabled)), s.threads[t].priority;
      p < |s.runQueue| && i <= |s.runQueue[p]| && (s'.current == t || QueuedAt(s', t, p, i))
  {
    i := 0;
    ResumedIsReady(s, t, intsDisabled);
    var s', p := Step(s, DoResume(t, intsDisabled)), s.threads[t].priority;
    if s'.current != t { i :| i <= |s.runQueue[p]| && QueuedAt(s', t, p, i) && OnlyBehind(s', p, i, s.current); }
  }

  lemma ResumedPlaceInRun(states: seq<State>, events: seq<Event>, a: nat, t: Tid, intsDisabled: bool) returns (i: nat)
    requires IsRun(states, events) && a < |events| && events[a] == DoResume(t, intsDisabled)
    requires states[a].Is(t, Suspended) && states[a].threads[t].priority < |states[a].runQueue|
    ensures i <= |states[a].runQueue[states[a].threads[t].priority]|
    ensures states[a + 1].current == t || QueuedAt(states[a + 1], t, states[a].threads[t].priority, i)
  {
    StepOfRun(states, events, a);
    i := ResumedPlace(states[a], t, intsDisabled);
  }

  /** In every run a resumed thread runs within its turn: after at most as many switches as threads were queued
      before it and one more, as long as nobody with a lower number is about. */
  lemma ResumedRunsWithinItsTurn(states: seq<State>, events: seq<Event>, a: nat, b: nat, t: Tid, intsDisabled: bool,
                                 p: nat)
    requires IsRun(states, events) && a < b < |states| && events[a] == DoResume(t, intsDisabled)
    requires states[a].Is(t, Suspended) && states[a].threads[t].priority == p < |states[a].runQueue|
    requires forall k :: a + 1 < k <= b ==> NobodyBelow(states[k], p)
    requires Switches(states, a + 1, b) > |states[a].runQueue[p]|
    ensures exists j :: a < j <= b && states[j].current == t
  {
    var i := ResumedPlaceInRun(states, events, a, t, intsDisabled);
    if states[a + 1].current != t { RunsWithinItsTurn(states, events, a + 1, b, t, p, i); }
  }
}
