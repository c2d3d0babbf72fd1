/** Who goes on after a wake-up that reschedules (wait_queue_wake_one and wait_queue_wake_all of
    kernel/wait_queue.c). */
module KernelSchedulerWaking {
  import opened Common
  import opened KernelTimer
  import opened KernelSchedulerState
  import opened KernelSchedulerOps
  import opened KernelSchedulerSteps
  import opened KernelSchedulerRuns
  import opened KernelSchedulerOutcomes

  /** One of them has a lower number than the caller. */
  predicate BetterAmong(s: State, list: seq<Tid>) {
    && s.current in s.threads
    && exists u <- list :: u in s.threads && s.threads[u].priority < s.threads[s.current].priority
  }

  /** From `s` to `m` the caller has been queued, and then those that were woken. */
  ghost predicate QueuedThenWoken(s: State, m: State, woken: seq<Tid>)
    requires s.current in s.threads
  {
    var p := s.threads[s.current].priority;
    && m.current == s.current && m.threads.Keys == s.threads.Keys
    && (forall u <- s.threads :: m.threads[u].priority == s.threads[u].priority)
    && (forall u :: Contends(m, u) <==> Contends(s, u) || u == s.current || u in woken)
    && p < |s.runQueue| == |m.runQueue| && s.runQueue[p] + [s.current] <= m.runQueue[p]
  }

  /** The caller goes on exactly if nobody of no higher number was ready, and nobody that was woken has a lower one:
      it stands in front of those that have the same. */
  lemma FirstGoesOn(s: State, m: State, woken: seq<Tid>)
    requires Inv(s) && !s.threads[s.current].idle && QueuedThenWoken(s, m, woken) && Parked(m)
    requires forall u <- woken :: s.Is(u, Blocked)
    ensures Resched(m).current == s.current <==> !HasRival(s) && !BetterAmong(s, woken)
  {
    NextIsFirst(m, s.current);
    CallerIsFirst(s, m, woken);
  }

  /** The next thread is the first of the lowest-numbered queue that has one. */
  lemma NextIsFirst(m: State, c: Tid)
    requires Parked(m) && Contends(m, c)
    ensures var q := Lowest(m.bitmap, 0);
      && q <= m.threads[c].priority && q < |m.runQueue| && m.runQueue[q] != []
      && Resched(m).current == m.runQueue[q][0]
      && Contends(m, m.runQueue[q][0]) && m.threads[m.runQueue[q][0]].priority == q
  {
    PickNextQueued(m);
    ReschedSwitches(m);
    ContenderIsQueued(m, c);
    DequeueIsReady(m, Lowest(m.bitmap, 0));
  }

  lemma NobodyGoesFirst(s: State, m: State, woken: seq<Tid>)
    requires Inv(s) && s.current in s.threads && QueuedThenWoken(s, m, woken)
    requires !HasRival(s) && !BetterAmong(s, woken) && forall u <- woken :: u in s.threads
    requires var q := Lowest(m.bitmap, 0);
      q <= s.threads[s.current].priority && q < |m.runQueue| && m.runQueue[q] != [] &&
      Contends(m, m.runQueue[q][0]) && m.threads[m.runQueue[q][0]].priority == q
    ensures m.runQueue[Lowest(m.bitmap, 0)][0] == s.current
  {
    var p := s.threads[s.current].priority;
    assert Lowest(m.bitmap, 0) == p;
    OwnQueueEmpty(s);
    assert [s.current] <= m.runQueue[p];
  }

  lemma AnotherGoesFirst(s: State, m: State, woken: seq<Tid>, u: Tid)
    requires Inv(s) && s.current in s.threads && QueuedThenWoken(s, m, woken) && ReadyOk(m) && Contends(m, u)
    requires u != s.current && m.threads[u].priority <= s.threads[s.current].priority
    requires u in woken ==> m.threads[u].priority < s.threads[s.current].priority
    ensures var q := Lowest(m.bitmap, 0);
      q < |m.runQueue| && m.runQueue[q] != [] && m.runQueue[q][0] != s.current
  {
    var p, q := s.threads[s.current].priority, Lowest(m.bitmap, 0);
    ContenderIsQueued(m, u);
    if q == p {
      ContenderIsQueued(s, u);
      InFront(s.runQueue[p], s.current, m.runQueue[p], u);
    }
  }

  lemma SomebodyBetter(s: State, m: State, woken: seq<Tid>) returns (u: Tid)
    requires Inv(s) && s.current in s.threads && QueuedThenWoken(s, m, woken) && (HasRival(s) || BetterAmong(s, woken))
    requires forall v <- woken :: s.Is(v, Blocked)
    ensures Contends(m, u) && u != s.current && m.threads[u].priority <= s.threads[s.current].priority
    ensures u in woken ==> m.threads[u].priority < s.threads[s.current].priority
  {
    if BetterAmong(s, woken) {
      u :| u in woken && u in s.threads && s.threads[u].priority < s.threads[s.current].priority;
    } else {
      u :| Contends(s, u) && s.threads[u].priority <= s.threads[s.current].priority;
    }
  }

  lemma CallerIsFirst(s: State, m: State, woken: seq<Tid>)
    requires Inv(s) && s.current in s.threads && QueuedThenWoken(s, m, woken) && ReadyOk(m)
    requires forall u <- woken :: s.Is(u, Blocked)
    requires var q := Lowest(m.bitmap, 0);
      q <= s.threads[s.current].priority && q < |m.runQueue| && m.runQueue[q] != [] &&
      Contends(m, m.runQueue[q][0]) && m.threads[m.runQueue[q][0]].priority == q
    ensures m.runQueue[Lowest(m.bitmap, 0)][0] == s.current <==> !HasRival(s) && !BetterAmong(s, woken)
  {
    if HasRival(s) || BetterAmong(s, woken) {
      var u := SomebodyBetter(s, m, woken);
      AnotherGoesFirst(s, m, woken, u);
    } else {
      NobodyGoesFirst(s, m, woken);
    }
  }

  lemma OwnQueueEmpty(s: State)
    requires Inv(s) && !HasRival(s)
    ensures s.threads[s.current].priority < |s.runQueue| && s.runQueue[s.threads[s.current].priority] == []
  {
    InvBounds(s);
    var p := s.threads[s.current].priority;
    if s.runQueue[p] != [] {
      DequeueIsReady(s, p);
      assert Contends(s, s.runQueue[p][0]);
    }
  }

  lemma InFront(list: seq<Tid>, c: Tid, longer: seq<Tid>, u: Tid)
    requires u in list && c !in list && list + [c] <= longer
    ensures longer != [] && longer[0] != c
  {
    assert longer[0] == list[0] && list[0] in list;
  }

  /** Going on after wait_queue_wake_all with rescheduling. */
  lemma WakerGoesOnExactlyWhen(s: State, q: Qid, error: int)
    requires Inv(s) && !s.threads[s.current].idle && s.Queue(q).list != []
    ensures s.threads[s.current].priority < |s.runQueue|
    ensures WakeAll(s, q, true, error).0.current == s.current <==> !HasRival(s) && !BetterAmong(s, s.Queue(q).list)
  {
    InvBounds(s);
    CountIsNumberWoken(s, q, true, error);
    RunningHasNoTimer(s);
    MakeReadyOk(s, s.current);
    var s1 := MakeReady(s, s.current);
    WakeAllParks(s1, q, error);
    ReleaseAllOk(s1, q, error);
    ReleaseAllQueued(s1, q, error);
    AllAreQueued(s, s1, ReleaseAll(s1, q, error), q, error);
    FirstGoesOn(s, ReleaseAll(s1, q, error), s.Queue(q).list);
  }

  lemma WaitersAreThreads(s: State, q: Qid)
    requires WaitOk(s) && RestOk(s)
    ensures forall u <- s.Queue(q).list :: s.Is(u, Blocked) && !s.threads[u].idle
  {
    forall u | u in s.Queue(q).list ensures s.Is(u, Blocked) { ListedIsBlocked(s, q, u); }
  }

  /** The caller and those that are woken become ready, nobody else. */
  ghost predicate BecomeReady(s: State, m: State, woken: seq<Tid>) {
    && m.threads.Keys == s.threads.Keys
    && forall u <- s.threads ::
         && m.threads[u].priority == s.threads[u].priority && m.threads[u].idle == s.threads[u].idle
         && m.threads[u].phase == if u == s.current || u in woken then Ready else s.threads[u].phase
  }

  lemma ReadyContend(s: State, m: State, woken: seq<Tid>)
    requires s.current in s.threads && !s.threads[s.current].idle && BecomeReady(s, m, woken)
    requires forall u <- woken :: u in s.threads && !s.threads[u].idle
    ensures forall u :: Contends(m, u) <==> Contends(s, u) || u == s.current || u in woken
  {
  }

  lemma AllBecomeReady(s: State, s1: State, m: State, q: Qid, error: int)
    requires s.current in s.threads && s1.threads == s.threads[s.current := s.threads[s.current].(phase := Ready)]
    requires s1.Queue(q) == s.Queue(q) && AllReleased(s1, m, q, error)
    ensures BecomeReady(s, m, s.Queue(q).list)
  {
  }

  lemma AllAreQueued(s: State, s1: State, m: State, q: Qid, error: int)
    requires Inv(s) && !s.threads[s.current].idle && s.threads[s.current].priority < |s.runQueue|
    requires s1 == MakeReady(s, s.current) && AllReleased(s1, m, q, error) && AllQueued(s1, m, s.Queue(q).list)
    ensures QueuedThenWoken(s, m, s.Queue(q).list) && forall u <- s.Queue(q).list :: s.Is(u, Blocked)
  {
    assert s1.Queue(q) == s.Queue(q);
    WaitersAreThreads(s, q);
    AllBecomeReady(s, s1, m, q, error);
    ReadyContend(s, m, s.Queue(q).list);
  }

  /** And after wait_queue_wake_one. */
  lemma WakerOfOneGoesOnExactlyWhen(s: State, q: Qid, error: int)
    requires Inv(s) && !s.threads[s.current].idle && s.Queue(q).list != []
    ensures s.threads[s.current].priority < |s.runQueue|
    ensures WakeOne(s, q, true, error).current == s.current <==> !HasRival(s) && !BetterAmong(s, s.Queue(q).list[..1])
  {
    InvBounds(s);
    RunningHasNoTimer(s);
    MakeReadyOk(s, s.current);
    var s1 := MakeReady(s, s.current);
    OneReleased(s1, q, error);
    OneIsQueued(s, s1, Release(s1, q, 0, error), q, error);
    FirstGoesOn(s, Release(s1, q, 0, error), s.Queue(q).list[..1]);
  }

  lemma OneReleased(s: State, q: Qid, error: int)
    requires Core(s) && s.Queue(q).list != [] && s.Is(s.current, Ready) && NoTimer(s, s.current)
    ensures var u := s.Queue(q).list[0]; u in s.threads && s.threads[u].priority < |s.runQueue|
    ensures var m := Release(s, q, 0, error);
      && Parked(m) && Released(s, m, q, 0, error) && |m.runQueue| == |s.runQueue|
      && forall p :: 0 <= p < |m.runQueue| ==> s.runQueue[p] <= m.runQueue[p]
  {
    WakeOneFrom(s, q, error);
    ReleaseOk(s, q, 0, error);
  }

  lemma OneBecomesReady(s: State, s1: State, m: State, q: Qid, error: int)
    requires s.current in s.threads && s1.threads == s.threads[s.current := s.threads[s.current].(phase := Ready)]
    requires s1.Queue(q) == s.Queue(q) && s.Queue(q).list != [] && Released(s1, m, q, 0, error)
    requires s.current !in s.Queue(q).list
    ensures BecomeReady(s, m, s.Queue(q).list[..1])
  {
    assert s.Queue(q).list[..1] == [s.Queue(q).list[0]];
  }

  lemma OneIsQueued(s: State, s1: State, m: State, q: Qid, error: int)
    requires Inv(s) && !s.threads[s.current].idle && s.threads[s.current].priority < |s.runQueue|
    requires s1 == MakeReady(s, s.current) && s.Queue(q).list != [] && Released(s1, m, q, 0, error)
    requires |m.runQueue| == |s.runQueue|
    requires var p := s.threads[s.current].priority; s1.runQueue[p] <= m.runQueue[p]
    ensures QueuedThenWoken(s, m, s.Queue(q).list[..1]) && forall u <- s.Queue(q).list[..1] :: s.Is(u, Blocked)
  {
    assert s1.Queue(q) == s.Queue(q);
    WaitersAreThreads(s, q);
    OneBecomesReady(s, s1, m, q, error);
    ReadyContend(s, m, s.Queue(q).list[..1]);
  }
}
