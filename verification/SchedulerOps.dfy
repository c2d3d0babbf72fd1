/** The scheduler's operations and what each of them keeps (kernel/thread.c, kernel/wait_queue.c). */
module KernelSchedulerOps {
  import opened Common
  import opened KernelTimer
  import opened KernelSchedulerState

  // ---------------------------------------------------------------- leaving a wait queue

  /** The i-th thread of a wait queue is taken off the list and made ready with a return code. */
  function Release(s: State, q: Qid, i: nat, error: int): State
    requires i < |s.Queue(q).list| && s.Queue(q).list[i] in s.threads
    requires s.threads[s.Queue(q).list[i]].priority < |s.runQueue|
  {
    var w := s.Queue(q);
    var t := w.list[i];
    var off := s.(waits := s.waits[q := WaitQueue(w.list[..i] + w.list[i + 1..], w.count - 1)]);
    MakeReady(off.With(t, s.threads[t].(blockedOn := None, blockRet := error)), t)
  }

  lemma {:induction false} ReleaseReady(s: State, q: Qid, i: nat, error: int)
    requires Core(s) && i < |s.Queue(q).list|
    ensures var t := s.Queue(q).list[i];
      s.Is(t, Blocked) && s.threads[t].blockedOn == Some(q) && s.threads[t].priority < |s.runQueue|
    ensures ReadyOk(Release(s, q, i, error))
  {
    var t := s.Queue(q).list[i];
    ListedIsBlocked(s, q, t);
    var th := s.threads[t].(blockedOn := None, blockRet := error);
    var s1 := s.With(t, th);
    ReadyUntouched(s, s1, t);
    EnqueueOk(s1, t);
  }

  /** What a release does to everything but the run queues. */
  ghost predicate Released(s: State, s': State, q: Qid, i: nat, error: int)
    requires i < |s.Queue(q).list|
  {
    var w := s.Queue(q);
    var t := w.list[i];
    && t in s.threads && t in s'.threads
    && s'.threads == s.threads[t := s.threads[t].(phase := Ready, blockedOn := None, blockRet := error)]
    && s'.waits == s.waits[q := WaitQueue(w.list[..i] + w.list[i + 1..], w.count - 1)]
    && s'.timers == s.timers && s'.free == s.free && s'.current == s.current && s'.now == s.now
  }

  /** One element less: who is left, and that nobody is there twice. */
  lemma {:induction false} RemovedAt(list: seq<Tid>, i: nat)
    requires i < |list| && NoDup(list)
    ensures var r := list[..i] + list[i + 1..]; NoDup(r) && forall u :: u in r <==> u in list && u != list[i]
  {
    var r := list[..i] + list[i + 1..];
    forall u | u in list && u != list[i] ensures u in r {
      var k :| 0 <= k < |list| && list[k] == u;
      assert r[if k < i then k else k - 1] == u;
    }
  }

  lemma {:induction false} ReleasedWait(s: State, s': State, q: Qid, i: nat, error: int)
    requires WaitOk(s) && i < |s.Queue(q).list| && Released(s, s', q, i, error)
    ensures WaitOk(s')
  {
    var t := s.Queue(q).list[i];
    ListedIsBlocked(s, q, t);
    RemovedAt(s.Queue(q).list, i);
    forall r ensures QueueIn(s'.waits, r).count == |QueueIn(s'.waits, r).list| && NoDup(QueueIn(s'.waits, r).list) {
      ListedIsBlocked(s, r, t);
    }
    forall r, u ensures ListedIffBlocked(s'.threads, s'.waits, r, u) {
      ListedIsBlocked(s, r, u);
    }
    assert forall u <- s'.threads :: s'.threads[u].phase == Blocked <==> s'.threads[u].blockedOn.Some?;
  }

  lemma {:induction false} ReleasedTimers(s: State, s': State, q: Qid, i: nat, error: int)
    requires TimersOk(s) && WaitOk(s) && i < |s.Queue(q).list| && Released(s, s', q, i, error)
    ensures TimersOk(s')
  {
    ListedIsBlocked(s, q, s.Queue(q).list[i]);
  }

  lemma {:induction false} ReleasedRest(s: State, s': State, q: Qid, i: nat, error: int)
    requires RestOk(s) && WaitOk(s) && i < |s.Queue(q).list| && Released(s, s', q, i, error)
    ensures RestOk(s')
  {
    ListedIsBlocked(s, q, s.Queue(q).list[i]);
    assert forall r :: r != q ==> QueueIn(s'.waits, r) == QueueIn(s.waits, r);
  }

  lemma {:induction false} ReleaseOk(s: State, q: Qid, i: nat, error: int)
    requires Core(s) && i < |s.Queue(q).list|
    ensures var t := s.Queue(q).list[i]; s.Is(t, Blocked) && s.threads[t].priority < |s.runQueue|
    ensures var s' := Release(s, q, i, error); Core(s') && Released(s, s', q, i, error)
  {
    ReleaseReady(s, q, i, error);
    var s' := Release(s, q, i, error);
    ReleasedWait(s, s', q, i, error);
    ReleasedTimers(s, s', q, i, error);
    ReleasedRest(s, s', q, i, error);
  }

  /** What the steps of an operation need, whatever else holds: whoever stands in a queue is a thread, and
      each bit is set exactly if its queue is in use. */
  ghost predicate Sound(s: State) {
    && BitmapOk(s.runQueue, s.bitmap) && DistinctIds(s.timers) && IDLE in s.threads
    && (forall t <- s.threads :: s.threads[t].priority < NUM_PRIORITY)
    && (forall k, t :: 0 <= k < |s.runQueue| && t in s.runQueue[k] ==> t in s.threads)
    && forall q, t :: t in s.Queue(q).list ==> t in s.threads
  }

  lemma CoreIsSound(s: State)
    requires Core(s)
    ensures Sound(s)
  {
    assert Has(s.threads, IDLE, Ready) || Has(s.threads, IDLE, Running);
    forall k, t | 0 <= k < |s.runQueue| && t in s.runQueue[k] ensures t in s.threads {
      assert Has(s.threads, t, Ready);
    }
    forall q, t | t in s.Queue(q).list ensures t in s.threads { ListedIsBlocked(s, q, t); }
  }

  lemma MakeReadySound(s: State, t: Tid)
    requires Sound(s) && t in s.threads
    ensures Sound(MakeReady(s, t))
  {
    var s' := MakeReady(s, t);
    EnqueuedBitmap(s.runQueue, s.bitmap, s.threads[t].priority, t);
    forall q, u | u in s'.Queue(q).list ensures u in s'.threads { assert u in s.Queue(q).list; }
  }

  lemma ReleaseSound(s: State, q: Qid, error: int)
    requires Sound(s) && s.Queue(q).list != []
    ensures s.Queue(q).list[0] in s.threads && s.threads[s.Queue(q).list[0]].priority < |s.runQueue|
    ensures Sound(Release(s, q, 0, error))
  {
    var t, w := s.Queue(q).list[0], s.Queue(q);
    assert t in s.Queue(q).list;
    var off := s.(waits := s.waits[q := WaitQueue(w.list[..0] + w.list[0 + 1..], w.count - 1)]);
    var s1 := off.With(t, s.threads[t].(blockedOn := None, blockRet := error));
    forall r, u | u in s1.Queue(r).list ensures u in s1.threads { assert u in s.Queue(r).list; }
    MakeReadySound(s1, t);
  }

  lemma SoundPicks(s: State)
    requires Sound(s)
    ensures PickNext(s).0 in s.threads
  {
    PickNextQueued(s);
    var p := Lowest(s.bitmap, 0);
    if p < NUM_PRIORITY { assert s.runQueue[p][0] in s.runQueue[p]; }
  }

  /** thread_unblock_from_wait_queue; nothing happens to a thread that is not blocked. */
  function Unblock(s: State, t: Tid, error: int): State {
    if !s.Is(t, Blocked) || s.threads[t].blockedOn.None? then s
    else
      var q := s.threads[t].blockedOn.value;
      var i := IndexOf(s.Queue(q).list, t);
      if i < |s.Queue(q).list| && s.Queue(q).list[i] == t &&
        s.threads[t].priority < |s.runQueue| then Release(s, q, i, error) else s
  }

  lemma UnblockOk(s: State, t: Tid, error: int)
    requires Core(s)
    ensures Core(Unblock(s, t, error))
    ensures if s.Is(t, Blocked) then
              var q := s.threads[t].blockedOn.value; var i := IndexOf(s.Queue(q).list, t);
              s.threads[t].blockedOn.Some? && i < |s.Queue(q).list| && s.Queue(q).list[i] == t &&
                Released(s, Unblock(s, t, error), q, i, error)
            else Unblock(s, t, error) == s
  {
    if s.Is(t, Blocked) {
      var q := s.threads[t].blockedOn.value;
      ListedIsBlocked(s, q, t);
      ReleaseOk(s, q, IndexOf(s.Queue(q).list, t), error);
    }
  }

  /** The loop of wait_queue_wake_all. */
  function ReleaseAll(s: State, q: Qid, error: int): State
    decreases |s.Queue(q).list|
  {
    var w := s.Queue(q);
    if w.list == [] || w.list[0] !in s.threads || s.threads[w.list[0]].priority >= |s.runQueue| then s
    else ReleaseAll(Release(s, q, 0, error), q, error)
  }

  /** The threads of `list` that have priority `p`, in order. */
  function OfPriority(s: State, list: seq<Tid>, p: nat): seq<Tid> {
    if list == [] then []
    else
      var first := if list[0] in s.threads && s.threads[list[0]].priority == p then [list[0]] else [];
      first + OfPriority(s, list[1..], p)
  }

  /** Waking a whole queue: everybody on it is ready with the code... */
  ghost predicate AllReleased(s: State, s': State, q: Qid, error: int) {
    && s'.threads.Keys == s.threads.Keys
    && (forall t <- s.threads :: s'.threads[t] ==
          if t in s.Queue(q).list then s.threads[t].(phase := Ready, blockedOn := None, blockRet := error)
            else s.threads[t])
    && s'.Queue(q) == WaitQueue([], 0) && (forall r :: r != q ==> s'.Queue(r) == s.Queue(r))
    && s'.timers == s.timers && s'.free == s.free && s'.current == s.current && s'.now == s.now
  }

  /** ... and queued in the order of waiting. */
  ghost predicate AllQueued(s: State, s': State, list: seq<Tid>) {
    && |s'.runQueue| == |s.runQueue|
    && forall p :: 0 <= p < |s.runQueue| ==> s'.runQueue[p] == s.runQueue[p] + OfPriority(s, list, p)
  }

  lemma {:induction false} OfPrioritySame(s: State, s': State, list: seq<Tid>, p: nat)
    requires forall t <- list ::
               t in s.threads && t in s'.threads && s'.threads[t].priority == s.threads[t].priority
    ensures OfPriority(s', list, p) == OfPriority(s, list, p)
  {
    if list != [] { OfPrioritySame(s, s', list[1..], p); }
  }

  lemma {:induction false} ReleaseAllOk(s: State, q: Qid, error: int)
    requires Core(s)
    ensures Core(ReleaseAll(s, q, error)) && AllReleased(s, ReleaseAll(s, q, error), q, error)
    decreases |s.Queue(q).list|
  {
    if s.Queue(q).list == [] {
      assert s.Queue(q) == WaitQueue([], 0);
    } else {
      ReleaseOk(s, q, 0, error);
      var s1 := Release(s, q, 0, error);
      ReleaseAllOk(s1, q, error);
      ReleasedThenAll(s, q, error, s1, ReleaseAll(s1, q, error));
    }
  }

  lemma ListedAreThreads(s: State, q: Qid)
    requires WaitOk(s)
    ensures forall t <- s.Queue(q).list :: t in s.threads
  {
    forall t | t in s.Queue(q).list ensures t in s.threads { ListedIsBlocked(s, q, t); }
  }

  lemma {:induction false} ReleaseAllQueued(s: State, q: Qid, error: int)
    requires Core(s)
    ensures AllQueued(s, ReleaseAll(s, q, error), s.Queue(q).list)
    decreases |s.Queue(q).list|
  {
    if s.Queue(q).list != [] {
      ReleaseOk(s, q, 0, error);
      ListedAreThreads(s, q);
      var s1 := Release(s, q, 0, error);
      HeadReleased(s, s1, q, error);
      ReleaseAllQueued(s1, q, error);
      QueuedThenAll(s, s.Queue(q).list, s1, ReleaseAll(s1, q, error));
    }
  }

  lemma HeadReleased(s: State, s1: State, q: Qid, error: int)
    requires s.Queue(q).list != [] && Released(s, s1, q, 0, error)
    ensures s1.Queue(q).list == s.Queue(q).list[1..]
    ensures s1.threads.Keys == s.threads.Keys
    ensures forall t <- s.threads :: s1.threads[t].priority == s.threads[t].priority
  {
    assert s.Queue(q).list[..0] + s.Queue(q).list[1..] == s.Queue(q).list[1..];
  }

  lemma {:induction false} ReleasedThenAll(s: State, q: Qid, error: int, s1: State, s': State)
    requires WaitOk(s) && s.Queue(q).list != [] && Released(s, s1, q, 0, error) && AllReleased(s1, s', q, error)
    ensures AllReleased(s, s', q, error)
  {
    var list := s.Queue(q).list;
    var t := list[0];
    assert s1.Queue(q).list == list[1..] && forall r :: r != q ==> s1.Queue(r) == s.Queue(r);
    assert list == [t] + list[1..];
  }

  lemma QueuedThenAll(s: State, list: seq<Tid>, s1: State, s': State)
    requires list != [] && list[0] in s.threads && (forall t :: t in list ==> t in s.threads)
    requires s1.threads.Keys == s.threads.Keys
    requires forall t <- s.threads :: s1.threads[t].priority == s.threads[t].priority
    requires s.threads[list[0]].priority < |s.runQueue|
    requires var p := s.threads[list[0]].priority; s1.runQueue == s.runQueue[p := s.runQueue[p] + [list[0]]]
    requires AllQueued(s1, s', list[1..])
    ensures AllQueued(s, s', list)
  {
    forall p | 0 <= p < |s.runQueue|
      ensures s'.runQueue[p] == s.runQueue[p] + OfPriority(s, list, p)
    {
      OfPrioritySame(s, s1, list[1..], p);
    }
  }

  // ---------------------------------------------------------------- giving up the processor

  /** The running thread becomes ready; the idle thread is not queued. */
  function Park(s: State): State
    requires s.current in s.threads && s.threads[s.current].priority < |s.runQueue|
  {
    if s.threads[s.current].idle then s.With(s.current, s.threads[s.current].(phase := Ready))
      else MakeReady(s, s.current)
  }

  lemma RunningHasNoTimer(s: State)
    requires TimersOk(s) && s.Is(s.current, Running)
    ensures NoTimer(s, s.current)
  {
  }

  lemma ParkOk(s: State)
    requires Inv(s)
    ensures s.threads[s.current].priority < |s.runQueue| && Parked(Park(s))
  {
    RunningHasNoTimer(s);
    var s' := Park(s);
    if s.threads[s.current].idle {
      ReadyUntouched(s, s', s.current);
      WaitUntouched(s, s', s.current);
      TimersUntouched(s, s', s.current);
      RestUntouched(s, s', s.current);
    } else {
      MakeReadyOk(s, s.current);
    }
  }

  /** A thread that gives up the processor stands behind all others of its priority, also when
      thread_preempt means to put it first: insertion at the head appends. So as long as another
      thread of no higher number is ready, it does not go on. */
  lemma ParkedGivesWay(s: State, t: Tid)
    requires Inv(s) && s.Is(t, Ready) && !s.threads[t].idle && s.threads[t].priority <= s.threads[s.current].priority
    ensures s.threads[s.current].priority < |s.runQueue| && PickNext(Park(s)).0 != s.current
  {
    ParkOk(s);
    PicksLowestPriority(Park(s), t);
    RunningIsNotQueued(s);
    assert t in s.runQueue[s.threads[t].priority];
  }

  lemma RunningIsNotQueued(s: State)
    requires ReadyOk(s) && s.Is(s.current, Running)
    ensures forall p :: 0 <= p < |s.runQueue| ==> s.current !in s.runQueue[p]
  {
    forall p | 0 <= p < |s.runQueue| ensures s.current !in s.runQueue[p] {
      assert s.current in s.runQueue[p] ==> Has(s.threads, s.current, Ready);
    }
  }

  /** The running thread changes, but neither its phase nor its priority. */
  lemma CurrentChanged(s: State, th: Thread)
    requires Inv(s) && th.phase == Running && th.priority < NUM_PRIORITY
    requires th.blockedOn == s.threads[s.current].blockedOn
    requires th.idle ==> s.current == IDLE
    requires th.detached ==> s.Queue(ExitOf(s.current)).list == []
    ensures Inv(s.With(s.current, th))
  {
    RunningHasNoTimer(s);
    var s' := s.With(s.current, th);
    ReadyUntouched(s, s', s.current);
    WaitUntouched(s, s', s.current);
    TimersUntouched(s, s', s.current);
    RestUntouched(s, s', s.current);
  }
}
