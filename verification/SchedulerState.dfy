/** The scheduler's state, its operations as functions from state to state, and the invariant that
    ties thread states to queues (kernel/thread.c, kernel/wait_queue.c). Queues are the sequences
    that the rings of include/list.h stand for; both insertions append. */
module KernelSchedulerState {
  import opened Common
  import opened KernelTimer

  type Tid = nat
  const IDLE: Tid := 0
  const IDLE_PRIORITY: nat := 0
  const HIGHEST_PRIORITY: nat := 31
  const NUM_PRIORITY: nat := 32
  const NO_ERR := 0
  const ERR_THREAD_DETACHED := 5
  const ERR_TIMED_OUT := 7

  datatype Phase = Suspended | Ready | Running | Blocked | Sleeping | Death

  /** A wait queue: the one in a thread that others join on, or any other. */
  datatype Qid = ExitOf(tid: Tid) | Other(n: nat)

  datatype Thread = Thread(phase: Phase, priority: nat, quantum: int, idle: bool, detached: bool,
                           blockedOn: Option<Qid>, blockRet: int, retcode: int)

  datatype WaitQueue = WaitQueue(list: seq<Tid>, count: int)

  type Threads = map<Tid, Thread>
  type Waits = map<Qid, WaitQueue>

  predicate Has(threads: Threads, t: Tid, p: Phase) { t in threads && threads[t].phase == p }

  function QueueIn(waits: Waits, q: Qid): WaitQueue { if q in waits then waits[q] else WaitQueue([], 0) }

  /** The timers are those that live on the threads' stacks and those of drivers. */
  datatype State = State(threads: Threads, free: seq<Tid>, runQueue: seq<seq<Tid>>, bitmap: set<nat>,
                         current: Tid, waits: Waits, timers: seq<Timer>, now: nat)
  {
    function Queue(q: Qid): WaitQueue { QueueIn(waits, q) }

    predicate Is(t: Tid, p: Phase) { Has(threads, t, p) }

    function With(t: Tid, th: Thread): State { this.(threads := threads[t := th]) }
  }

  // ---------------------------------------------------------------- the invariant

  ghost predicate NoDup(s: seq<Tid>) { forall i, j :: 0 <= i < j < |s| ==> s[i] != s[j] }

  ghost predicate BitmapOk(runQueue: seq<seq<Tid>>, bitmap: set<nat>) {
    |runQueue| == NUM_PRIORITY && forall p: nat :: p in bitmap <==> p < NUM_PRIORITY && runQueue[p] != []
  }

  /** A thread that is not the idle thread is ready exactly when it is in the run queue of its
      priority, once; bit p is set exactly when queue p is not empty. */
  ghost predicate ReadyIs(threads: Threads, runQueue: seq<seq<Tid>>, bitmap: set<nat>) {
    && BitmapOk(runQueue, bitmap)
    && (forall p :: 0 <= p < NUM_PRIORITY ==> NoDup(runQueue[p]))
    && (forall p, t :: 0 <= p < NUM_PRIORITY && t in runQueue[p] ==>
      Has(threads, t, Ready) && threads[t].priority == p && !threads[t].idle)
    && (forall t <- threads :: threads[t].priority < NUM_PRIORITY)
    && (forall t <- threads :: threads[t].phase == Ready && !threads[t].idle ==> t in runQueue[threads[t].priority])
  }

  ghost predicate ListedIffBlocked(threads: Threads, waits: Waits, q: Qid, t: Tid) {
    t in QueueIn(waits, q).list <==> Has(threads, t, Blocked) && threads[t].blockedOn == Some(q)
  }

  /** A thread is blocked exactly when it is in the list of its blocking queue, once; every count is
      the length of its list. */
  ghost predicate WaitIs(threads: Threads, waits: Waits) {
    && (forall q :: QueueIn(waits, q).count == |QueueIn(waits, q).list| && NoDup(QueueIn(waits, q).list))
    && (forall q, t :: ListedIffBlocked(threads, waits, q, t))
    && (forall t <- threads :: threads[t].phase == Blocked <==> threads[t].blockedOn.Some?)
  }

  /** A sleep timer belongs to a thread that sleeps, a timeout to one that is blocked or has been woken
      but has not run since; all other timers are the drivers'. */
  ghost predicate TimerFits(threads: Threads, p: Timer) {
    match p.id
    case OfThread(t) =>
      && t in threads && p.period == 0 && p.callback != OtherHandler
      && threads[t].phase in (if p.callback == SleepHandler then {Sleeping} else {Blocked, Ready})
    case Driver(_) => p.callback == OtherHandler
  }

  /** The timers are sorted, none is queued twice, each fits its owner, and whoever sleeps has one. */
  ghost predicate TimersAre(threads: Threads, timers: seq<Timer>) {
    && Sorted(timers) && DistinctIds(timers)
    && (forall p <- timers :: TimerFits(threads, p))
    && (forall t <- threads :: threads[t].phase == Sleeping ==> Queued(timers, OfThread(t)))
  }

  /** Only the current thread runs; the idle thread is always able to; nobody waits for the exit of a
      thread that is gone, detached or dead (one that is just exiting aside); free slots are not in use. */
  ghost predicate RestIs(threads: Threads, waits: Waits, current: Tid, free: seq<Tid>) {
    && (forall t <- threads :: threads[t].phase == Running ==> t == current)
    && (Has(threads, IDLE, Ready) || Has(threads, IDLE, Running))
    && (forall t <- threads :: threads[t].idle ==> t == IDLE)
    && (forall t: Tid :: t !in threads || (threads[t].phase == Death && t != current) || threads[t].detached ==>
      QueueIn(waits, ExitOf(t)).list == [])
    && NoDup(free) && (forall t :: t in free ==> t !in threads)
  }

  ghost predicate ReadyOk(s: State) { ReadyIs(s.threads, s.runQueue, s.bitmap) }
  ghost predicate WaitOk(s: State) { WaitIs(s.threads, s.waits) }
  ghost predicate TimersOk(s: State) { TimersAre(s.threads, s.timers) }
  ghost predicate RestOk(s: State) { RestIs(s.threads, s.waits, s.current, s.free) }

  ghost predicate Core(s: State) { ReadyOk(s) && WaitOk(s) && TimersOk(s) && RestOk(s) }

  /** Between operations the current thread is the one running thread. */
  ghost predicate Inv(s: State) { Core(s) && s.Is(s.current, Running) }

  ghost predicate NoTimer(s: State, t: Tid) { forall p <- s.timers :: p.id != OfThread(t) }

  lemma ListedIsBlocked(s: State, q: Qid, t: Tid)
    requires WaitOk(s)
    ensures t in s.Queue(q).list <==> s.Is(t, Blocked) && s.threads[t].blockedOn == Some(q)
    ensures s.Queue(q).count == |s.Queue(q).list| && NoDup(s.Queue(q).list)
  {
    assert ListedIffBlocked(s.threads, s.waits, q, t);
    assert QueueIn(s.waits, q) == s.Queue(q);
  }

  // ---------------------------------------------------------------- run queues

  function Enqueue(s: State, t: Tid): State
    requires t in s.threads && s.threads[t].priority < |s.runQueue|
  {
    var p := s.threads[t].priority;
    s.(runQueue := s.runQueue[p := s.runQueue[p] + [t]], bitmap := s.bitmap + {p})
  }

  function MakeReady(s: State, t: Tid): State
    requires t in s.threads && s.threads[t].priority < |s.runQueue|
  {
    Enqueue(s.With(t, s.threads[t].(phase := Ready)), t)
  }

  /** The lowest set bit at or above `p`, or the number of bits. */
  function Lowest(bitmap: set<nat>, p: nat): (q: nat)
    requires p <= NUM_PRIORITY
    ensures p <= q <= NUM_PRIORITY && (q < NUM_PRIORITY ==> q in bitmap)
    ensures forall k :: p <= k < q ==> k !in bitmap
    decreases NUM_PRIORITY - p
  {
    if p == NUM_PRIORITY || p in bitmap then p else Lowest(bitmap, p + 1)
  }

  /** get_new_thread: the first thread of the lowest-numbered queue that has one, else the idle thread. */
  function PickNext(s: State): (Tid, State) {
    var p := Lowest(s.bitmap, 0);
    if p == NUM_PRIORITY || p >= |s.runQueue| || s.runQueue[p] == [] then (IDLE, s)
    else (s.runQueue[p][0], Dequeue(s, p))
  }

  /** A thread that is switched to gets a new quantum when it has used up its own. */
  function Refreshed(th: Thread): Thread { if th.quantum <= 0 then th.(quantum := 5) else th }

  /** thread_resched. A thread that is switched to goes on where it left off; if that was inside
      wait_queue_block, the first thing it does is to cancel its timeout. */
  function Resched(s: State): State {
    var (n, s1) := PickNext(s);
    if n !in s1.threads then s
    else
      var th := s1.threads[n].(phase := Running);
      if n == s.current then s1.With(n, th)
      else s1.With(n, Refreshed(th)).(current := n, timers := Without(s1.timers, OfThread(n)))
  }

  // One lemma for each part of the invariant; most operations change one thread and one queue.

  /** `s'` differs from `s` in the thread `t` and possibly in its run queues. */
  ghost predicate OnlyThread(s: State, s': State, t: Tid) {
    && t in s.threads && t in s'.threads && s'.threads == s.threads[t := s'.threads[t]]
    && s'.waits == s.waits && s'.timers == s.timers && s'.free == s.free && s'.current == s.current
  }

  lemma WaitUntouched(s: State, s': State, t: Tid)
    requires WaitOk(s) && OnlyThread(s, s', t)
    requires s.threads[t].phase != Blocked && s'.threads[t].phase != Blocked
    requires s'.threads[t].blockedOn == s.threads[t].blockedOn
    ensures WaitOk(s')
  {
    forall q, u ensures ListedIffBlocked(s'.threads, s'.waits, q, u) { ListedIsBlocked(s, q, u); }
  }

  lemma TimersUntouched(s: State, s': State, t: Tid)
    requires TimersOk(s) && OnlyThread(s, s', t)
    requires s'.threads[t].phase != Sleeping && NoTimer(s, t)
    ensures TimersOk(s')
  {
  }

  lemma RestUntouched(s: State, s': State, t: Tid)
    requires RestOk(s) && OnlyThread(s, s', t)
    requires s'.threads[t].phase == Running ==> t == s.current
    requires t == IDLE ==> s'.threads[t].phase in {Ready, Running}
    requires s'.threads[t].idle ==> t == IDLE
    requires (s'.threads[t].phase == Death && t != s.current) || s'.threads[t].detached ==>
              s.Queue(ExitOf(t)).list == []
    ensures RestOk(s')
  {
  }

  lemma ReadyUntouched(s: State, s': State, t: Tid)
    requires ReadyOk(s) && OnlyThread(s, s', t) && s'.runQueue == s.runQueue && s'.bitmap == s.bitmap
    requires s'.threads[t].priority < NUM_PRIORITY
    requires s.threads[t].phase != Ready || s.threads[t].idle
    requires s'.threads[t].phase != Ready || s'.threads[t].idle
    ensures ReadyOk(s')
  {
    assert forall p :: 0 <= p < NUM_PRIORITY ==> t !in s.runQueue[p];
  }

  lemma OneMoreNoDup(q: seq<Tid>, t: Tid)
    requires NoDup(q) && t !in q
    ensures NoDup(q + [t]) && forall u :: u in q + [t] <==> u in q || u == t
  {
  }

  lemma EnqueuedBitmap(runQueue: seq<seq<Tid>>, bitmap: set<nat>, p: nat, t: Tid)
    requires BitmapOk(runQueue, bitmap) && p < NUM_PRIORITY
    ensures BitmapOk(runQueue[p := runQueue[p] + [t]], bitmap + {p})
  {
  }

  lemma {:induction false} EnqueueOk(s: State, t: Tid)
    requires ReadyOk(s) && t in s.threads && !s.threads[t].idle && s.threads[t].phase != Ready
    ensures ReadyOk(MakeReady(s, t))
  {
    var s' := MakeReady(s, t);
    var p := s.threads[t].priority;
    assert t in s.runQueue[p] ==> Has(s.threads, t, Ready);
    OneMoreNoDup(s.runQueue[p], t);
    EnqueuedBitmap(s.runQueue, s.bitmap, p, t);
    forall k, u | 0 <= k < NUM_PRIORITY && u in s'.runQueue[k]
      ensures Has(s'.threads, u, Ready) && s'.threads[u].priority == k && !s'.threads[u].idle
    {
      assert u in s.runQueue[k] ==> Has(s.threads, u, Ready);
    }
  }

  lemma MakeReadyOk(s: State, t: Tid)
    requires Core(s) && t in s.threads && !s.threads[t].idle && s.threads[t].phase in {Suspended, Running}
    requires NoTimer(s, t)
    ensures Core(MakeReady(s, t))
  {
    var s' := MakeReady(s, t);
    EnqueueOk(s, t);
    WaitUntouched(s, s', t);
    TimersUntouched(s, s', t);
    RestUntouched(s, s', t);
  }

  // ---------------------------------------------------------------- rescheduling

  /** What thread_resched may be called on: the current thread has given up the processor. */
  ghost predicate Parked(s: State) {
    && Core(s) && (forall t <- s.threads :: s.threads[t].phase != Running)
    && (s.Is(s.current, Ready) ==> NoTimer(s, s.current))
    && (s.Is(s.current, Death) ==> s.Queue(ExitOf(s.current)).list == [])
  }

  /** `s` without the first thread of run queue `p`. */
  function Dequeue(s: State, p: nat): State
    requires p < |s.runQueue| && s.runQueue[p] != []
  {
    var rest := s.runQueue[p][1..];
    s.(runQueue := s.runQueue[p := rest], bitmap := if rest == [] then s.bitmap - {p} else s.bitmap)
  }

  lemma DequeueIsReady(s: State, p: nat)
    requires ReadyOk(s) && p < NUM_PRIORITY && s.runQueue[p] != []
    ensures var n := s.runQueue[p][0];
      s.Is(n, Ready) && s.threads[n].priority == p && !s.threads[n].idle && n !in s.runQueue[p][1..]
    ensures forall t <- s.runQueue[p] :: t == s.runQueue[p][0] || t in s.runQueue[p][1..]
    ensures NoDup(s.runQueue[p][1..])
  {
    var q := s.runQueue[p];
    assert q[0] in q && q == [q[0]] + q[1..] && NoDup(q);
  }

  lemma DequeueOk(s: State, p: nat, th: Thread)
    requires ReadyOk(s) && p < NUM_PRIORITY && s.runQueue[p] != []
    requires th.phase == Running && th.priority == p
    ensures ReadyOk(Dequeue(s, p).With(s.runQueue[p][0], th))
  {
    DequeueIsReady(s, p);
    var n := s.runQueue[p][0];
    var s' := Dequeue(s, p).With(n, th);
    forall k, t | 0 <= k < NUM_PRIORITY && t in s'.runQueue[k]
      ensures s'.Is(t, Ready) && s'.threads[t].priority == k && !s'.threads[t].idle
    {
      assert t in s.runQueue[k];
    }
    forall t | t in s'.threads && s'.threads[t].phase == Ready && !s'.threads[t].idle
      ensures t in s'.runQueue[s'.threads[t].priority]
    {
      assert t in s.runQueue[s.threads[t].priority];
    }
  }

  /** With no bit set only the idle thread is left, and it is not queued. */
  lemma OnlyIdleLeft(s: State)
    requires Parked(s) && Lowest(s.bitmap, 0) == NUM_PRIORITY
    ensures s.Is(IDLE, Ready) && s.threads[IDLE].idle
  {
    assert forall p: nat :: p < NUM_PRIORITY ==> p !in s.bitmap;
    assert s.runQueue[s.threads[IDLE].priority] == [];
  }

  /** What get_new_thread answers when a queue has a thread, and when none has. */
  lemma {:induction false} PickNextQueued(s: State)
    requires BitmapOk(s.runQueue, s.bitmap)
    ensures var p := Lowest(s.bitmap, 0);
      && (p < NUM_PRIORITY ==> s.runQueue[p] != [] && PickNext(s) == (s.runQueue[p][0], Dequeue(s, p)))
      && (p == NUM_PRIORITY ==> PickNext(s) == (IDLE, s))
  {
  }

  /** The next thread is a ready one. */
  lemma {:induction false} PickNextIsReady(s: State)
    requires Parked(s)
    ensures s.Is(PickNext(s).0, Ready)
  {
    var p := Lowest(s.bitmap, 0);
    PickNextQueued(s);
    if p == NUM_PRIORITY { OnlyIdleLeft(s); } else { DequeueIsReady(s, p); }
  }

  /** The lowest-numbered priority goes first, and within it whoever was queued first; the idle
      thread runs only when no other thread is ready. */
  lemma PicksLowestPriority(s: State, t: Tid)
    requires Parked(s) && s.Is(t, Ready) && !s.threads[t].idle
    ensures var n := PickNext(s).0;
      && n in s.threads && !s.threads[n].idle && s.threads[n].priority <= s.threads[t].priority
      && s.threads[n].priority < |s.runQueue| && s.runQueue[s.threads[n].priority] != [] &&
        s.runQueue[s.threads[n].priority][0] == n
  {
    assert t in s.runQueue[s.threads[t].priority];
    assert s.threads[t].priority in s.bitmap;
    PickNextQueued(s);
    DequeueIsReady(s, Lowest(s.bitmap, 0));
  }

  /** Taking it off its queue is right for whatever it becomes when it runs. */
  lemma {:induction false} PickNextReady(s: State, th: Thread)
    requires Parked(s) && s.Is(PickNext(s).0, Ready)
    requires th.phase == Running && th.priority == s.threads[PickNext(s).0].priority
    ensures var (n, s1) := PickNext(s);
      s1 == s.(runQueue := s1.runQueue, bitmap := s1.bitmap) && ReadyOk(s1.With(n, th))
  {
    var p := Lowest(s.bitmap, 0);
    PickNextQueued(s);
    if p == NUM_PRIORITY {
      OnlyIdleLeft(s);
      ReadyUntouched(s, s.With(IDLE, th), IDLE);
    } else {
      DequeueIsReady(s, p);
      DequeueOk(s, p, th);
    }
  }

  /** Who runs next and how the state changes, without the queues. */
  ghost predicate Switched(s: State, s': State, n: Tid) {
    && s.Is(n, Ready) && n in s'.threads && s'.threads == s.threads[n := s'.threads[n]]
    && s'.threads[n].phase == Running && s'.threads[n].priority == s.threads[n].priority
    && s'.threads[n].(phase := Ready, quantum := 0) == s.threads[n].(quantum := 0)
    && s'.current == n && s'.waits == s.waits && s'.free == s.free
    && s'.timers == (if n == s.current then s.timers else Without(s.timers, OfThread(n)))
  }

  lemma ReschedSwitches(s: State)
    requires Parked(s)
    ensures Switched(s, Resched(s), PickNext(s).0) && ReadyOk(Resched(s))
  {
    var n := PickNext(s).0;
    PickNextIsReady(s);
    var th := s.threads[n].(phase := Running);
    PickNextReady(s, if n == s.current || th.quantum > 0 then th else th.(quantum := 5));
  }

  lemma SwitchedWait(s: State, s': State, n: Tid)
    requires WaitOk(s) && Switched(s, s', n)
    ensures WaitOk(s')
  {
    forall q, u ensures ListedIffBlocked(s'.threads, s'.waits, q, u) { ListedIsBlocked(s, q, u); }
  }

  lemma SwitchedTimers(s: State, s': State, n: Tid)
    requires TimersOk(s) && Switched(s, s', n) && (n == s.current ==> NoTimer(s, n))
    ensures TimersOk(s')
  {
    WithoutMembers(s.timers, OfThread(n));
    WithoutStaysSorted(s.timers, OfThread(n));
    WithoutStaysDistinct(s.timers, OfThread(n));
  }

  lemma SwitchedRest(s: State, s': State, n: Tid)
    requires RestOk(s) && Switched(s, s', n) && forall t <- s.threads :: s.threads[t].phase != Running
    requires s.Is(s.current, Death) ==> s.Queue(ExitOf(s.current)).list == []
    ensures RestOk(s')
  {
  }

  lemma ReschedOk(s: State)
    requires Parked(s)
    ensures Inv(Resched(s))
  {
    var n, s' := PickNext(s).0, Resched(s);
    ReschedSwitches(s);
    SwitchedWait(s, s', n);
    SwitchedTimers(s, s', n);
    SwitchedRest(s, s', n);
  }

  /** What thread_resched needs when it starts. */
  lemma ReschedReady(s: State)
    requires Parked(s)
    ensures BitmapOk(s.runQueue, s.bitmap) && PickNext(s).0 in s.threads && DistinctIds(s.timers) && Inv(Resched(s))
  {
    PickNextIsReady(s);
    ReschedOk(s);
  }
}
