/** The scheduler as it runs: global queues, the bitmap, the current thread and the threads' fields,
    changed step by step by every entry point (kernel/thread.c, kernel/wait_queue.c, kernel/timer.c).
    Each entry point does to the state what its function does and keeps the invariant. */
module KernelScheduler {
  import opened Common
  import opened KernelTimer
  import opened KernelTimerTick
  import opened KernelSchedulerState
  import opened KernelSchedulerOps
  import opened KernelSchedulerSteps
  import opened KernelSchedulerTick
  import opened KernelSchedulerRuns
  import opened KernelSchedulerJoin
  import opened KernelSchedulerTurn
  import opened KernelSchedulerAsks
  import opened KernelThreadRings
  import Rings = KernelRing

  function CountIn(counts: map<Qid, int>, q: Qid): int { if q in counts then counts[q] else 0 }

  predicate CountMatches(counts: map<Qid, int>, waits: Waits, q: Qid) { CountIn(counts, q) == QueueIn(waits, q).count }

  ghost predicate CountsMatch(counts: map<Qid, int>, waits: Waits) { forall q :: CountMatches(counts, waits, q) }

  lemma CountChanged(counts: map<Qid, int>, waits: Waits, q: Qid, w: WaitQueue)
    requires CountsMatch(counts, waits)
    ensures CountsMatch(counts[q := w.count], waits[q := w])
  {
    var counts', waits' := counts[q := w.count], waits[q := w];
    forall r ensures CountMatches(counts', waits', r) { assert CountMatches(counts, waits, r); }
  }

  /** The slots but the first, which is the boot thread's, and the last, which is never used. */
  method FreeSlots(maxThreads: nat) returns (free: seq<Tid>)
    ensures free == seq(if maxThreads < 2 then 0 else maxThreads - 2, i => i + 1)
    ensures NoDup(free) && IDLE !in free && forall t <- free :: t < maxThreads
  {
    free := [];
    var slot := IDLE + 1;
    while slot + 1 < maxThreads
      invariant slot == 1 || slot < maxThreads
      invariant free == seq(slot - 1, i => i + 1)
    {
      free := free + [slot];
      slot := slot + 1;
    }
  }

  class Kernel {
    var threads: Threads
    var free: seq<Tid>
    // The numbers of the bits that are set in run_queue_bitmap.
    var bitmap: set<nat>
    var current: Tid
    // The counts of the wait queues.
    var counts: map<Qid, int>
    const timers: TimerQueue
    var now: nat
    const slots: nat
    // The run queues and the lists of the wait queues, and what they hold.
    const rings: ThreadRings
    ghost var runQueue: seq<seq<Tid>>
    ghost var waits: Waits

    ghost function View(): State
      reads this, timers
    {
      State(threads, free, runQueue, bitmap, current, waits, timers.queue, now)
    }

    /** Each slot has a queue node and an exit queue, and each priority a run queue. */
    ghost predicate HasRings() {
      && (forall p :: 0 <= p < NUM_PRIORITY ==> Run(p) in rings.queue)
      && forall t: Tid :: t < slots ==> t in rings.node && Wait(ExitOf(t)) in rings.queue
    }

    ghost predicate Slotted()
      reads `threads, `free
    {
      (forall t <- threads :: t < slots) && forall t <- free :: t < slots
    }

    /** The counts are right, and no thread waits in a queue that has no ring. */
    ghost predicate Counted()
      reads `counts, `waits
    {
      (forall q <- waits :: Wait(q) in rings.queue) && CountsMatch(counts, waits)
    }

    /** The rings hold the queues: so every thread's node is in the ring that PlaceOf gives, or cleared. */
    ghost predicate Linked()
      reads this, rings.nodes, rings.queues
    {
      |runQueue| == NUM_PRIORITY && HasRings() && Slotted() && Counted() && rings.Hold(runQueue, waits)
    }

    /** The thread's node is in no ring. */
    ghost predicate Unqueued(t: Tid)
      reads this
    {
      rings.Unqueued(t, runQueue, waits)
    }

    ghost predicate Valid()
      reads this, timers, rings.nodes, rings.queues
    {
      Inv(View()) && Linked()
    }

    /** Between operations each thread's one queue node is in the ring that its state says, in no other,
        and cleared if it is in none: a ready thread's in its run queue, a blocked one's in the wait queue
        it is blocked on. */
    lemma NodeIsInItsPlace(t: Tid, c: Place)
      requires Valid() && t in threads && c in rings.queue
      ensures t in rings.node && (rings.node[t] in rings.queue[c].nodes <==> PlaceOf(View(), t) == Some(c))
      ensures PlaceOf(View(), t) == None ==> Rings.Cleared(rings.node[t])
      ensures rings.queue[c].Valid()
    {
      ListedInPlace(View(), t, c);
      if PlaceOf(View(), t) == None { InNoQueue(View(), rings.queue.Keys, t); }
      rings.NodesListed(ListsIn(rings.queue.Keys, runQueue, waits), t, c);
    }

    ghost function Parts(): set<object> { {this, timers} + rings.nodes + rings.queues }

    /** thread_init_early: the boot thread runs; the last of the `maxThreads` slots is never used. */
    constructor (maxThreads: nat, waitQueues: nat)
      requires maxThreads > 0
      ensures fresh(timers) && fresh(rings.nodes) && fresh(rings.queues) && View() == Initial(free) && Valid()
      ensures free == seq(if maxThreads < 2 then 0 else maxThreads - 2, i => i + 1)
      ensures forall n :: 0 <= n < waitQueues ==> Wait(Other(n)) in rings.queue
    {
      var available := FreeSlots(maxThreads);
      free, bitmap, current, counts, now, slots := available, {}, IDLE, map[], 0, maxThreads;
      threads := map[IDLE := Thread(Running, HIGHEST_PRIORITY, 0, false, true, None, NO_ERR, 0)];
      runQueue, waits := seq(NUM_PRIORITY, _ => []), map[];
      timers := new TimerQueue();
      var r := NewRings(maxThreads, waitQueues);
      rings := r;
      new;
      Starts(waitQueues);
    }

    lemma Starts(waitQueues: nat)
      requires runQueue == seq(NUM_PRIORITY, _ => []) && waits == map[] && counts == map[] && bitmap == {}
      requires current == IDLE && timers.queue == [] && now == 0 && slots > 0
      requires threads == map[IDLE := Thread(Running, HIGHEST_PRIORITY, 0, false, true, None, NO_ERR, 0)]
      requires NoDup(free) && IDLE !in free && forall t <- free :: t < slots
      requires rings.Valid(map c | c in rings.queue :: [])
      requires forall t: Tid :: t in rings.node <==> t < slots
      requires forall c :: c in rings.queue <==> c in AllPlaces(slots, waitQueues)
      ensures View() == Initial(free) && Valid() && forall n :: 0 <= n < waitQueues ==> Wait(Other(n)) in rings.queue
    {
      InitialOk(free);
      StartsLinked(waitQueues);
    }

    lemma StartsLinked(waitQueues: nat)
      requires runQueue == seq(NUM_PRIORITY, _ => []) && waits == map[] && counts == map[]
      requires threads.Keys == {IDLE} && slots > 0 && forall t <- free :: t < slots
      requires rings.Valid(map c | c in rings.queue :: [])
      requires forall t: Tid :: t in rings.node <==> t < slots
      requires forall c :: c in rings.queue <==> c in AllPlaces(slots, waitQueues)
      ensures Linked() && forall n :: 0 <= n < waitQueues ==> Wait(Other(n)) in rings.queue
    {
      PlacesKnown(slots, waitQueues);
      assert ListsIn(rings.queue.Keys, runQueue, waits) == map c | c in rings.queue :: [];
    }

    // -------------------------------------------------------------- run queues

    /** insert_in_run_queue_head and insert_in_run_queue_tail: both append. */
    method InsertInRunQueue(t: Tid)
      requires Linked() && t in threads && threads[t].priority < |runQueue| && Unqueued(t)
      modifies this, rings.nodes, rings.queues
      ensures View() == Enqueue(old(View()), t) && Linked()
    {
      var p := threads[t].priority;
      rings.AppendRun(p, t, runQueue, waits);
      runQueue := runQueue[p := runQueue[p] + [t]];
      bitmap := bitmap + {p};
    }

    method SetPhase(t: Tid, phase: Phase)
      requires Linked() && t in threads
      modifies this
      ensures View() == old(View()).With(t, old(threads)[t].(phase := phase)) && Linked()
    {
      threads := threads[t := threads[t].(phase := phase)];
    }

    method MakeReadyAndQueue(t: Tid)
      requires Linked() && t in threads && threads[t].priority < |runQueue| && Unqueued(t)
      modifies this, rings.nodes, rings.queues
      ensures View() == MakeReady(old(View()), t) && Linked()
    {
      SetPhase(t, Ready);
      InsertInRunQueue(t);
    }

    /** The first thread of a run queue leaves it. */
    method TakeFirst(p: nat) returns (t: Tid)
      requires Linked() && p < NUM_PRIORITY && runQueue[p] != []
      modifies this, rings.nodes, rings.queues
      ensures t == old(runQueue)[p][0] && View() == Dequeue(old(View()), p) && Linked()
    {
      var empty;
      t, empty := rings.TakeFirstRun(p, runQueue, waits);
      runQueue := runQueue[p := runQueue[p][1..]];
      if empty {
        bitmap := bitmap - {p};
      }
    }

    method GetNewThread() returns (n: Tid)
      requires Linked() && BitmapOk(runQueue, bitmap)
      modifies this, rings.nodes, rings.queues
      ensures (n, View()) == PickNext(old(View())) && Linked()
    {
      var q := 0;
      while q < NUM_PRIORITY && q !in bitmap
        invariant q <= NUM_PRIORITY && Lowest(bitmap, 0) == Lowest(bitmap, q)
      {
        q := q + 1;
      }
      PickNextQueued(View());
      if q >= NUM_PRIORITY {
        return IDLE;
      }
      n := TakeFirst(q);
    }

    /** The body of thread_resched. What comes after the switch is where the new thread goes on: one
        that was in wait_queue_block cancels its timeout, and no other can have a timer. */
    method SwitchToNext()
      requires Linked() && BitmapOk(runQueue, bitmap) && PickNext(View()).0 in threads && DistinctIds(timers.queue)
      modifies Parts()
      ensures View() == Resched(old(View())) && Linked()
    {
      var previous := current;
      var n := GetNewThread();
      SetPhase(n, Running);
      if n != previous {
        SwitchTo(n);
      }
    }

    /** The switch; `n` goes on where it left off. */
    method SwitchTo(n: Tid)
      requires Linked() && n in threads && DistinctIds(timers.queue)
      modifies this, timers
      ensures var s := old(View()); var th := s.threads[n];
        View() == s.With(n, Refreshed(th)).(current := n, timers := Without(s.timers, OfThread(n)))
      ensures Linked()
    {
      if threads[n].quantum <= 0 {
        threads := threads[n := threads[n].(quantum := 5)];
      }
      assert threads == threads[n := threads[n]];
      current := n;
      timers.Cancel(OfThread(n));
    }

    method ThreadResched()
      requires Parked(View()) && Linked()
      modifies Parts()
      ensures View() == Resched(old(View())) && Valid()
    {
      ReschedReady(View());
      SwitchToNext();
    }

    // -------------------------------------------------------------- giving up the processor

    method ParkCurrent(spent: bool)
      requires Linked() && current in threads && threads[current].priority < |runQueue| && Unqueued(current)
      modifies this, rings.nodes, rings.queues
      ensures var s := old(View());
        View() == Park(if spent then s.With(s.current, s.threads[s.current].(quantum := 0)) else s)
      ensures Linked()
    {
      SetPhase(current, Ready);
      if spent {
        threads := threads[current := threads[current].(quantum := 0)];
      }
      if !threads[current].idle {
        InsertInRunQueue(current);
      }
    }

    lemma RunningNowhere()
      requires Valid()
      ensures Unqueued(current)
    {
      InNoQueue(View(), rings.queue.Keys, current);
    }

    method ThreadYield()
      requires Valid()
      modifies Parts()
      ensures old(threads[current].priority < |runQueue|) && View() == Yield(old(View())) && Valid()
    {
      YieldParks(View());
      RunningNowhere();
      ParkCurrent(true);
      ThreadResched();
    }

    method ThreadPreempt()
      requires Valid()
      modifies Parts()
      ensures old(threads[current].priority < |runQueue|) && View() == Preempt(old(View())) && Valid()
    {
      ParkOk(View());
      RunningNowhere();
      ParkCurrent(false);
      ThreadResched();
    }

    method ArmAndSleep(delay: nat)
      requires Linked() && current in threads && Sorted(timers.queue) && NoTimer(View(), current)
      modifies this, timers
      ensures View() == FallAsleep(old(View()), delay) && Linked()
    {
      timers.SetOneshot(OfThread(current), delay, SleepHandler, now);
      SetPhase(current, Sleeping);
    }

    method ThreadSleep(delay: nat)
      requires Valid() && current != IDLE
      modifies Parts()
      ensures View() == Sleep(old(View()), delay) && Valid()
    {
      SleepParks(View(), delay);
      ArmAndSleep(delay);
      ThreadResched();
    }

    // -------------------------------------------------------------- wait queues

    method EnterList(q: Qid)
      requires Linked() && current in threads && Wait(q) in rings.queue && Unqueued(current)
      modifies this, rings.nodes, rings.queues
      ensures var w := WaitQueue(QueueIn(old(waits), q).list + [current], QueueIn(old(waits), q).count + 1);
        View() == old(View()).(waits := old(waits)[q := w])
      ensures Linked()
    {
      ghost var w := WaitQueue(QueueIn(waits, q).list + [current], QueueIn(waits, q).count + 1);
      rings.AppendWait(q, current, runQueue, waits, w);
      CountChanged(counts, waits, q, w);
      assert CountMatches(counts, waits, q);
      counts := counts[q := CountIn(counts, q) + 1];
      waits := waits[q := w];
    }

    method MarkBlocked(q: Qid)
      requires Linked() && current in threads
      modifies this
      ensures View() == old(View()).With(current, old(threads[current]).(phase := Blocked, blockedOn := Some(q),
                blockRet := NO_ERR))
      ensures Linked()
    {
      threads := threads[current := threads[current].(phase := Blocked, blockedOn := Some(q), blockRet := NO_ERR)];
    }

    method JoinForGood(q: Qid)
      requires Linked() && current in threads && Wait(q) in rings.queue && Unqueued(current)
      modifies this, rings.nodes, rings.queues
      ensures View() == EnterWait(old(View()), q, None) && Linked()
    {
      EnterList(q);
      MarkBlocked(q);
    }

    method JoinQueue(q: Qid, timeout: Option<nat>)
      requires Linked() && current in threads && Sorted(timers.queue) && NoTimer(View(), current)
      requires Wait(q) in rings.queue && Unqueued(current)
      modifies Parts()
      ensures View() == EnterWait(old(View()), q, timeout) && Linked()
    {
      JoinForGood(q);
      if timeout.Some? {
        ArmTimeout(timeout.value);
      }
    }

    method ArmTimeout(delay: nat)
      requires Linked() && Sorted(timers.queue) && NoTimer(View(), current)
      modifies timers
      ensures View() == old(View()).(timers := Inserted(old(timers.queue), Armed(old(View()), delay, TimeoutHandler)))
      ensures Linked()
    {
      timers.SetOneshot(OfThread(current), delay, TimeoutHandler, now);
    }

    /** wait_queue_block up to the switch. It answers at once only if the timeout is zero; otherwise
        the answer is the thread's return code when it runs again. */
    method WaitQueueBlock(q: Qid, timeout: Option<nat>) returns (answer: Option<int>)
      requires Valid() && current != IDLE && CanWaitOn(View(), q) && Wait(q) in rings.queue
      modifies Parts()
      ensures View() == Block(old(View()), q, timeout) && Valid()
      ensures answer == if timeout == Some(0) then Some(ERR_TIMED_OUT) else None
    {
      if timeout == Some(0) {
        return Some(ERR_TIMED_OUT);
      }
      EnterWaitOk(View(), q, timeout);
      SleepParks(View(), 0);
      RunningNowhere();
      JoinQueue(q, timeout);
      ThreadResched();
      answer := None;
    }

    /** A thread leaves the list of a wait queue. */
    method LeaveList(q: Qid, ghost i: nat, t: Tid)
      requires Linked() && Wait(q) in rings.queue && i < |QueueIn(waits, q).list| && QueueIn(waits, q).list[i] == t
      modifies this, rings.nodes, rings.queues
      ensures var w := QueueIn(old(waits), q);
        View() == old(View()).(waits := old(waits)[q := WaitQueue(w.list[..i] + w.list[i + 1..], w.count - 1)])
      ensures Linked() && Unqueued(t)
    {
      ghost var was := QueueIn(waits, q);
      ghost var w := WaitQueue(was.list[..i] + was.list[i + 1..], was.count - 1);
      rings.RemoveWait(q, t, i, runQueue, waits, w);
      CountChanged(counts, waits, q, w);
      assert CountMatches(counts, waits, q);
      counts := counts[q := CountIn(counts, q) - 1];
      waits := waits[q := w];
    }

    /** A thread is taken off a wait queue and made ready with a return code. */
    method TakeOff(q: Qid, ghost i: nat, t: Tid, error: int)
      requires Linked() && Wait(q) in rings.queue && i < |QueueIn(waits, q).list| && QueueIn(waits, q).list[i] == t
      requires t in threads && threads[t].priority < |runQueue|
      modifies this, rings.nodes, rings.queues
      ensures View() == Release(old(View()), q, i, error) && Linked()
    {
      LeaveList(q, i, t);
      EndWait(t, error);
      MakeReadyAndQueue(t);
    }

    method EndWait(t: Tid, error: int)
      requires Linked() && t in threads
      modifies this
      ensures View() == old(View()).With(t, old(threads[t]).(blockedOn := None, blockRet := error)) && Linked()
      ensures Unqueued(t) == old(Unqueued(t))
    {
      threads := threads[t := threads[t].(blockedOn := None, blockRet := error)];
    }

    /** The first thread of a wait queue, if there is one, is woken. */
    method WakeFirst(q: Qid, error: int) returns (woken: bool)
      requires Sound(View()) && Linked() && Wait(q) in rings.queue
      modifies this, rings.nodes, rings.queues
      ensures woken <==> old(QueueIn(waits, q).list) != []
      ensures woken ==> old(QueueIn(waits, q).list[0] in threads &&
                threads[QueueIn(waits, q).list[0]].priority < |runQueue|)
      ensures View() == if woken then Release(old(View()), q, 0, error) else old(View())
      ensures Sound(View()) && Linked()
    {
      var first := rings.FirstWaiting(q, runQueue, waits);
      if first.None? {
        return false;
      }
      ReleaseSound(View(), q, error);
      TakeOff(q, 0, first.value, error);
      woken := true;
    }

    /** The caller is queued before it wakes others. */
    method QueueCurrent()
      requires Valid()
      modifies this, rings.nodes, rings.queues
      ensures old(threads[current].priority < |runQueue|) && View() == MakeReady(old(View()), old(current))
      ensures Sound(View()) && Linked()
    {
      InvBounds(View());
      RunningNowhere();
      CoreIsSound(View());
      MakeReadySound(View(), current);
      MakeReadyAndQueue(current);
    }

    method SwitchFromSound()
      requires Sound(View()) && Linked()
      modifies Parts()
      ensures View() == Resched(old(View())) && Linked()
    {
      SoundPicks(View());
      SwitchToNext();
    }

    method WakeAndSwitch(q: Qid, error: int)
      requires Valid() && Wait(q) in rings.queue && QueueIn(waits, q).list != []
      modifies Parts()
      ensures old(threads[current].priority < |runQueue|) && View() == WakeOne(old(View()), q, true, error) && Linked()
    {
      QueueCurrent();
      var woken := WakeFirst(q, error);
      SwitchFromSound();
    }

    method WakeQuietly(q: Qid, error: int)
      requires Valid() && Wait(q) in rings.queue && QueueIn(waits, q).list != []
      modifies this, rings.nodes, rings.queues
      ensures old(threads[current].priority < |runQueue|) && View() == WakeOne(old(View()), q, false, error) && Linked()
    {
      InvBounds(View());
      CoreIsSound(View());
      var woken := WakeFirst(q, error);
    }

    /** wait_queue_wake_one. When the idle thread calls it to reschedule, the invariant may be lost. */
    method WaitQueueWakeOne(q: Qid, reschedule: bool, error: int) returns (ret: nat)
      requires Valid() && Wait(q) in rings.queue
      modifies Parts()
      ensures old(threads[current].priority < |runQueue|) && View() == WakeOne(old(View()), q, reschedule, error)
      ensures Linked() && (!(reschedule && old(threads[current].idle)) ==> Valid())
      ensures ret == if old(QueueIn(waits, q).list) == [] then 0 else 1
    {
      InvBounds(View());
      if !(reschedule && threads[current].idle) { WakeOneOk(View(), q, reschedule, error); }
      var first := rings.FirstWaiting(q, runQueue, waits);
      if first.None? {
        return 0;
      }
      if reschedule {
        WakeAndSwitch(q, error);
      } else {
        WakeQuietly(q, error);
      }
      ret := 1;
    }

    /** The loop of wait_queue_wake_all. */
    method TakeAllOff(q: Qid, error: int) returns (ret: nat)
      requires Sound(View()) && Linked() && Wait(q) in rings.queue
      modifies this, rings.nodes, rings.queues
      ensures View() == ReleaseAll(old(View()), q, error) && ret == |old(QueueIn(waits, q).list)|
      ensures Sound(View()) && Linked()
    {
      ret := 0;
      while true
        invariant Sound(View()) && Linked() && ReleaseAll(View(), q, error) == ReleaseAll(old(View()), q, error)
        invariant ret + |QueueIn(waits, q).list| == |old(QueueIn(waits, q).list)|
        decreases |QueueIn(waits, q).list|
      {
        var woken := WakeFirst(q, error);
        if !woken {
          break;
        }
        ret := ret + 1;
      }
    }

    /** wait_queue_wake_all, likewise. */
    method WaitQueueWakeAll(q: Qid, reschedule: bool, error: int) returns (ret: nat)
      requires Valid() && Wait(q) in rings.queue
      modifies Parts()
      ensures old(threads[current].priority < |runQueue|) && (View(), ret) == WakeAll(old(View()), q, reschedule, error)
      ensures Linked() && (!(reschedule && old(threads[current].idle)) ==> Valid())
    {
      InvBounds(View());
      if !(reschedule && threads[current].idle) { WakeAllOk(View(), q, reschedule, error); }
      CountIsNumberWoken(View(), q, reschedule, error);
      CoreIsSound(View());
      assert CountMatches(counts, waits, q);
      if reschedule && CountIn(counts, q) > 0 {
        QueueCurrent();
      }
      ret := TakeAllOff(q, error);
      if ret > 0 && reschedule {
        SwitchFromSound();
      }
    }

    /** thread_unblock_from_wait_queue; `woken` is false for -ERR_NOT_BLOCKED. */
    method UnblockFromWaitQueue(t: Tid, error: int) returns (woken: bool)
      requires Core(View()) && Linked() && t in threads
      modifies this, rings.nodes, rings.queues
      ensures View() == Unblock(old(View()), t, error) && (woken <==> old(threads[t].phase) == Blocked) && Linked()
    {
      UnblockOk(View(), t, error);
      if threads[t].phase != Blocked {
        return false;
      }
      var q := threads[t].blockedOn.value;
      TakeOff(q, IndexOf(QueueIn(waits, q).list, t), t, error);
      return true;
    }

    // -------------------------------------------------------------- threads come and go

    /** A free slot becomes a suspended thread. */
    method UseSlot(t: Tid, priority: nat)
      requires Linked() && free != [] && t == free[0] && QueueIn(waits, ExitOf(t)).list == [] && Unqueued(t)
      modifies this, rings.nodes
      ensures View() == Create(old(View()), priority) && Linked()
    {
      assert t in free && free == [t] + free[1..] && forall u <- free[1..] :: u in free;
      CountChanged(counts, waits, ExitOf(t), WaitQueue([], 0));
      rings.ResetThread(t, runQueue, waits);
      free := free[1..];
      threads := threads[t := Thread(Suspended, priority, 0, false, false, None, NO_ERR, 0)];
      counts := counts[ExitOf(t) := 0];
      waits := waits[ExitOf(t) := WaitQueue([], 0)];
    }

    /** thread_create; -1 when there is no free slot. */
    method ThreadCreate(priority: nat) returns (tid: int)
      requires Valid() && priority < NUM_PRIORITY
      modifies this, rings.nodes
      ensures View() == Create(old(View()), priority) && Valid()
      ensures tid == if old(free) == [] then -1 else old(free)[0]
    {
      CreateOk(View(), priority);
      if free == [] {
        return -1;
      }
      var t := free[0];
      assert t in free && t !in threads;
      InNoQueue(View(), rings.queue.Keys, t);
      UseSlot(t, priority);
      tid := t;
    }

    method ThreadResume(t: Tid, intsDisabled: bool)
      requires Valid() && t in threads && threads[t].phase != Death
      modifies Parts()
      ensures old(threads[current].priority < |runQueue| && threads[t].priority < |runQueue|)
      ensures View() == Resume(old(View()), t, intsDisabled) && Valid()
    {
      InvBounds(View());
      ResumeOk(View(), t, intsDisabled);
      var resched := false;
      if threads[t].phase == Suspended {
        ResumedIsQueued(View(), t);
        InvBounds(MakeReady(View(), t));
        InNoQueue(View(), rings.queue.Keys, t);
        MakeReadyAndQueue(t);
        if !intsDisabled {
          resched := true;
        }
      }
      if resched {
        ThreadYield();
      }
    }

    method Reap(t: Tid)
      requires Linked() && t in threads
      modifies this
      ensures View() == Retire(old(View()), t) && Linked()
    {
      threads := threads - {t};
      free := Unlisted(free, t) + [t];
    }

    method ThreadExit(retcode: int)
      requires Valid() && current != IDLE
      modifies Parts()
      ensures View() == Exit(old(View()), retcode) && Valid()
    {
      DieParks(View(), retcode);
      var t := current;
      if threads[t].detached {
        Reap(t);
      } else {
        DeadStateOk(View(), retcode);
        MarkDead(retcode);
        CoreIsSound(View());
        var woken := TakeAllOff(ExitOf(t), 0);
      }
      ThreadResched();
    }

    method MarkDead(retcode: int)
      requires Linked() && current in threads
      modifies this
      ensures View() == Dying(old(View()), retcode) && Linked()
    {
      threads := threads[current := threads[current].(phase := Death, retcode := retcode)];
    }

    /** thread_join up to the switch; without an answer the caller waits, and goes on in JoinAfterWait. */
    method ThreadJoin(t: Tid, timeout: Option<nat>) returns (answer: Option<int>, retcode: int)
      requires Valid() && current != IDLE && t in threads
      modifies Parts()
      ensures (View(), answer) == Join(old(View()), t, timeout) && Linked()
      ensures Inv(View()) || old(!threads[t].detached && threads[t].phase != Death && timeout == Some(0))
      ensures answer == Some(NO_ERR) ==> retcode == old(threads[t].retcode)
    {
      retcode := 0;
      if threads[t].detached {
        return Some(-ERR_THREAD_DETACHED), retcode;
      }
      if threads[t].phase != Death {
        var err := WaitQueueBlock(ExitOf(t), timeout);
        if err.None? {
          return None, retcode;
        }
        var code;
        code, retcode := JoinAfterWait(t, err.value);
        return Some(code), retcode;
      }
      JoinOk(View(), t);
      retcode := threads[t].retcode;
      Reap(t);
      answer := Some(NO_ERR);
    }

    /** The rest of thread_join, when the caller runs again with the code of its wait. */
    method JoinAfterWait(t: Tid, err: int) returns (answer: int, retcode: int)
      requires Linked() && t in threads
      modifies this
      ensures (View(), answer) == Joined(old(View()), t, err) && Linked()
      ensures answer == NO_ERR ==> retcode == old(threads[t].retcode)
    {
      if err < 0 {
        return err, 0;
      }
      retcode := threads[t].retcode;
      Reap(t);
      answer := NO_ERR;
    }

    /** thread_detach of a thread that is not dead. */
    method ThreadDetach(t: Tid)
      requires Valid() && t in threads && threads[t].phase != Death
      modifies this, rings.nodes, rings.queues
      ensures View() == Detach(old(View()), t) && Valid()
    {
      DetachOk(View(), t);
      CoreIsSound(View());
      var woken := TakeAllOff(ExitOf(t), ERR_THREAD_DETACHED);
      MarkDetached(t);
    }

    method MarkDetached(t: Tid)
      requires Linked()
      modifies this
      ensures var s := old(View());
        View() == if t in s.threads then s.With(t, s.threads[t].(detached := true)) else s
      ensures Linked()
    {
      if t in threads {
        threads := threads[t := threads[t].(detached := true)];
      }
    }

    method BecomeIdleThread()
      requires Linked() && current in threads
      modifies this
      ensures var s := old(View());
        View() == s.With(s.current, s.threads[s.current].(priority := IDLE_PRIORITY, idle := true))
      ensures Linked()
    {
      threads := threads[current := threads[current].(priority := IDLE_PRIORITY)];
      threads := threads[current := threads[current].(idle := true)];
    }

    method ThreadBecomeIdle()
      requires Valid() && current == IDLE
      modifies Parts()
      ensures |old(runQueue)| > 0 && View() == BecomeIdle(old(View())) && Valid()
    {
      MayBecomeIdle(View());
      BecomeIdleThread();
      ThreadYield();
    }

    // -------------------------------------------------------------- the tick

    /** A driver cancels or sets a timer of its own, or of another driver. */
    method DriverTimer(act: Action)
      requires Valid() && act.id.Driver?
      modifies timers
      ensures View() == old(View()).(timers := Perform(old(timers.queue), act, now)) && Valid()
    {
      DriverOk(View(), act);
      PerformOne(timers, act, now);
    }

    /** thread_sleep_handler. */
    method FireSleep(t: Tid)
      requires Core(View()) && Linked()
      requires timers.queue != [] && timers.queue[0].id == OfThread(t) && timers.queue[0].callback == SleepHandler
      modifies Parts()
      ensures View() == Fire(DropTimer(old(View())), t, SleepHandler) && Linked()
      ensures runQueue != old(runQueue)
    {
      FirstTimer(View());
      WakeSleeperOk(View(), t);
      InNoQueue(View(), rings.queue.Keys, t);
      var p := timers.TakeFirst();
      ReadyGrows(View(), t);
      MakeReadyAndQueue(t);
    }

    /** wait_queue_timeout_handler. */
    method FireTimeout(t: Tid) returns (resched: bool)
      requires Core(View()) && Linked()
      requires timers.queue != [] && timers.queue[0].id == OfThread(t) && timers.queue[0].callback == TimeoutHandler
      modifies Parts()
      ensures View() == Fire(DropTimer(old(View())), t, TimeoutHandler) && Linked()
      ensures resched <==> runQueue != old(runQueue)
    {
      DropTimeoutOk(View(), t);
      UnblockGrows(DropTimer(View()), t, ERR_TIMED_OUT);
      var p := timers.TakeFirst();
      resched := UnblockFromWaitQueue(t, ERR_TIMED_OUT);
    }

    method FireThreadTimer(t: Tid) returns (resched: bool)
      requires Core(View()) && Linked() && timers.queue != [] && timers.queue[0].id == OfThread(t)
      modifies Parts()
      ensures View() == Fire(DropTimer(old(View())), t, old(timers.queue)[0].callback) && Linked()
      ensures resched <==> runQueue != old(runQueue)
    {
      FirstTimer(View());
      if timers.queue[0].callback == SleepHandler {
        FireSleep(t);
        resched := true;
      } else {
        resched := FireTimeout(t);
      }
    }

    /** One round of the loop of timer_tick; `asks` tells which drivers' callbacks ask for rescheduling. */
    method FireFirst(react: Callbacks, asks: TimerId -> bool) returns (resched: bool)
      requires Core(View()) && Linked() && FromDrivers(react) && timers.queue != []
      modifies Parts()
      ensures View() == Round(old(View()), react) && Core(View()) && Linked()
      ensures var p := old(timers.queue)[0]; resched <==> (p.id.Driver? && asks(p.id)) || runQueue != old(runQueue)
    {
      RoundOk(View(), react);
      var id := timers.queue[0].id;
      match id
      case OfThread(t) =>
        resched := FireThreadTimer(t);
      case Driver(_) =>
        var p := KernelTimerTick.FireFirst(timers, react(id), now);
        resched := asks(id);
    }

    /** What the loop has done: `fired` have fired, and it has asked for rescheduling or not. */
    ghost predicate Under(s: State, fired: seq<Timer>, react: Callbacks, asks: TimerId -> bool, resched: bool)
      reads this, timers
    {
      && FireDue(View(), react) == FireDue(s, react) && Midway(s.timers, fired, timers.queue, react, s.now)
      && now == s.now && Prefixed(s, View()) && (resched <==> DriverAsks(fired, asks) || runQueue != s.runQueue)
    }

    method FireNext(react: Callbacks, asks: TimerId -> bool, ghost s: State, ghost fired: seq<Timer>, so: bool)
      returns (resched: bool)
      requires Core(View()) && Linked() && FromDrivers(react) && Under(s, fired, react, asks, so)
      requires timers.queue != [] && timers.queue[0].sched <= now
      modifies Parts()
      ensures Core(View()) && Linked() && Under(s, fired + [old(timers.queue)[0]], react, asks, resched)
      ensures |Due(timers.queue, now)| < old(|Due(timers.queue, now)|)
    {
      ghost var before, p := View(), timers.queue[0];
      RoundIsShorter(View(), react);
      RoundTimers(View(), react);
      RoundAppends(View(), react);
      MidwayNext(s.timers, fired, timers.queue, react, now);
      DriverAsksOneMore(fired, p, asks);
      var again := FireFirst(react, asks);
      GrowthStays(s, before, View());
      resched := so || again;
    }

    method FireAllDue(react: Callbacks, asks: TimerId -> bool) returns (resched: bool)
      requires Core(View()) && Linked() && FromDrivers(react)
      modifies Parts()
      ensures View() == FireDue(old(View()), react) && Linked()
      ensures resched <==>
                runQueue != old(runQueue) || DriverAsks(FireAll(old(timers.queue), react, old(now)).0, asks)
    {
      ghost var fired: seq<Timer> := [];
      assert forall more: seq<Timer> :: [] + more == more;
      resched := false;
      while timers.queue != [] && timers.queue[0].sched <= now
        invariant Core(View()) && Linked() && Under(old(View()), fired, react, asks, resched)
        decreases |Due(timers.queue, now)|
      {
        ghost var p := timers.queue[0];
        resched := FireNext(react, asks, old(View()), fired, resched);
        fired := fired + [p];
      }
      assert fired + [] == fired;
    }

    /** thread_timer_tick. */
    method ThreadTimerTick(preemptEnabled: bool) returns (resched: bool)
      requires Linked() && current in threads
      modifies this
      ensures View() == CountDown(old(View())) && Linked()
      ensures runQueue == old(runQueue) && current in threads
      ensures resched <==> threads[current].quantum <= 0 && preemptEnabled
    {
      threads := threads[current := threads[current].(quantum := threads[current].quantum - 1)];
      resched := threads[current].quantum <= 0 && preemptEnabled;
    }

    /** The hardware's tick, with which current_time advances. */
    method SetNow(now: nat)
      requires Linked()
      modifies this
      ensures View() == old(View()).(now := now) && Linked() && (old(Valid()) ==> Valid())
    {
      if Inv(View()) { ClockIsFree(View(), now); }
      this.now := now;
    }

    /** The loop over the timers that are due at `now`. */
    method TickTimers(now: nat, react: Callbacks, asks: TimerId -> bool) returns (resched: bool)
      requires Valid() && now >= this.now && FromDrivers(react)
      modifies Parts()
      ensures View() == FireDue(old(View()).(now := now), react) && Inv(View()) && Linked()
      ensures resched <==>
                runQueue != old(runQueue) || DriverAsks(FireAll(old(timers.queue), react, now).0, asks)
    {
      TickFires(View(), now, react);
      SetNow(now);
      resched := FireAllDue(react, asks);
    }

    /** timer_tick. It asks for rescheduling exactly if somebody has been queued, or the callback of a driver's
        timer that fires asks for it, or the running thread has no time left and may be preempted. */
    method TimerTick(now: nat, react: Callbacks, asks: TimerId -> bool, preemptEnabled: bool) returns (resched: bool)
      requires Valid() && now >= this.now && FromDrivers(react)
      modifies Parts()
      ensures View() == Tick(old(View()), now, react) && Valid() && current in threads
      ensures resched <==>
                || runQueue != old(runQueue) || DriverAsks(FireAll(old(timers.queue), react, now).0, asks)
                || (preemptEnabled && threads[current].quantum <= 0)
    {
      TickOk(View(), now, react);
      resched := TickTimers(now, react, asks);
      var expired := ThreadTimerTick(preemptEnabled);
      resched := resched || expired;
    }
  }
}
