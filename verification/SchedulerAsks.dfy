/** When a tick asks for rescheduling: exactly if it has woken somebody, or the callback of a driver's timer asks
    for it, or the quantum is over (kernel/timer.c, kernel/thread.c, kernel/wait_queue.c). */
module KernelSchedulerAsks {
  import opened Common
  import opened KernelTimer
  import opened KernelTimerTick
  import opened KernelSchedulerState
  import opened KernelSchedulerOps
  import opened KernelSchedulerSteps
  import opened KernelSchedulerTick
  import opened KernelSchedulerTurn

  /** The callback of a driver's timer that has fired asks for rescheduling. */
  ghost predicate DriverAsks(fired: seq<Timer>, asks: TimerId -> bool) {
    exists p <- fired :: p.id.Driver? && asks(p.id)
  }

  lemma DriverAsksOneMore(fired: seq<Timer>, p: Timer, asks: TimerId -> bool)
    ensures DriverAsks(fired + [p], asks) <==> DriverAsks(fired, asks) || (p.id.Driver? && asks(p.id))
  {
    assert p in fired + [p];
    assert forall x :: x in fired + [p] <==> x in fired || x == p;
  }

  /** Queues that only grow differ from what they were as soon as they have grown once. */
  lemma GrowthStays(a: State, b: State, c: State)
    requires Prefixed(a, b) && Prefixed(b, c)
    ensures Prefixed(a, c)
    ensures a.runQueue != c.runQueue <==> a.runQueue != b.runQueue || b.runQueue != c.runQueue
  {
    if a.runQueue != b.runQueue {
      var k :| 0 <= k < |a.runQueue| && a.runQueue[k] != b.runQueue[k];
      assert |a.runQueue[k]| < |b.runQueue[k]| <= |c.runQueue[k]|;
    }
  }

  lemma ReadyGrows(s: State, t: Tid)
    requires t in s.threads && s.threads[t].priority < |s.runQueue|
    ensures MakeReady(s, t).runQueue != s.runQueue
  {
    var p := s.threads[t].priority;
    assert |MakeReady(s, t).runQueue[p]| == |s.runQueue[p]| + 1;
  }

  /** Ending the wait of a thread queues it, if it does wait. */
  lemma UnblockGrows(s: State, t: Tid, error: int)
    requires Core(s)
    ensures Unblock(s, t, error).runQueue != s.runQueue <==> s.Is(t, Blocked)
  {
    UnblockOk(s, t, error);
    if s.Is(t, Blocked) {
      var q := s.threads[t].blockedOn.value;
      var i, w := IndexOf(s.Queue(q).list, t), s.Queue(q);
      ListedIsBlocked(s, q, t);
      ReleaseReady(s, q, i, error);
      var off := s.(waits := s.waits[q := WaitQueue(w.list[..i] + w.list[i + 1..], w.count - 1)]);
      ReadyGrows(off.With(t, s.threads[t].(blockedOn := None, blockRet := error)), t);
    }
  }
}
