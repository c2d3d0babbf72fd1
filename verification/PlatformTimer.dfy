/** The hardware tick that drives the periodic callback (driver/timer/platform_timer.c). Times are
    64-bit fixed-point numbers with 32 fractional bits, as in the source. */
module DriverPlatformTimer {

  type Word = x: nat | x < 0x1_0000_0000_0000_0000

  function Wrap(x: int): Word { x % 0x1_0000_0000_0000_0000 }

  class PlatformTimer {
    var currentTime: Word
    var nextTriggerTime: Word
    var nextTriggerDelta: Word
    var deltaTime: Word
    var hasCallback: bool
    // The number of times the callback has been called.
    var calls: nat

    constructor (deltaTime: Word)
      ensures this.deltaTime == deltaTime && currentTime == 0 && !hasCallback && calls == 0
    {
      currentTime, nextTriggerTime, nextTriggerDelta := 0, 0, 0;
      this.deltaTime, hasCallback, calls := deltaTime, false, 0;
    }

    /** platform_set_periodic_timer. */
    method SetPeriodic(interval: Word)
      modifies this
      ensures hasCallback && nextTriggerDelta == Wrap(interval * 0x1_0000_0000)
      ensures nextTriggerTime == Wrap(currentTime + nextTriggerDelta)
      ensures currentTime == old(currentTime) && deltaTime == old(deltaTime) && calls == old(calls)
    {
      hasCallback := true;
      nextTriggerDelta := Wrap(interval * 0x1_0000_0000);
      nextTriggerTime := Wrap(currentTime + nextTriggerDelta);
    }

    /** os_timer_tick. The new trigger time is computed from the current one and the lateness, in
        wrapping arithmetic. */
    method Tick()
      modifies this
      ensures currentTime == Wrap(old(currentTime) + deltaTime)
      ensures deltaTime == old(deltaTime) && nextTriggerDelta == old(nextTriggerDelta)
      ensures hasCallback == old(hasCallback)
      ensures var due := hasCallback && currentTime >= old(nextTriggerTime);
        && calls == old(calls) + (if due then 1 else 0)
        && nextTriggerTime == if due then Wrap(old(nextTriggerTime) + nextTriggerDelta) else old(nextTriggerTime)
    {
      currentTime := Wrap(currentTime + deltaTime);
      if hasCallback && currentTime >= nextTriggerTime {
        LatenessCancels(currentTime, nextTriggerTime, nextTriggerDelta);
        var delta := Wrap(currentTime - nextTriggerTime);
        nextTriggerTime := Wrap(Wrap(currentTime + nextTriggerDelta) - delta);
        calls := calls + 1;
      }
    }

    /** `n` ticks after the timer was set: with a tick no longer than the period and no wrap-around,
        exactly floor(n * tick / period) calls have been made and the next one is due at the next
        multiple of the period. Lateness of single ticks never adds up. */
    method RunTicks(n: nat)
      requires hasCallback && 0 < deltaTime <= nextTriggerDelta
      requires nextTriggerTime == currentTime + nextTriggerDelta
      requires currentTime + n * deltaTime + nextTriggerDelta < 0x1_0000_0000_0000_0000
      modifies this
      ensures deltaTime == old(deltaTime) && nextTriggerDelta == old(nextTriggerDelta)
      ensures calls == old(calls) + n * deltaTime / nextTriggerDelta
      ensures nextTriggerTime == old(currentTime) + (n * deltaTime / nextTriggerDelta + 1) * nextTriggerDelta
      ensures currentTime == old(currentTime) + n * deltaTime
    {
      ghost var d, period, start := deltaTime, nextTriggerDelta, currentTime;
      var i := 0;
      // `elapsed` is i * d and `passed` is k * period, for the k calls made so far.
      ghost var k, elapsed, passed := 0, 0, 0;
      while i < n
        invariant i <= n && elapsed == i * d && passed == k * period
        invariant hasCallback && deltaTime == d && nextTriggerDelta == period
        invariant passed <= elapsed < passed + period
        invariant currentTime == start + elapsed && nextTriggerTime == start + passed + period
        invariant calls == old(calls) + k
      {
        assert (i + 1) * d == elapsed + d && (k + 1) * period == passed + period;
        assert elapsed + d <= n * d by { MulMonotonic(i + 1, n, d); }
        Tick();
        i, elapsed := i + 1, elapsed + d;
        if elapsed >= passed + period {
          k, passed := k + 1, passed + period;
        }
      }
      QuotientUnique(n * d, period, k);
      assert (k + 1) * period == passed + period;
    }
  }

  lemma WrapCases(x: int)
    requires -0x1_0000_0000_0000_0000 <= x < 2 * 0x1_0000_0000_0000_0000
    ensures Wrap(x) == if x < 0 then x + 0x1_0000_0000_0000_0000 else if x < 0x1_0000_0000_0000_0000 then x
              else x - 0x1_0000_0000_0000_0000
  {
  }

  lemma LatenessCancels(now: Word, trigger: Word, period: Word)
    requires now >= trigger
    ensures Wrap(Wrap(now + period) - Wrap(now - trigger)) == Wrap(trigger + period)
  {
    WrapCases(now + period);
    WrapCases(now - trigger);
    WrapCases(trigger + period);
    WrapCases(Wrap(now + period) - Wrap(now - trigger));
  }

  lemma MulMonotonic(a: nat, b: nat, d: nat)
    requires a <= b
    ensures a * d <= b * d
  {
  }

  lemma MultipleGrows(d: int, y: nat)
    ensures d >= 1 ==> d * y >= y
  {
    if d >= 1 { assert d * y == (d - 1) * y + y; }
  }

  lemma QuotientUnique(x: nat, y: nat, k: nat)
    requires y > 0 && k * y <= x < k * y + y
    ensures x / y == k
  {
    var q, r := x / y, x % y;
    assert x == q * y + r;
    assert (q - k) * y == q * y - k * y && (k - q) * y == k * y - q * y;
    MultipleGrows(q - k, y);
    MultipleGrows(k - q, y);
  }
}
