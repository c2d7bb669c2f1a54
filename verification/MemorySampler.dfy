/** Drift-free periodic deadlines: the polling loops of `plugin/src/samplers/memory_sampler.cpp` (two timers) and
    `plugin/src/samplers/papyrus_sampler.cpp` (one). Times are integer clock ticks. */
module MemorySampler {

  datatype Timer = Timer(next: int, period: nat, fired: seq<int>)   // fired: history of firing times

  /** One look at a deadline: advance it by whole periods of its own, unless it has fallen behind the clock. */
  function Tick(t: Timer, now: int): Timer {
    if now < t.next then t
    else
      var next := t.next + t.period;
      Timer(if next < now then now + t.period else next, t.period, t.fired + [now])
  }

  function Ticks(t: Timer, polls: seq<int>): Timer {
    if polls == [] then t else Tick(Ticks(t, polls[..|polls| - 1]), polls[|polls| - 1])
  }

  /** The deadline code of the polling loops, once per timer and poll. */
  method Advance(next: int, period: nat, now: int, ghost fired: seq<int>) returns (fires: bool, next': int)
    ensures fires <==> now >= next
    ensures Tick(Timer(next, period, fired), now) == Timer(next', period, if fires then fired + [now] else fired)
  {
    fires, next' := false, next;
    if now >= next {
      fires, next' := true, next + period;
      if next' < now { next' := now + period; }
    }
  }

  class MemorySampler {
    var nextMem: int
    var nextPressure: int
    const memPeriod: nat
    const pressurePeriod: nat
    ghost var memFired: seq<int>
    ghost var pressureFired: seq<int>

    constructor (memPeriod: nat, pressurePeriod: nat)
      ensures this.memPeriod == memPeriod && this.pressurePeriod == pressurePeriod
    {
      this.memPeriod, this.pressurePeriod := memPeriod, pressurePeriod;
      nextMem, nextPressure, memFired, pressureFired := 0, 0, [], [];
    }

    /** `polls` are the clock readings of the loop until _running is found false. The two timers do not disturb each other. */
    method Loop(startMem: int, startPressure: int, polls: seq<int>)
      modifies this
      ensures Timer(nextMem, memPeriod, memFired) == Ticks(Timer(startMem, memPeriod, []), polls)
      ensures Timer(nextPressure, pressurePeriod, pressureFired) == Ticks(Timer(startPressure, pressurePeriod, []), polls)
    {
      nextMem, memFired := startMem, [];
      nextPressure, pressureFired := startPressure, [];
      for i := 0 to |polls|
        invariant Timer(nextMem, memPeriod, memFired) == Ticks(Timer(startMem, memPeriod, []), polls[..i])
        invariant Timer(nextPressure, pressurePeriod, pressureFired)
               == Ticks(Timer(startPressure, pressurePeriod, []), polls[..i])
      {
        assert polls[..i + 1][..i] == polls[..i];
        var now := polls[i];
        var mem, pressure;
        mem, nextMem := Advance(nextMem, memPeriod, now, memFired);
        if mem { memFired := memFired + [now]; }
        pressure, nextPressure := Advance(nextPressure, pressurePeriod, now, pressureFired);
        if pressure { pressureFired := pressureFired + [now]; }
      }
      assert polls[..|polls|] == polls;
    }
  }

  ghost predicate NonDecreasing(polls: seq<int>) {
    forall i, j | 0 <= i < j < |polls| :: polls[i] <= polls[j]
  }

  /** What holds of a timer after any polls, the last of them at `last`. */
  ghost predicate Steady(t: Timer, start: int, last: int) {
    var n := |t.fired|;
    && t.next >= start + n * t.period
    && (forall k | 0 <= k < n :: t.fired[k] >= start + k * t.period)
    && (forall k | 0 <= k < n - 2 :: t.fired[k + 2] >= t.fired[k] + t.period)
    && (n >= 1 ==> t.fired[n - 1] <= t.next && t.fired[n - 1] <= last)
    && (n >= 2 ==> t.next >= t.fired[n - 2] + t.period)
  }

  lemma TickKeepsSteady(t: Timer, start: int, last: int, now: int)
    requires Steady(t, start, last) && last <= now
    ensures Steady(Tick(t, now), start, now)
  {
    if now >= t.next {
      var n, p, u := |t.fired|, t.period, Tick(t, now);
      assert u.period == p && u.fired == t.fired + [now] && u.next >= t.next + p && u.next >= now;
      hide Tick;
      assert (n + 1) * p == n * p + p;
      forall k | 0 <= k < n + 1 ensures u.fired[k] >= start + k * p {
        if k < n { assert u.fired[k] == t.fired[k]; }
      }
      forall k | 0 <= k < n - 1 ensures u.fired[k + 2] >= u.fired[k] + p {
        if k < n - 2 { assert u.fired[k + 2] == t.fired[k + 2] && u.fired[k] == t.fired[k]; }
      }
    }
  }

  /** A firing at most a period late keeps the deadline's grid; one that comes later starts it anew, a full period from then. */
  lemma AfterStall(t: Timer, now: int)
    requires now >= t.next
    ensures var u := Tick(t, now);
            && now <= u.next <= now + t.period
            && (u.next - t.next == t.period <==> now - t.next <= t.period)
            && (now - t.next > t.period ==> forall later | later < now + t.period :: Tick(u, later).fired == u.fired)
            && forall later | later >= u.next :: |Tick(u, later).fired| == |u.fired| + 1
  {
  }

  /** For any poll times: firing k (from 0) is never before start + k * period; after a firing the deadline is not in the past;
      and of three firings in a row the last is at least a period after the first, so a stall causes no burst. */
  lemma {:induction false} NeverEarlyNeverBursts(start: int, period: nat, polls: seq<int>)
    requires NonDecreasing(polls)
    ensures var t := Ticks(Timer(start, period, []), polls);
            && t.period == period && Steady(t, start, if polls == [] then start else polls[|polls| - 1])
            && (polls != [] ==> polls[|polls| - 1] <= t.next)
    decreases |polls|
  {
    if polls != [] {
      var n := |polls| - 1;
      NeverEarlyNeverBursts(start, period, polls[..n]);
      var t := Ticks(Timer(start, period, []), polls[..n]);
      var last := if n == 0 then (if start < polls[n] then start else polls[n]) else polls[..n][n - 1];
      assert last <= polls[n];
      assert Steady(t, start, last);
      hide Steady;
      TickKeepsSteady(t, start, last, polls[n]);
    }
  }

  /** The time since the previous poll, or since the start. */
  function Gap(start: int, polls: seq<int>, i: nat): int
    requires i < |polls|
  {
    polls[i] - if i == 0 then start else polls[i - 1]
  }

  ghost predicate GapsWithin(start: int, polls: seq<int>, g: int) {
    forall i | 0 <= i < |polls| :: Gap(start, polls, i) <= g
  }

  /** If the loop polls at least every g <= period ticks, the deadline is never reset and firing k lies within g after
      start + k * period: the timer does not drift, however long it runs. */
  lemma {:induction false} NeverDrifts(start: int, period: nat, polls: seq<int>, g: int)
    requires NonDecreasing(polls) && GapsWithin(start, polls, g) && g <= period
    ensures var t := Ticks(Timer(start, period, []), polls);
            && t.period == period
            && t.next == start + |t.fired| * period
            && (polls != [] ==> polls[|polls| - 1] <= t.next)
            && forall k | 0 <= k < |t.fired| :: start + k * period <= t.fired[k] <= start + k * period + g
    decreases |polls|
  {
    if polls != [] {
      var n := |polls| - 1;
      assert forall i | 0 <= i < n :: Gap(start, polls[..n], i) == Gap(start, polls, i);
      NeverDrifts(start, period, polls[..n], g);
      var t := Ticks(Timer(start, period, []), polls[..n]);
      assert (|t.fired| + 1) * period == |t.fired| * period + period;
      assert Gap(start, polls, n) <= g;
    }
  }
}
