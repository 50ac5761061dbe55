/** The interval timer: 64-bit tick bookkeeping over a clock sample
    (`lastTime`) and a reference point (`referenceTime`). The clock reading and
    the counter frequency are parameters; the source obtains them from the
    platform's performance counter. */
module IntervalTimer {

  /** C and C++ integer division, which truncates toward zero: the remainder
      takes the sign of the dividend and is smaller than the divisor. */
  function TruncDiv(a: int, b: int): (q: int)
    requires b > 0
    ensures a >= 0 ==> 0 <= a - q * b < b
    ensures a < 0 ==> -b < a - q * b <= 0
  {
    if a >= 0 then a / b else -((-a) / b)
  }

  /** Whole intervals in `delta` ticks. With `delta >= 0` the source's
      truncating `/` agrees with this floor division. */
  function WholeIntervals(delta: int, interval: int): (n: int)
    requires delta >= 0 && interval > 0
    ensures n >= 0 && n * interval <= delta < (n + 1) * interval
  {
    delta / interval
  }

  /** The fraction of the current interval already elapsed. */
  function Progress(delta: int, interval: int): (p: real)
    requires delta >= 0 && interval > 0
    ensures 0.0 <= p < 1.0
  {
    (delta % interval) as real / interval as real
  }

  /** Consuming the whole intervals leaves the remainder: the fraction is kept
      and no whole interval is left to count. */
  lemma ConsumeKeepsRemainder(delta: int, interval: int)
    requires delta >= 0 && interval > 0
    ensures var rest := delta - WholeIntervals(delta, interval) * interval;
      0 <= rest < interval && WholeIntervals(rest, interval) == 0 &&
      Progress(rest, interval) == Progress(delta, interval)
  {
    var n := WholeIntervals(delta, interval);
    var rest := delta - n * interval;
    assert delta == n * interval + delta % interval;
    assert rest == delta % interval;
  }

  lemma RealDivAdd(a: int, b: int, c: int)
    requires c > 0
    ensures (a + b) as real / c as real == a as real / c as real + b as real / c as real
  {
  }

  /** The continuous number of intervals is the whole count plus the progress. */
  lemma ContinuousIsCountPlusProgress(delta: int, interval: int)
    requires delta >= 0 && interval > 0
    ensures delta as real / interval as real ==
      WholeIntervals(delta, interval) as real + Progress(delta, interval)
  {
    var n := delta / interval;
    assert delta == n * interval + delta % interval;
    RealDivAdd(n * interval, delta % interval, interval);
    assert (n * interval) as real / interval as real == n as real;
  }

  class Timer {
    var lastTime: int
    var referenceTime: int
    var frequency: int
    var interval: int

    /** The reference point never runs ahead of the clock sample, and the
        interval is at least one tick. */
    ghost predicate Valid()
      reads this
    {
      referenceTime <= lastTime && interval > 0
    }

    /** A timer before `Init`; the program leaves the members unset until
        then, and zero stands for that here. */
    constructor ()
      ensures lastTime == 0 && referenceTime == 0 && frequency == 0 && interval == 0
    {
      lastTime, referenceTime, frequency, interval := 0, 0, 0, 0;
    }

    /** Ticks since the reference point. */
    function Delta(): int
      reads this
    {
      lastTime - referenceTime
    }

    /** Reads the counter frequency and the clock, takes the clock reading as
        the reference point and sets the interval to
        `frequency * intervalMs / 1000` ticks. `available` is whether the
        performance counter answers. */
    method Init(available: bool, counterFrequency: int, now: int, intervalMs: int) returns (ok: bool)
      modifies this
      ensures ok == available
      ensures ok ==> frequency == counterFrequency && lastTime == now && referenceTime == now
      ensures ok ==> interval == TruncDiv(counterFrequency * intervalMs, 1000)
      ensures ok && counterFrequency * intervalMs >= 1000 ==> Valid() && Delta() == 0
    {
      if !available {
        return false;
      }
      frequency := counterFrequency;
      lastTime := now;
      referenceTime := lastTime;
      interval := TruncDiv(frequency * intervalMs, 1000);
      return true;
    }

    /** Samples the clock. The clock is monotonic, so the reading is never
        behind the previous one. */
    method Update(available: bool, now: int) returns (ok: bool)
      requires Valid() && now >= lastTime
      modifies this`lastTime
      ensures Valid()
      ensures ok == available
      ensures lastTime == if ok then now else old(lastTime)
    {
      if available {
        lastTime := now;
      }
      return available;
    }

    /** The fraction of the current interval, in [0, 1); when asked, the whole
        intervals elapsed are consumed and the remainder carries over. */
    method IntervalProgress(forgetElapsedIntervals: bool) returns (p: real)
      requires Valid()
      modifies this`referenceTime
      ensures Valid()
      ensures p == Progress(old(Delta()), interval) && 0.0 <= p < 1.0
      ensures referenceTime == old(referenceTime) +
        (if forgetElapsedIntervals then WholeIntervals(old(Delta()), interval) * interval else 0)
    {
      var delta := lastTime - referenceTime;
      var count := delta / interval;
      var modulo := delta % interval;
      if forgetElapsedIntervals {
        referenceTime := referenceTime + count * interval;
      }
      p := modulo as real / interval as real;
    }

    /** How many whole intervals elapsed since the reference point; when asked,
        they are consumed and the unfinished interval continues. */
    method IntervalsCount(forgetElapsedIntervals: bool) returns (count: int)
      requires Valid()
      modifies this`referenceTime
      ensures Valid()
      ensures count == WholeIntervals(old(Delta()), interval)
      ensures referenceTime == old(referenceTime) + (if forgetElapsedIntervals then count * interval else 0)
      ensures forgetElapsedIntervals ==> Delta() == old(Delta()) % interval
    {
      var delta := lastTime - referenceTime;
      count := delta / interval;
      if forgetElapsedIntervals {
        referenceTime := referenceTime + count * interval;
      }
    }

    /** The continuous number of elapsed intervals, whole and fractional; it
        changes nothing. */
    method IntervalsContinuous() returns (c: real)
      requires Valid()
      ensures c >= 0.0
      ensures c == WholeIntervals(Delta(), interval) as real + Progress(Delta(), interval)
    {
      var delta := lastTime - referenceTime;
      c := delta as real / interval as real;
      ContinuousIsCountPlusProgress(delta, interval);
    }

    /** Restarts the interval at the last clock sample, dropping any fraction. */
    method StartNewInterval()
      requires Valid()
      modifies this`referenceTime
      ensures Valid() && referenceTime == lastTime && Delta() == 0
    {
      referenceTime := lastTime;
    }
  }

  /** Counting without consuming is repeatable; consuming once leaves nothing
      for an immediate second count, and keeps the fraction. */
  method CountTwice(t: Timer, forgetElapsedIntervals: bool) returns (first: int, second: int)
    requires t.Valid()
    modifies t
    ensures t.Valid()
    ensures first == WholeIntervals(old(t.Delta()), t.interval)
    ensures !forgetElapsedIntervals ==> second == first && t.referenceTime == old(t.referenceTime)
    ensures forgetElapsedIntervals ==>
              second == 0 && Progress(t.Delta(), t.interval) == Progress(old(t.Delta()), t.interval)
  {
    ghost var delta := t.Delta();
    first := t.IntervalsCount(forgetElapsedIntervals);
    second := t.IntervalsCount(forgetElapsedIntervals);
    if forgetElapsedIntervals {
      ConsumeKeepsRemainder(delta, t.interval);
    }
  }

  /** With a 100-tick interval and the clock 250 ticks past the reference:
      counting without consuming gives 2 twice; consuming gives 2, then 0. */
  method IntervalAccountingScenario(t: Timer) returns (a: int, b: int, c: int, d: int)
    requires t.Valid() && t.interval == 100 && t.Delta() == 250
    modifies t
    ensures a == 2 && b == 2 && c == 2 && d == 0
    ensures t.Valid() && t.Delta() == 50
  {
    a := t.IntervalsCount(false);
    b := t.IntervalsCount(false);
    c := t.IntervalsCount(true);
    d := t.IntervalsCount(true);
  }

  /** After a restart, count, progress and continuous count are all zero. */
  method RestartZeroes(t: Timer) returns (count: int, p: real, c: real)
    requires t.Valid()
    modifies t
    ensures count == 0 && p == 0.0 && c == 0.0
  {
    t.StartNewInterval();
    c := t.IntervalsContinuous();
    count := t.IntervalsCount(false);
    p := t.IntervalProgress(false);
  }
}
