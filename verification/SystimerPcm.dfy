/**
The sound card clock that runs on the system timer: a ring position and a period countdown, both in
units of 1/HZ frames, advanced by rate per tick. Words are 32 bits wide and wrap around. `now` is
the time since boot without wrap-around; the code itself only sees jiffies, its low 32 bits.
*/
module SystimerPcm {
  import opened Arithmetic

  /** a / b rounded up. */
  function Ceil(a: nat, b: nat): (c: nat)
    requires b > 0
  {
    (a + b - 1) / b
  }

  lemma {:induction false} CeilIsLeast(a: nat, b: nat, m: nat)
    requires b > 0
    ensures m * b >= a <==> m >= Ceil(a, b)
  {
    var n := a + b - 1;
    assert n == b * (n / b) + n % b;
    MultiplesApart(m - n / b, b);
    assert (m - n / b) * b == m * b - b * (n / b);
  }

  // ---------- the closed form ----------

  /** After `total` units: T mod buffer, and the rest of the current period. */
  function RestOf(total: nat, period: nat): (r: nat)
    requires period > 0
    ensures 0 < r <= period
  {
    period - total % period
  }

  /** The position that the pointer callback reports is the number of whole frames played, modulo
      the buffer size. */
  lemma {:induction false} PointerIsFrames(total: nat, size: nat, frames: nat, hz: nat)
    requires frames > 0 && hz > 0 && size == frames * hz && size > 0
    ensures total % size / hz == total / hz % frames
  {
    var q, f := total / size, total % size;
    var g, h := f / hz, f % hz;
    FramesBelow(g, h, frames, hz);
    TurnsAndFrames(total, q, f, size, g, h, frames, hz);
    DivIs(total, q * frames + g, h, hz);
    DivIs(q * frames + g, q, g, frames);
  }

  lemma {:induction false} FramesBelow(g: nat, h: nat, frames: nat, hz: nat)
    requires g * hz + h < frames * hz
    ensures g < frames
  {
    MultiplesApart(g - frames, hz);
    assert (g - frames) * hz == g * hz - frames * hz;
  }

  lemma {:induction false} TurnsAndFrames(total: nat, q: nat, f: nat, size: nat, g: nat, h: nat, frames: nat, hz: nat)
    requires total == q * size + f && size == frames * hz && f == g * hz + h
    ensures total == (q * frames + g) * hz + h
  {
    assert q * size == q * frames * hz;
    assert (q * frames + g) * hz == q * frames * hz + g * hz;
  }

  /** The ring position after advancing by d. */
  lemma {:induction false} AdvancePosition(total: nat, d: nat, size: nat, turns: nat, pos: nat)
    requires size > 0 && pos < size && pos + turns * size == total % size + d
    ensures (total + d) % size == pos
  {
    var q := total / size;
    assert total == q * size + total % size;
    assert (q + turns) * size == q * size + turns * size;
    DivIs(total + d, q + turns, pos, size);
  }

  /** The period count and countdown after advancing by d, when e more periods are added to the
      countdown before d is taken off. */
  lemma {:induction false} AdvancePeriod(total: nat, d: nat, period: nat, e: nat, rest: nat)
    requires period > 0 && 0 < rest <= period && rest + d == RestOf(total, period) + e * period
    ensures (total + d) / period == total / period + e && RestOf(total + d, period) == rest
  {
    var k := total / period;
    assert total == k * period + total % period;
    assert (k + e) * period == k * period + e * period;
    DivIs(total + d, k + e, period - rest, period);
  }

  // ---------- the timer ----------

  /** The jiffy a timer set at `time` is due, when `total` units have been counted by then. */
  function DueAt(time: nat, total: nat, period: nat, rate: nat): nat
    requires period > 0 && rate > 0
  {
    time + Ceil(RestOf(total, period), rate)
  }

  /** The due time is the first jiffy at which an update completes a period: never early, never a
      period missed. */
  lemma {:induction false} DueIsFirst(time: nat, total: nat, period: nat, rate: nat, at: nat)
    requires period > 0 && rate > 0 && at >= time
    ensures (total + (at - time) * rate) / period > total / period <==> at >= DueAt(time, total, period, rate)
  {
    var d, rest := (at - time) * rate, RestOf(total, period);
    CeilIsLeast(rest, rate, at - time);
    PeriodsReached(total, d, period);
  }

  lemma {:induction false} PeriodsReached(total: nat, d: nat, period: nat)
    requires period > 0
    ensures (total + d) / period > total / period <==> d >= RestOf(total, period)
  {
    var k, r := total / period, total % period;
    var n := total + d;
    assert total == k * period + r && n == n / period * period + n % period;
    MultiplesApart(n / period - k - 1, period);
    assert (n / period - k - 1) * period == n / period * period - k * period - period;
  }

  /** Any update before the due time leaves the due time as it is. */
  lemma {:induction false} DueIsKept(time: nat, total: nat, period: nat, rate: nat, at: nat)
    requires period > 0 && rate > 0 && time <= at < DueAt(time, total, period, rate)
    ensures DueAt(at, total + (at - time) * rate, period, rate) == DueAt(time, total, period, rate)
  {
    var d, rest := (at - time) * rate, RestOf(total, period);
    CeilIsLeast(rest, rate, at - time);
    assert rest - d + 0 * period == rest - d;
    AdvancePeriod(total, d, period, 0, rest - d);
    CeilMinus(rest, rate, at - time);
  }

  lemma {:induction false} CeilMinus(a: nat, b: nat, m: nat)
    requires b > 0 && m * b < a
    ensures Ceil(a - m * b, b) == Ceil(a, b) - m
  {
    var c := Ceil(a, b);
    CeilIsLeast(a, b, m);
    var n := a - m * b;
    CeilIsLeast(a, b, c);
    CeilIsLeast(a, b, c - 1);
    assert (c - m) * b == c * b - m * b && (c - 1 - m) * b == c * b - b - m * b;
    assert (c - 1) * b == c * b - b;
    CeilIsLeast(n, b, c - m);
    if c - 1 - m >= 0 { CeilIsLeast(n, b, c - 1 - m); }
  }

  /** A timer handled exactly when it is due reports one period, if a tick is no longer than a
      period. */
  lemma {:induction false} OnTimeIsOnePeriod(time: nat, total: nat, period: nat, rate: nat)
    requires 0 < rate <= period
    ensures (total + (DueAt(time, total, period, rate) - time) * rate) / period == total / period + 1
  {
    var rest := RestOf(total, period);
    var c := Ceil(rest, rate);
    CeilIsLeast(rest, rate, c);
    CeilIsLeast(rest, rate, c - 1);
    assert (c - 1) * rate == c * rate - rate;
    AdvancePeriod(total, c * rate, period, 1, rest + period - c * rate);
  }

  // ---------- the driver ----------

  class Pcm {
    const hz: nat
    const bufferSize: nat
    const periodSize: nat
    const runtimeRate: nat

    var baseTime: nat
    var fracPos: nat
    var fracPeriodRest: nat
    var fracBufferSize: nat
    var fracPeriodSize: nat
    var rate: nat
    var elapsed: nat
    var pending: bool   // the timer is armed
    var expires: nat

    // history: the true time of baseTime, the units counted since prepare, the periods reported by
    // callbacks, and when and at which count the timer was armed
    ghost var base: nat
    ghost var total: nat
    ghost var reported: nat
    ghost var armedAt: nat
    ghost var armedTotal: nat

    // the clock is running, between start and stop; ticks it ran, up to base while it runs; ticks counted
    // while it stood, less ticks it ran that no update saw before the stop
    ghost var running: bool
    ghost var ran: nat
    ghost var drift: int

    /** The stream parameters: sizes and rate for which the prepared values fit a word. */
    constructor (hz: nat, bufferSize: nat, periodSize: nat, rate: nat)
      requires hz > 0 && bufferSize > 0 && periodSize > 0 && rate > 0
      requires bufferSize * hz < WORD && periodSize * hz + rate < WORD
      ensures this.hz == hz && this.bufferSize == bufferSize && this.periodSize == periodSize && runtimeRate == rate
      ensures baseTime == 0 && base == 0 && !pending && !running
    {
      this.hz, this.bufferSize, this.periodSize, runtimeRate := hz, bufferSize, periodSize, rate;
      baseTime, fracPos, fracPeriodRest, fracBufferSize, fracPeriodSize := 0, 0, 0, 0, 0;
      this.rate, elapsed, pending, expires := 0, 0, false, 0;
      base, total, reported, armedAt, armedTotal := 0, 0, 0, 0, 0;
      running, ran, drift := false, 0, 0;
    }

    ghost predicate Parameters() {
      && hz > 0 && bufferSize > 0 && periodSize > 0 && runtimeRate > 0
      && bufferSize * hz < WORD && periodSize * hz + runtimeRate < WORD
    }

    /** The state is a function of the units counted since prepare: nothing is lost or counted
        twice, however the count was split into updates. */
    ghost predicate Counted()
      reads this
    {
      && Parameters() && rate == runtimeRate
      && fracBufferSize == bufferSize * hz > 0 && fracPeriodSize == periodSize * hz > 0
      && baseTime == base % WORD
      && fracPos == total % fracBufferSize
      && fracPeriodRest == RestOf(total, fracPeriodSize)
      && reported + elapsed == total / fracPeriodSize
    }

    /** While the timer is armed: it is due when a period completes, counted from when it was armed,
        and everything counted since was counted at this rate. */
    ghost predicate Timed()
      reads this
    {
      && Counted() && pending == running
      && (pending ==>
            && armedAt <= base && total == armedTotal + (base - armedAt) * rate
            && expires == DueAt(armedAt, armedTotal, fracPeriodSize, rate) % WORD
            && reported <= armedTotal / fracPeriodSize)
    }

    /** What was counted is the time the clock ran, and the drift. */
    ghost predicate Balanced()
      reads this
    {
      total == (ran + drift) * rate
    }

    /** An update at time `now` stays within 32 bits. */
    ghost predicate NoWrap(now: nat)
      reads this
    {
      && base <= now < base + WORD
      && (now - base) * rate + (if fracBufferSize > fracPeriodSize then fracBufferSize else fracPeriodSize) < WORD
    }

    method Prepare()
      requires Parameters() && baseTime == base % WORD && !pending && !running
      modifies this
      ensures Timed() && total == 0 && reported == 0 && elapsed == 0 && !pending && base == old(base)
      ensures Balanced() && ran == 0 && drift == 0
    {
      fracPos := 0;
      rate := runtimeRate;
      fracBufferSize := Scaled(bufferSize);
      fracPeriodSize := Scaled(periodSize);
      fracPeriodRest := fracPeriodSize;
      elapsed := 0;
      Beginning(fracBufferSize);
      Beginning(fracPeriodSize);
      Forget();
    }

    ghost method Forget()
      modifies `total, `reported, `ran, `drift
      ensures Balanced() && total == 0 && reported == 0 && ran == 0 && drift == 0
    {
      total, reported, ran, drift := 0, 0, 0, 0;
    }

    static lemma {:induction false} Beginning(size: nat)
      requires size > 0
      ensures 0 % size == 0 && 0 / size == 0 && RestOf(0, size) == size
    {
      DivIs(0, 0, 0, size);
    }

    /** A number of frames, based on the tick frequency. */
    method Scaled(frames: nat) returns (units: nat)
      requires frames > 0 && hz > 0 && frames * hz < WORD
      ensures units == frames * hz > 0
    {
      MultiplesApart(frames, hz);
      units := frames * hz % WORD;
    }

    /** The number of ticks since baseTime, from two wrapped clock values. */
    static lemma {:induction false} TicksSince(now: nat, base: nat)
      requires base <= now < base + WORD
      ensures (now % WORD - base % WORD) % WORD == now - base
      ensures (base % WORD + (now - base)) % WORD == now % WORD
    {
    }

    /** dummy_systimer_update: both counters catch up with the ticks since the last update. */
    method Update(jiffies: nat, ghost now: nat)
      requires Counted() && Balanced() && jiffies == now % WORD && NoWrap(now)
      modifies `baseTime, `fracPos, `fracPeriodRest, `elapsed, `base, `total, `ran, `drift
      ensures Counted() && base == now && total == old(total) + (now - old(base)) * rate
      ensures Balanced()
      ensures ran == old(ran) + (if running then now - old(base) else 0)
      ensures drift == old(drift) + (if running then 0 else now - old(base))
    {
      TicksSince(now, base);
      ghost var ticks, t := now - base, total;
      ghost var d := ticks * rate;
      var delta := (jiffies - baseTime) % WORD;
      assert delta == ticks;
      if delta == 0 {
        assert d == 0;
        return;
      }
      baseTime := (baseTime + delta) % WORD;
      delta := Units(delta, d);
      CatchUpPosition(delta, t);
      CatchUpPeriods(delta, t);
      base := now;
      Account(ticks, d);
    }

    ghost method Account(ticks: nat, d: nat)
      requires Balanced() && d == ticks * rate
      modifies `total, `ran, `drift
      ensures Balanced() && total == old(total) + d
      ensures ran == old(ran) + (if running then ticks else 0)
      ensures drift == old(drift) + (if running then 0 else ticks)
    {
      Distributes(ran + drift, ticks, rate);
      total := total + d;
      if running {
        ran := ran + ticks;
      } else {
        drift := drift + ticks;
      }
    }

    static lemma {:induction false} Distributes(a: int, b: int, rate: nat)
      ensures a * rate + b * rate == (a + b) * rate
    {
    }

    method Units(ticks: nat, ghost d: nat) returns (delta: nat)
      requires d == ticks * rate < WORD
      ensures delta == d
    {
      delta := ticks * rate % WORD;
    }

    /** The first loop of the update: the ring position. */
    method CatchUpPosition(delta: nat, ghost t: nat)
      requires fracBufferSize > 0 && fracPos == t % fracBufferSize && delta + fracBufferSize < WORD
      modifies `fracPos
      ensures fracPos == (t + delta) % fracBufferSize
    {
      ghost var turns: nat := 0;
      fracPos := (fracPos + delta) % WORD;
      while fracPos >= fracBufferSize
        invariant fracPos + turns * fracBufferSize == t % fracBufferSize + delta
      {
        assert (turns + 1) * fracBufferSize == turns * fracBufferSize + fracBufferSize;
        fracPos := fracPos - fracBufferSize;
        turns := turns + 1;
      }
      AdvancePosition(t, delta, fracBufferSize, turns, fracPos);
    }

    /** The second loop of the update: the periods completed and the rest of the next one. */
    method CatchUpPeriods(delta: nat, ghost t: nat)
      requires fracPeriodSize > 0 && fracPeriodRest == RestOf(t, fracPeriodSize) && delta + fracPeriodSize < WORD
      modifies `fracPeriodRest, `elapsed
      ensures fracPeriodRest == RestOf(t + delta, fracPeriodSize)
      ensures elapsed == old(elapsed) + (t + delta) / fracPeriodSize - t / fracPeriodSize
    {
      ghost var e: nat, was := 0, elapsed;
      while fracPeriodRest <= delta
        invariant fracPeriodRest == RestOf(t, fracPeriodSize) + e * fracPeriodSize
        invariant fracPeriodRest <= delta + fracPeriodSize && elapsed == was + e
        decreases delta + fracPeriodSize - fracPeriodRest
      {
        assert (e + 1) * fracPeriodSize == e * fracPeriodSize + fracPeriodSize;
        elapsed := elapsed + 1;
        fracPeriodRest := (fracPeriodRest + fracPeriodSize) % WORD;
        e := e + 1;
      }
      fracPeriodRest := fracPeriodRest - delta;
      AdvancePeriod(t, delta, fracPeriodSize, e, fracPeriodRest);
    }

    /** dummy_systimer_rearm: due when the current period completes, counted from now. */
    method Rearm(jiffies: nat, ghost now: nat)
      requires Counted() && running && base == now && jiffies == now % WORD
      modifies `pending, `expires, `armedAt, `armedTotal
      ensures Timed() && pending && armedAt == now && armedTotal == total
    {
      var wait := Wait();
      LaterTick(now, jiffies, wait);
      expires := (jiffies + wait) % WORD;
      pending := true;
      armedAt, armedTotal := now, total;
      NoTicks(base, armedAt, rate);
    }

    /** The ticks until the current period completes, rounded up. */
    method Wait() returns (wait: nat)
      requires Counted()
      ensures wait == Ceil(RestOf(total, fracPeriodSize), rate)
    {
      wait := (fracPeriodRest + rate - 1) % WORD / rate;
    }

    static lemma {:induction false} LaterTick(now: nat, jiffies: nat, wait: nat)
      requires jiffies == now % WORD
      ensures (jiffies + wait) % WORD == (now + wait) % WORD
    {
    }

    static lemma {:induction false} NoTicks(a: nat, b: nat, rate: nat)
      requires a == b
      ensures (a - b) * rate == 0
    {
    }

    /** Ticks since the last update before the start are not counted. */
    method Start(jiffies: nat, ghost now: nat)
      requires Counted() && Balanced() && !pending && jiffies == now % WORD
      modifies this
      ensures Timed() && pending && base == now && total == old(total)
      ensures elapsed == old(elapsed) && reported == old(reported)
      ensures Balanced() && ran == old(ran) && drift == old(drift)
    {
      baseTime, base, running := jiffies, now, true;
      Rearm(jiffies, now);
    }

    /** The stop counts nothing: ticks since the last update are left to an update before the next start. */
    method Stop(ghost now: nat)
      requires Timed() && Balanced() && pending && base <= now
      modifies `pending, `running, `ran, `drift
      ensures Timed() && !pending
      ensures Balanced() && ran == old(ran) + (now - base) && drift == old(drift) - (now - base)
    {
      pending := false;
      running, ran, drift := false, ran + (now - base), drift - (now - base);
    }

    /** The timer function, which runs once the timer is due. It always has a period to report. */
    method Callback(jiffies: nat, ghost now: nat) returns (periods: nat)
      requires Timed() && Balanced() && pending && jiffies == now % WORD && NoWrap(now)
      requires now >= DueAt(armedAt, armedTotal, fracPeriodSize, rate)
      modifies this
      ensures Timed() && pending && base == now && total == old(total) + (now - old(base)) * rate
      ensures periods >= 1 && reported == old(reported) + periods
      ensures elapsed == 0 && reported == total / fracPeriodSize
      ensures Balanced() && ran == old(ran) + (now - old(base)) && drift == old(drift)
    {
      ghost var at, count, before := armedAt, armedTotal, base;
      pending := false;
      Update(jiffies, now);
      SpanSum(at, before, now, rate);
      DueIsFirst(at, count, fracPeriodSize, rate, now);
      Rearm(jiffies, now);
      periods := elapsed;
      elapsed := 0;
      reported := reported + periods;
    }

    /** The pointer callback: whole frames played, modulo the buffer. It leaves the timer alone. */
    method Pointer(jiffies: nat, ghost now: nat) returns (pos: nat)
      requires Timed() && Balanced() && jiffies == now % WORD && NoWrap(now)
      modifies `baseTime, `fracPos, `fracPeriodRest, `elapsed, `base, `total, `ran, `drift
      ensures Timed() && base == now && total == old(total) + (now - old(base)) * rate
      ensures pos == total / hz % bufferSize
      ensures Balanced() && ran == old(ran) + (if running then now - old(base) else 0)
      ensures drift == old(drift) + (if running then 0 else now - old(base))
    {
      ghost var before := base;
      Update(jiffies, now);
      if pending { SpanSum(armedAt, before, now, rate); }
      pos := Frames();
    }

    method Frames() returns (pos: nat)
      requires hz > 0 && bufferSize > 0 && fracBufferSize == bufferSize * hz > 0 && fracPos == total % fracBufferSize
      ensures pos == total / hz % bufferSize
    {
      PointerIsFrames(total, fracBufferSize, bufferSize, hz);
      pos := fracPos / hz;
    }

    static lemma {:induction false} SpanSum(a: nat, b: nat, c: nat, rate: nat)
      requires a <= b <= c
      ensures (b - a) * rate + (c - b) * rate == (c - a) * rate
    {
    }

    /** What was counted is the running time exactly when the ticks counted while the clock stood make up for
        the running ticks that were lost: in particular with an update at the tick of every stop and none
        while stopped. */
    lemma {:induction false} CountsRunningTime()
      requires Counted() && Balanced()
      ensures total == ran * rate <==> drift == 0
    {
      Distributes(ran, drift, rate);
      if drift > 0 { MoreThanNothing(drift, rate); }
      if drift < 0 { MoreThanNothing(-drift, rate); }
    }

    static lemma {:induction false} MoreThanNothing(n: nat, rate: nat)
      requires n > 0 && rate > 0
      ensures n * rate > 0
    {
    }

    /** While the timer is armed: a further period is completed exactly when updates have reached
        the due time, and until then the due time is still where it would be set now. */
    lemma {:induction false} ExpiryIsExact()
      requires Timed() && pending
      ensures total / fracPeriodSize > armedTotal / fracPeriodSize
              <==> base >= DueAt(armedAt, armedTotal, fracPeriodSize, rate)
      ensures base < DueAt(armedAt, armedTotal, fracPeriodSize, rate) ==>
                expires == (base + Ceil(fracPeriodRest, rate)) % WORD
    {
      DueIsFirst(armedAt, armedTotal, fracPeriodSize, rate, base);
      if base < DueAt(armedAt, armedTotal, fracPeriodSize, rate) {
        DueIsKept(armedAt, armedTotal, fracPeriodSize, rate, base);
      }
    }
  }
}
