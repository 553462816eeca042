/** The simulation clock: a timer firing every 500 ms of wall-clock time
    advances the simulated time of day by `500 * timeFactor` ms and reports
    the elapsed simulated seconds. Simulated time is a `QTime`, a time of day,
    so it wraps at midnight; the model keeps it in milliseconds modulo one day.
    The timer is an explicit `running` flag and ticks are driven by `Run`. */
module Clock {

  /** Timer period in milliseconds, set when the simulation is initialised. */
  const Interval: int := 500

  const MsPerDay: int := 86_400_000

  /** Upper bound applied by `setTimeFactor`. */
  const MaxTimeFactor: int := 10

  /** Simulated time of day (ms), the `timeFactor` option, whether the timer runs. */
  datatype Clock = Clock(time: int, factor: int, running: bool)

  predicate Valid(c: Clock) {
    0 <= c.time < MsPerDay
  }

  /** `pause(paused)`: stop the timer when pausing, start it otherwise. */
  function Pause(c: Clock, paused: bool): (r: Clock)
    ensures r.running <==> !paused
    ensures r.time == c.time && r.factor == c.factor
  {
    c.(running := !paused)
  }

  /** `setTimeFactor(tf)`: store `min(tf, 10)`, with no lower bound, and run the
      timer exactly when `tf` is not zero. */
  function SetTimeFactor(c: Clock, tf: int): (r: Clock)
    ensures r.factor <= MaxTimeFactor
    ensures r.factor == tf || (tf > MaxTimeFactor && r.factor == MaxTimeFactor)
    ensures r.running <==> tf != 0
    ensures r.time == c.time
  {
    var f := if tf < MaxTimeFactor then tf else MaxTimeFactor;
    Clock(c.time, f, tf != 0)
  }

  /** A tick's outcome: the new clock and the payloads of `timeChanged` and
      `timeElapsed`. */
  datatype Tick = Tick(clock: Clock, timeChanged: int, timeElapsed: real)

  /** `timerOut`: one tick. */
  function TimerOut(c: Clock): (r: Tick)
    requires Valid(c)
    ensures Valid(r.clock)
    ensures r.clock.factor == c.factor && r.clock.running == c.running
    ensures (r.clock.time - c.time - Interval * c.factor) % MsPerDay == 0
    ensures r.timeChanged == r.clock.time
    ensures r.timeElapsed * 1000.0 == (Interval * c.factor) as real
  {
    var t := (c.time + Interval * c.factor) % MsPerDay;
    Tick(c.(time := t), t, (Interval * c.factor) as real / 1000.0)
  }

  /** `n` timer periods of wall-clock time: one tick per period while the
      timer runs, none while it is stopped. */
  function Run(c: Clock, n: nat): (r: Clock)
    requires Valid(c)
    ensures Valid(r)
    ensures r.factor == c.factor && r.running == c.running
    decreases n
  {
    if n == 0 || !c.running then c else Run(TimerOut(c).clock, n - 1)
  }

  lemma MulAtLeast(d: int, m: int)
    requires d > 0 && m >= 1
    ensures d * m >= d
    decreases m
  {
    if m > 1 {
      MulAtLeast(d, m - 1);
      assert d * m == d * (m - 1) + d;
    }
  }

  /** Euclidean division has one quotient and one remainder. */
  lemma ModUnique(y: int, k: int, r: int, d: int)
    requires d > 0 && 0 <= r < d && y == d * k + r
    ensures y % d == r
  {
    var k', r' := y / d, y % d;
    assert d * k' + r' == d * k + r;
    if k > k' {
      assert d * (k - k') == d * k - d * k';
      MulAtLeast(d, k - k');
    } else if k < k' {
      assert d * (k' - k) == d * k' - d * k;
      MulAtLeast(d, k' - k);
    }
  }

  lemma ModAdd(a: int, b: int, d: int)
    requires d > 0
    ensures ((a % d) + b) % d == (a + b) % d
  {
    var x := (a % d) + b;
    var q := a / d;
    assert a + b == d * q + x;
    ModUnique(x, x / d, x % d, d);
    assert d * q + x == d * (q + x / d) + x % d;
    ModUnique(a + b, q + x / d, x % d, d);
  }

  /** While running, `n` periods advance the time by `n * 500 * factor` ms
      modulo a day; while stopped, time stands still. */
  lemma {:induction false} RunAdvances(c: Clock, n: nat)
    requires Valid(c)
    ensures Run(c, n).time == if c.running then (c.time + n * (Interval * c.factor)) % MsPerDay else c.time
    decreases n
  {
    var step := Interval * c.factor;
    if n == 0 {
      ModUnique(c.time, 0, c.time, MsPerDay);
    } else if c.running {
      var c1 := TimerOut(c).clock;
      RunAdvances(c1, n - 1);
      assert c1.time == (c.time + step) % MsPerDay;
      ModAdd(c.time + step, (n - 1) * step, MsPerDay);
      assert c.time + step + (n - 1) * step == c.time + n * step;
    }
  }

  /** Setting the factor to 0 stops the timer: no time passes until the
      factor is set again. */
  lemma ZeroFactorFreezesTime(c: Clock, n: nat)
    requires Valid(c)
    ensures Run(SetTimeFactor(c, 0), n) == SetTimeFactor(c, 0)
  {
  }

  /** A factor above the maximum is clamped: 15 becomes 10, and the timer runs. */
  lemma LargeFactorClamped(c: Clock)
    ensures SetTimeFactor(c, 15).factor == 10 && SetTimeFactor(c, 15).running
  {
  }

  /** From 06:00:00 at factor 5 one tick moves the time to 06:00:02.5 and
      reports 2.5 elapsed seconds. */
  lemma FactorFiveTick()
    ensures TimerOut(Clock(21_600_000, 5, true)) == Tick(Clock(21_602_500, 5, true), 21_602_500, 2.5)
  {
  }

  /** Pausing and resuming keeps the time and factor. */
  lemma PauseResumeKeepsTime(c: Clock)
    ensures Pause(Pause(c, true), false) == c.(running := true)
  {
  }

  /** Ticks wrap at midnight: the last half-second of the day at factor 1
      moves to 00:00:00. */
  lemma TickWrapsAtMidnight()
    ensures TimerOut(Clock(MsPerDay - 500, 1, true)).clock.time == 0
  {
  }
}
