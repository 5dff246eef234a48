/** The sample-clock estimator of `collect_and_write`: the start of each record and the length of a record
    (its window) are estimated from the timestamps of the samples in its second half. */
module Estimator {
  import opened ErrorDynamics
  import opened HpTime

  const TICKS_PER_SECOND: real := HPTMODULUS as real

  /** Rounding as the code writes it. */
  function Round(x: real): int {
    Trunc(0.5 + x)
  }

  lemma RoundNear(x: real)
    requires x >= 0.0
    ensures -0.5 <= Round(x) as real - x <= 0.5
  {
  }

  /** A length in seconds, in ticks. */
  function Ticks(seconds: real): real {
    seconds * TICKS_PER_SECOND
  }

  /** `record_window_est` in seconds and `prev_start_hptime_est` in ticks, -1 before the first record. */
  datatype Clock = Clock(window: real, prev: int)

  /** Ticks from the start of a record to its sample `i`, by the present window. */
  function Offset(n: nat, window: real, i: nat): int
    requires n > 0
  {
    Round(window / n as real * TICKS_PER_SECOND * i as real)
  }

  /** What the reading loop has accumulated when it has read the timestamps `h`. */
  function StartSum(n: nat, window: real, h: seq<int>): int
    requires n > 0
  {
    if |h| <= n / 2 then 0
    else StartSum(n, window, h[..|h| - 1]) + h[|h| - 1] - Offset(n, window, |h| - 1)
  }

  /** Average over the second half of the record. */
  function Measured(n: nat, window: real, h: seq<int>): real
    requires n > 0
  {
    StartSum(n, window, h) as real / (n - n / 2) as real
  }

  /** The low-pass filter. */
  function Blend(a: real, window: real, current: real): real {
    window + a * (current - window)
  }

  /** The window that the measured start gives. */
  function Elapsed(measured: real, prev: int): real {
    (measured - prev as real) / TICKS_PER_SECOND
  }

  /** The window follows the measured one, and the start follows the window. */
  function Filter(a: real, clock: Clock, measured: real): Clock {
    var current := if clock.prev > 0 then Elapsed(measured, clock.prev) else clock.window;
    var window := Blend(a, clock.window, current);
    Clock(window, if clock.prev > 0 then clock.prev + Round(Ticks(window)) else Trunc(measured))
  }

  function NextClock(n: nat, a: real, clock: Clock, h: seq<int>): Clock
    requires n > 0
  {
    Filter(a, clock, Measured(n, clock.window, h))
  }

  // ---------- The measured start ----------

  /** Sum of the indices from the middle of the record up to `k`. */
  function IndexSum(n: nat, k: nat): nat {
    if k <= n / 2 then 0 else IndexSum(n, k - 1) + (k - 1)
  }

  /** The mean of `count` indices with this sum, as a fraction of `n`. */
  function MeanFraction(sum: real, count: real, n: real): real
    requires count > 0.0 && n > 0.0
  {
    MulPos(count, n);
    sum / (count * n)
  }

  /** The mean index of the samples used, as a fraction of the record. */
  function MeanIndex(n: nat): real
    requires n > 0
  {
    MeanFraction(IndexSum(n, n) as real, (n - n / 2) as real, n as real)
  }

  lemma {:induction false} IndexSumBound(n: nat, k: nat)
    requires k <= n
    ensures IndexSum(n, k) <= (if k <= n / 2 then 0 else k - n / 2) * n
  {
    if k > n / 2 {
      IndexSumBound(n, k - 1);
    }
  }

  lemma MeanIndexRange(n: nat)
    requires n > 0
    ensures 0.0 <= MeanIndex(n) <= 1.0
  {
    hide IndexSum;
    hide MeanFraction;
    IndexSumBound(n, n);
    FractionOfProduct(IndexSum(n, n), n - n / 2, n);
  }

  lemma FractionOfProduct(s: nat, k: nat, n: nat)
    requires k > 0 && n > 0 && s <= k * n
    ensures 0.0 <= MeanFraction(s as real, k as real, n as real) <= 1.0
  {
  }

  function Part(length: real, n: real, i: real): real
    requires n > 0.0
  {
    length / n * i
  }

  /** A share `i / n` of a length. */
  function Share(n: nat, length: real, i: nat): real
    requires n > 0
  {
    Part(length, n as real, i as real)
  }

  /** The timestamps are those of a clock that starts at `t` and ticks through the window `w`, each off by at
      most `jitter`; only the second half of the record matters. */
  ghost predicate Timestamps(n: nat, t: real, w: real, jitter: real, h: seq<int>)
    requires n > 0
  {
    && |h| == n
    && forall i :: n / 2 <= i < n ==> -jitter <= h[i] as real - (t + Share(n, w, i)) <= jitter
  }

  lemma ShareOfDifference(n: nat, u: real, w: real, i: nat)
    requires n > 0
    ensures Share(n, u, i) - Share(n, w, i) == Share(n, u - w, i)
  {
  }

  lemma ShareGrows(n: nat, w: real, s: nat, i: nat)
    requires n > 0
    ensures Share(n, w, s + i) == Share(n, w, s) + Share(n, w, i)
    ensures Share(n, w, 0) == 0.0
  {
  }

  lemma ShareNotNegative(n: nat, w: real, i: nat)
    requires n > 0 && w >= 0.0
    ensures Share(n, w, i) >= 0.0
  {
  }

  lemma NotNegativeProduct(x: real, y: real)
    requires x >= 0.0 && y >= 0.0
    ensures x * y >= 0.0
  {
  }

  /** A sum of `count` numbers, each within `off` of `t` plus its part of `share`. */
  ghost predicate Near(sum: real, count: real, t: real, share: real, off: real) {
    -(count * off) <= sum - (count * t + share) <= count * off
  }

  lemma NearStep(sum: real, count: real, t: real, share: real, off: real, x: real, part: real)
    requires Near(sum, count, t, share, off) && -off <= x - (t + part) <= off
    ensures Near(sum + x, count + 1.0, t, share + part, off)
  {
  }

  lemma {:induction false} SumNear(n: nat, window: real, h: seq<int>, t: real, w: real, jitter: real, k: nat)
    requires n > 0 && n / 2 <= k <= n && Timestamps(n, t, w, jitter, h) && window >= 0.0
    ensures Near(StartSum(n, window, h[..k]) as real, (k - n / 2) as real, t,
                 Share(n, w - Ticks(window), IndexSum(n, k)), jitter + 0.5)
  {
    hide Share;
    hide Timestamps;
    hide Offset;
    var d := w - Ticks(window);
    HalfLength(n, t, w, jitter, h);
    if k == n / 2 {
      ShareGrows(n, d, 0, 0);
      NearNothing(t, jitter + 0.5);
    } else {
      var i := k - 1;
      SumNear(n, window, h, t, w, jitter, i);
      assert h[..k][..i] == h[..i];
      SampleNear(n, window, h, t, w, jitter, i);
      ShareGrows(n, d, IndexSum(n, i), i);
      hide Near;
      NearStep(StartSum(n, window, h[..i]) as real, (i - n / 2) as real, t, Share(n, d, IndexSum(n, i)), jitter + 0.5,
               (h[i] - Offset(n, window, i)) as real, Share(n, d, i));
    }
  }

  lemma NearNothing(t: real, off: real)
    ensures Near(0.0, 0.0, t, 0.0, off)
  {
  }

  lemma HalfLength(n: nat, t: real, w: real, jitter: real, h: seq<int>)
    requires n > 0 && Timestamps(n, t, w, jitter, h)
    ensures |h| == n
  {
  }

  lemma SampleNear(n: nat, window: real, h: seq<int>, t: real, w: real, jitter: real, i: nat)
    requires n > 0 && n / 2 <= i < n && Timestamps(n, t, w, jitter, h) && window >= 0.0
    ensures var off := (h[i] - Offset(n, window, i)) as real - (t + Share(n, w - Ticks(window), i));
            -(jitter + 0.5) <= off <= jitter + 0.5
  {
    hide Share;
    hide Offset;
    hide Round;
    OffsetIsShare(n, window, i);
    ShareNotNegative(n, Ticks(window), i);
    RoundNear(Share(n, Ticks(window), i));
    ShareOfDifference(n, w, Ticks(window), i);
  }

  lemma OffsetIsShare(n: nat, window: real, i: nat)
    requires n > 0
    ensures Offset(n, window, i) == Round(Share(n, Ticks(window), i))
  {
    ScaledQuotient(window, n as real, TICKS_PER_SECOND);
  }

  lemma ScaledQuotient(x: real, m: real, c: real)
    requires m > 0.0
    ensures x / m * c == x * c / m
  {
  }

  /** The measured start is the true start plus the window's error in the mean index, up to the jitter and
      half a tick. */
  lemma MeasuredNear(n: nat, window: real, h: seq<int>, t: real, w: real, jitter: real)
    requires n > 0 && Timestamps(n, t, w, jitter, h) && window >= 0.0
    ensures var j := Measured(n, window, h) - (t + MeanIndex(n) * (w - Ticks(window)));
            -(jitter + 0.5) <= j <= jitter + 0.5
  {
    hide Share;
    hide StartSum;
    hide MeanIndex;
    hide IndexSum;
    hide Near;
    SumNear(n, window, h, t, w, jitter, n);
    HalfLength(n, t, w, jitter, h);
    assert h[..n] == h;
    MeanShare(n, w - Ticks(window));
    Average(StartSum(n, window, h) as real, (n - n / 2) as real, t, MeanIndex(n) * (w - Ticks(window)),
            Share(n, w - Ticks(window), IndexSum(n, n)), jitter + 0.5);
  }

  lemma MeanShare(n: nat, d: real)
    requires n > 0
    ensures Share(n, d, IndexSum(n, n)) == (n - n / 2) as real * (MeanIndex(n) * d)
  {
  }

  lemma Average(sum: real, count: real, t: real, c: real, share: real, off: real)
    requires count > 0.0 && share == count * c && Near(sum, count, t, share, off)
    ensures -off <= sum / count - (t + c) <= off
  {
  }

  // ---------- One record as a step of the error ----------

  /** The errors of a clock against a true window `w` and a true record start `t`, in ticks. */
  function Errors(clock: Clock, w: real, t: real): Err {
    Err(w - Ticks(clock.window), t - clock.prev as real)
  }

  /** How far the measured start is from where the errors alone would put it. */
  function TimingError(n: nat, clock: Clock, h: seq<int>, w: real, t: real): real
    requires n > 0
  {
    Measured(n, clock.window, h) - (t + MeanIndex(n) * (w - Ticks(clock.window)))
  }

  lemma TimingSmall(n: nat, clock: Clock, h: seq<int>, w: real, t: real, jitter: real)
    requires n > 0 && Timestamps(n, t, w, jitter, h) && clock.window >= 0.0
    ensures -(jitter + 0.5) <= TimingError(n, clock, h, w, t) <= jitter + 0.5
  {
    hide Measured;
    hide MeanIndex;
    hide Timestamps;
    hide Ticks;
    MeasuredNear(n, clock.window, h, t, w, jitter);
  }

  /** What rounding the window to ticks adds to it. */
  function RoundingError(window: real): real {
    Round(Ticks(window)) as real - Ticks(window)
  }

  lemma FilterInTicks(a: real, window: real, measured: real, prev: int)
    ensures Ticks(Blend(a, window, Elapsed(measured, prev))) ==
            Ticks(window) + a * (measured - prev as real - Ticks(window))
  {
  }

  /** After the first, each record moves the errors exactly as the linear system does, disturbed by the error
      of the measured start and by the rounding of the window. */
  lemma RecordIsStep(n: nat, a: real, clock: Clock, h: seq<int>, w: real, t: real)
    requires n > 0 && clock.prev > 0
    ensures var next := NextClock(n, a, clock, h);
            Errors(next, w, t + w) ==
            Step(Gain(a, MeanIndex(n)), Errors(clock, w, t), TimingError(n, clock, h, w, t + w),
                 RoundingError(next.window))
  {
    hide Measured;
    hide MeanIndex;
    hide Round;
    hide Step;
    hide Ticks;
    hide Blend;
    hide Elapsed;
    var m, c, p := Measured(n, clock.window, h), MeanIndex(n), clock.prev as real;
    var next := NextClock(n, a, clock, h);
    var rounded := Round(Ticks(next.window));
    FilterInTicks(a, clock.window, m, clock.prev);
    assert next.prev as real == p + rounded as real;
    StepAlgebra(a, c, Ticks(clock.window), p, m, w, t, Ticks(next.window), rounded as real, Errors(clock, w, t),
                TimingError(n, clock, h, w, t + w), RoundingError(next.window), Errors(next, w, t + w));
  }

  lemma StepAlgebra(a: real, c: real, ticks: real, p: real, m: real, w: real, t: real, ticks': real, rounded: real,
                    x: Err, j: real, r: real, y: Err)
    requires ticks' == ticks + a * (m - p - ticks)
    requires x == Err(w - ticks, t - p) && j == m - (t + w + c * (w - ticks)) && r == rounded - ticks'
    requires y == Err(w - ticks', t + w - (p + rounded))
    ensures y == Step(Gain(a, c), x, j, r)
  {
  }

  lemma FirstIs(n: nat, a: real, window: real, h: seq<int>)
    requires n > 0
    ensures NextClock(n, a, Clock(window, -1), h) == Clock(window, Trunc(Measured(n, window, h)))
  {
  }

  /** The first record leaves the window's error as it is and puts its mean part into the start, up to the jitter
      and the two roundings. */
  lemma FirstRecord(n: nat, a: real, window: real, h: seq<int>, t: real, w: real, jitter: real)
    requires n > 0 && window >= 0.0 && Timestamps(n, t, w, jitter, h)
    ensures var x := Errors(NextClock(n, a, Clock(window, -1), h), w, t);
            x.d == w - Ticks(window) && -(jitter + 1.5) <= x.e + MeanIndex(n) * x.d <= jitter + 1.5
  {
    hide NextClock;
    hide MeanIndex;
    hide Measured;
    hide Timestamps;
    FirstIs(n, a, window, h);
    MeasuredNear(n, window, h, t, w, jitter);
    TruncNear(Measured(n, window, h));
  }

  lemma TruncNear(x: real)
    ensures -1.0 <= Trunc(x) as real - x <= 1.0
  {
  }

  // ---------- Runs of records ----------

  lemma WithinRoot(d: real, w: real)
    requires w >= 0.0 && d * d <= w * w
    ensures -w <= d <= w
  {
    if d > w {
      MulLe(d, w, d);
      MulLess(w, d);
    } else if -d > w {
      MulLess(w, -d);
      NegateBoth(d, d);
    }
  }

  lemma MulLess(x: real, y: real)
    requires 0.0 <= x < y
    ensures x * x < y * y
  {
    MulPos(y - x, y + x);
    DifferenceOfSquares(x, y);
  }

  lemma DifferenceOfSquares(x: real, y: real)
    ensures (y - x) * (y + x) == y * y - x * x
  {
  }

  lemma BelowRoot(e: real, t: real)
    requires t >= 0.0 && e * e < t * t
    ensures e < t
  {
  }

  /** The level is so low that errors below it are smaller than the window and than the time `t`. */
  ghost predicate Roomy(g: Gain, level: real, w: real, t: real) {
    && w >= 0.0 && t >= 0.0
    && 4.0 * level <= g.D() * (w * w)
    && 4.0 * g.Q() * level < g.a * g.D() * (t * t)
  }

  lemma RoomyBounds(g: Gain, level: real, w: real, t: real, x: Err)
    requires g.Stable() && Roomy(g, level, w, t) && V(g, x) <= level
    ensures -w <= x.d <= w && x.e < t
  {
    hide Gain.Q;
    hide Gain.D;
    hide V;
    EnergyBounds(g, x);
    StableFacts(g);
    RootBounds(g.a, g.Q(), g.D(), V(g, x), level, w, t, x.d, x.e);
  }

  lemma RootBounds(a: real, q: real, k: real, v: real, level: real, w: real, t: real, d: real, e: real)
    requires a > 0.0 && q > 0.0 && k > 0.0 && v <= level && w >= 0.0 && t >= 0.0
    requires k * (d * d) <= 4.0 * v && a * k * (e * e) <= 4.0 * q * v
    requires 4.0 * level <= k * (w * w) && 4.0 * q * level < a * k * (t * t)
    ensures -w <= d <= w && e < t
  {
    var dd, ww, ee, tt := d * d, w * w, e * e, t * t;
    MulLe(4.0 * q, v, level);
    SquareBounds(a, k, dd, ww, ee, tt);
    WithinRoot(d, w);
    BelowRoot(e, t);
  }

  lemma SquareBounds(a: real, k: real, dd: real, ww: real, ee: real, tt: real)
    requires a > 0.0 && k > 0.0 && k * dd <= k * ww && a * k * ee < a * k * tt
    ensures dd <= ww && ee < tt
  {
  }

  lemma SquareExceeds(k: real, x: real, r: real)
    requires k > 0.0 && r >= 1.0 && x / k < r
    ensures x < k * (r * r)
  {
    assert x / k * k == x;
    MulLe(r, 1.0, r);
    MulPos(k, r - x / k);
    MulLe(k, r, r * r);
  }

  /** Every level is low enough for windows and times from some size on. */
  lemma RoomExists(g: Gain, level: real) returns (w0: real, t0: real)
    requires g.Stable()
    ensures forall w, t :: w >= w0 && t >= t0 ==> Roomy(g, level, w, t)
  {
    hide Gain.Q;
    hide Gain.D;
    MulPos(g.a, g.D());
    w0 := AtLeastOne(4.0 * level / g.D());
    t0 := AtLeastOne(4.0 * g.Q() * level / (g.a * g.D()));
    forall w, t | w >= w0 && t >= t0
      ensures Roomy(g, level, w, t)
    {
      SquareExceeds(g.D(), 4.0 * level, w);
      SquareExceeds(g.a * g.D(), 4.0 * g.Q() * level, t);
    }
  }

  lemma AtLeastOne(x: real) returns (y: real)
    ensures y >= 1.0 && y > x
  {
    y := if x >= 1.0 then x + 1.0 else 1.0;
  }

  /** The program's estimator has a level for every jitter and every first error, for windows and times from
      some size on. */
  lemma SomeLevelFits(n: nat, rate: nat, jitter: real, energy: real) returns (level: real, w0: real, t0: real)
    requires n > 0 && rate > 0
    ensures energy <= level
    ensures var g := Gain(Decay(rate), MeanIndex(n));
            && g.Stable() && Level(g, jitter + 0.5, level)
            && forall w, t :: w >= w0 && t >= t0 ==> Roomy(g, level, w, t)
  {
    hide Gain.Stable;
    hide Level;
    hide Roomy;
    hide MeanIndex;
    hide Decay;
    ProgramStable(n, rate);
    var g := Gain(Decay(rate), MeanIndex(n));
    var least := LevelExists(g, jitter + 0.5);
    level := if least <= energy then energy else least;
    w0, t0 := RoomExists(g, level);
  }

  /** A clock that has seen a record and whose errors have at most this energy. */
  ghost predicate Tracks(g: Gain, level: real, clock: Clock, w: real, t: real) {
    clock.prev > 0 && clock.window >= 0.0 && V(g, Errors(clock, w, t)) <= level
  }

  lemma ErrorsInRoom(g: Gain, level: real, clock: Clock, w: real, t: real, t0: real)
    requires g.Stable() && Roomy(g, level, w, t0) && t0 <= t && V(g, Errors(clock, w, t)) <= level
    ensures clock.window >= 0.0 && clock.prev > 0
  {
    hide V;
    hide Roomy;
    RoomyBounds(g, level, w, t0, Errors(clock, w, t));
    WindowNotNegative(clock.window);
  }

  lemma WindowNotNegative(window: real)
    ensures Ticks(window) >= 0.0 <==> window >= 0.0
  {
  }

  /** The window is right before its rounding is: errors of the next record without rounding. */
  lemma NextWindow(n: nat, a: real, clock: Clock, h: seq<int>, w: real, t: real)
    requires n > 0 && clock.prev > 0
    ensures var next := NextClock(n, a, clock, h);
            w - Ticks(next.window) ==
            Step(Gain(a, MeanIndex(n)), Errors(clock, w, t), TimingError(n, clock, h, w, t + w), 0.0).d
  {
    hide MeanIndex;
    hide Measured;
    hide TimingError;
    RecordIsStep(n, a, clock, h, w, t);
  }

  lemma RecordTracks(n: nat, a: real, clock: Clock, h: seq<int>, w: real, t: real, jitter: real, level: real, t0: real)
    requires n > 0 && Gain(a, MeanIndex(n)).Stable() && jitter >= 0.0
    requires Level(Gain(a, MeanIndex(n)), jitter + 0.5, level) && Roomy(Gain(a, MeanIndex(n)), level, w, t0)
    requires t0 <= t && Tracks(Gain(a, MeanIndex(n)), level, clock, w, t)
    requires Timestamps(n, t + w, w, jitter, h)
    ensures Tracks(Gain(a, MeanIndex(n)), level, NextClock(n, a, clock, h), w, t + w)
  {
    hide MeanIndex;
    hide Gain.Stable;
    hide Level;
    hide Roomy;
    hide V;
    hide Step;
    hide NextClock;
    hide Timestamps;
    hide RoundingError;
    hide TimingError;
    hide Errors;
    var g, x, j := Gain(a, MeanIndex(n)), Errors(clock, w, t), TimingError(n, clock, h, w, t + w);
    var next := NextClock(n, a, clock, h);
    TimingSmall(n, clock, h, w, t + w, jitter);
    LevelKept(g, jitter + 0.5, level, x, j, 0.0);
    WindowFromStep(n, a, clock, h, w, t, level, t0);
    RoundingSmall(next.window);
    LevelKept(g, jitter + 0.5, level, x, j, RoundingError(next.window));
    RecordIsStep(n, a, clock, h, w, t);
    ErrorsInRoom(g, level, next, w, t + w, t0) by {
      RoomyWindow(g, level, w, t0);
    }
  }

  lemma RoomyWindow(g: Gain, level: real, w: real, t0: real)
    requires Roomy(g, level, w, t0)
    ensures w >= 0.0
  {
  }

  lemma WindowFromStep(n: nat, a: real, clock: Clock, h: seq<int>, w: real, t: real, level: real, t0: real)
    requires n > 0 && clock.prev > 0
    requires Gain(a, MeanIndex(n)).Stable() && Roomy(Gain(a, MeanIndex(n)), level, w, t0)
    requires V(Gain(a, MeanIndex(n)), Step(Gain(a, MeanIndex(n)), Errors(clock, w, t),
                                           TimingError(n, clock, h, w, t + w), 0.0)) <= level
    ensures NextClock(n, a, clock, h).window >= 0.0
  {
    hide MeanIndex;
    hide V;
    hide Step;
    hide Roomy;
    hide NextClock;
    hide Errors;
    hide TimingError;
    NextWindow(n, a, clock, h, w, t);
    RoomyBounds(Gain(a, MeanIndex(n)), level, w, t0,
                Step(Gain(a, MeanIndex(n)), Errors(clock, w, t), TimingError(n, clock, h, w, t + w), 0.0));
    WindowNotNegative(NextClock(n, a, clock, h).window);
  }

  lemma RoundingSmall(window: real)
    requires window >= 0.0
    ensures -0.5 <= RoundingError(window) <= 0.5
  {
  }

  /** The clock after the records whose timestamps are `hs`. */
  function Clocks(n: nat, a: real, clock: Clock, hs: seq<seq<int>>): Clock
    requires n > 0
  {
    if hs == [] then clock
    else NextClock(n, a, Clocks(n, a, clock, hs[..|hs| - 1]), hs[|hs| - 1])
  }

  /** The true start of record `k`. */
  function TrueStart(t0: real, w: real, k: nat): real {
    t0 + k as real * w
  }

  /** Timestamps of records that follow one another without a gap. */
  ghost predicate Stream(n: nat, t0: real, w: real, jitter: real, hs: seq<seq<int>>)
    requires n > 0
  {
    forall k :: 0 <= k < |hs| ==> Timestamps(n, TrueStart(t0, w, k), w, jitter, hs[k])
  }

  lemma TrueStartNext(t0: real, w: real, k: nat)
    requires w >= 0.0
    ensures TrueStart(t0, w, k + 1) == TrueStart(t0, w, k) + w
    ensures t0 <= TrueStart(t0, w, k)
  {
  }

  /** The first record's clock, from the window the program assumes at first. */
  function FirstClock(n: nat, window: real, h: seq<int>): Clock
    requires n > 0
  {
    Clock(window, Trunc(Measured(n, window, h)))
  }

  /** On runs of any length, with every timestamp off by at most `jitter` and every window rounded to ticks,
      the energy of the errors never exceeds a level that depends on the jitter and the gains only: neither
      the jitter nor the rounding of the starts adds up to a drift. */
  lemma {:induction false} StartsStayTrue(n: nat, a: real, window: real, hs: seq<seq<int>>, t0: real, w: real,
                                          jitter: real, level: real)
    requires n > 0 && Gain(a, MeanIndex(n)).Stable() && jitter >= 0.0
    requires Level(Gain(a, MeanIndex(n)), jitter + 0.5, level) && Roomy(Gain(a, MeanIndex(n)), level, w, t0)
    requires hs != [] && Stream(n, t0, w, jitter, hs)
    requires V(Gain(a, MeanIndex(n)), Errors(FirstClock(n, window, hs[0]), w, t0)) <= level
    ensures Tracks(Gain(a, MeanIndex(n)), level, Clocks(n, a, Clock(window, -1), hs), w, TrueStart(t0, w, |hs| - 1))
    decreases |hs|
  {
    hide MeanIndex;
    hide Gain.Stable;
    hide Level;
    hide Roomy;
    hide V;
    hide Timestamps;
    hide Tracks;
    hide TrueStart;
    hide Measured;
    var k, first := |hs| - 1, Clock(window, -1);
    RoomyWindow(Gain(a, MeanIndex(n)), level, w, t0);
    if k == 0 {
      assert hs[..0] == [];
      FirstIs(n, a, window, hs[0]);
      FirstTracks(n, a, window, hs[0], w, t0, level);
    } else {
      StartsStayTrue(n, a, window, hs[..k], t0, w, jitter, level);
      TrueStartNext(t0, w, k - 1);
      hide NextClock;
      RecordTracks(n, a, Clocks(n, a, first, hs[..k]), hs[k], w, TrueStart(t0, w, k - 1), jitter, level, t0);
    }
  }

  lemma FirstTracks(n: nat, a: real, window: real, h: seq<int>, w: real, t0: real, level: real)
    requires n > 0 && Gain(a, MeanIndex(n)).Stable() && Roomy(Gain(a, MeanIndex(n)), level, w, t0)
    requires V(Gain(a, MeanIndex(n)), Errors(FirstClock(n, window, h), w, t0)) <= level
    ensures Tracks(Gain(a, MeanIndex(n)), level, FirstClock(n, window, h), w, TrueStart(t0, w, 0))
  {
    hide MeanIndex;
    hide V;
    hide Roomy;
    hide FirstClock;
    ErrorsInRoom(Gain(a, MeanIndex(n)), level, FirstClock(n, window, h), w, t0, t0);
    assert TrueStart(t0, w, 0) == t0;
  }

  /** The run of the estimator's errors is a run of the linear system, disturbed within the bounds. */
  lemma {:induction false} RunOfErrors(n: nat, a: real, window: real, hs: seq<seq<int>>, t0: real, w: real,
                                       jitter: real, level: real) returns (ws: seq<Disturbance>)
    requires n > 0 && Gain(a, MeanIndex(n)).Stable() && jitter >= 0.0
    requires Level(Gain(a, MeanIndex(n)), jitter + 0.5, level) && Roomy(Gain(a, MeanIndex(n)), level, w, t0)
    requires hs != [] && Stream(n, t0, w, jitter, hs)
    requires V(Gain(a, MeanIndex(n)), Errors(FirstClock(n, window, hs[0]), w, t0)) <= level
    ensures |ws| == |hs| - 1 && forall d <- ws :: Within(jitter + 0.5, d)
    ensures Errors(Clocks(n, a, Clock(window, -1), hs), w, TrueStart(t0, w, |hs| - 1)) ==
            RunErr(Gain(a, MeanIndex(n)), Errors(FirstClock(n, window, hs[0]), w, t0), ws)
    decreases |hs|
  {
    hide MeanIndex;
    hide Gain.Stable;
    hide Level;
    hide Roomy;
    hide V;
    hide Timestamps;
    hide Tracks;
    hide TrueStart;
    hide NextClock;
    hide Measured;
    hide Errors;
    hide Step;
    hide Within;
    hide FirstClock;
    var k, first := |hs| - 1, Clock(window, -1);
    if k == 0 {
      assert hs[..0] == [];
      FirstOfRun(n, a, window, hs[0], t0, w);
      ws := [];
    } else {
      var before := RunOfErrors(n, a, window, hs[..k], t0, w, jitter, level);
      var clock, t := Clocks(n, a, first, hs[..k]), TrueStart(t0, w, k - 1);
      var next := NextClock(n, a, clock, hs[k]);
      StartsStayTrue(n, a, window, hs[..k], t0, w, jitter, level);
      StartsStayTrue(n, a, window, hs, t0, w, jitter, level);
      RoomyWindow(Gain(a, MeanIndex(n)), level, w, t0);
      TrueStartNext(t0, w, k - 1);
      var d := RecordDisturbance(n, a, clock, hs[k], w, t, jitter, level);
      ws := before + [d];
      assert ws[..k - 1] == before;
    }
  }

  lemma FirstOfRun(n: nat, a: real, window: real, h: seq<int>, t0: real, w: real)
    requires n > 0
    ensures Errors(NextClock(n, a, Clock(window, -1), h), w, TrueStart(t0, w, 0)) ==
            Errors(FirstClock(n, window, h), w, t0)
  {
    hide Measured;
    FirstIs(n, a, window, h);
    assert TrueStart(t0, w, 0) == t0;
  }

  lemma RecordDisturbance(n: nat, a: real, clock: Clock, h: seq<int>, w: real, t: real, jitter: real, level: real)
    returns (d: Disturbance)
    requires n > 0 && Timestamps(n, t + w, w, jitter, h)
    requires Tracks(Gain(a, MeanIndex(n)), level, clock, w, t)
    requires Tracks(Gain(a, MeanIndex(n)), level, NextClock(n, a, clock, h), w, t + w)
    ensures Within(jitter + 0.5, d)
    ensures Errors(NextClock(n, a, clock, h), w, t + w) ==
            Step(Gain(a, MeanIndex(n)), Errors(clock, w, t), d.j, d.r)
  {
    hide MeanIndex;
    hide V;
    hide Timestamps;
    hide NextClock;
    hide Measured;
    hide Errors;
    hide Step;
    hide RoundingError;
    hide TimingError;
    TimingSmall(n, clock, h, w, t + w, jitter);
    RoundingSmall(NextClock(n, a, clock, h).window);
    RecordIsStep(n, a, clock, h, w, t);
    d := Disturbance(TimingError(n, clock, h, w, t + w), RoundingError(NextClock(n, a, clock, h).window));
  }

  /** The conditions on a run's timestamps and its first record. */
  ghost predicate RunFrom(n: nat, a: real, window: real, hs: seq<seq<int>>, t0: real, w: real, jitter: real, x: Err)
    requires n > 0
  {
    hs != [] && Stream(n, t0, w, jitter, hs) && Errors(FirstClock(n, window, hs[0]), w, t0) == x
  }

  /** Whatever the first error, after enough records the energy is within any margin of a level that jitter and
      gains alone determine; `high` is a level that holds the first error too. */
  lemma StartsSettle(n: nat, a: real, window: real, t0: real, w: real, jitter: real, level: real, high: real,
                     x: Err, margin: real) returns (from: nat)
    requires n > 0 && Gain(a, MeanIndex(n)).Stable() && jitter >= 0.0 && margin > 0.0
    requires Level(Gain(a, MeanIndex(n)), jitter + 0.5, level)
    requires Level(Gain(a, MeanIndex(n)), jitter + 0.5, high) && Roomy(Gain(a, MeanIndex(n)), high, w, t0)
    requires V(Gain(a, MeanIndex(n)), x) <= high
    ensures forall hs | RunFrom(n, a, window, hs, t0, w, jitter, x) && |hs| > from ::
              V(Gain(a, MeanIndex(n)), Errors(Clocks(n, a, Clock(window, -1), hs), w, TrueStart(t0, w, |hs| - 1)))
                <= level + margin
  {
    hide MeanIndex;
    hide Gain.Stable;
    hide Level;
    hide Roomy;
    hide V;
    hide Errors;
    hide Clocks;
    hide FirstClock;
    hide TrueStart;
    hide Stream;
    hide Within;
    hide RunErr;
    var g := Gain(a, MeanIndex(n));
    from := RunsSettle(g, jitter + 0.5, level, x, margin);
    forall hs | RunFrom(n, a, window, hs, t0, w, jitter, x) && |hs| > from
      ensures V(g, Errors(Clocks(n, a, Clock(window, -1), hs), w, TrueStart(t0, w, |hs| - 1))) <= level + margin
    {
      var ws := RunOfErrors(n, a, window, hs, t0, w, jitter, high);
      assert V(g, RunErr(g, x, ws)) <= level + margin;
    }
  }

  /** What it means that the energy stays below the level: bounds on the window's and the start's error. */
  lemma TracksBounds(g: Gain, level: real, clock: Clock, w: real, t: real)
    requires g.Stable() && Tracks(g, level, clock, w, t)
    ensures Bounds(g, level, Errors(clock, w, t))
  {
    hide Gain.D;
    hide Gain.Q;
    hide V;
    hide Errors;
    var x := Errors(clock, w, t);
    EnergyBounds(g, x);
    StableFacts(g);
    MulLe(4.0 * g.Q(), V(g, x), level);
  }

  /** The program's decay constant: a minute of samples, at the nominal rate. */
  function Decay(rate: nat): real
    requires rate > 0
  {
    1.0 / (1.0 * 60.0 * rate as real)
  }

  /** With it the estimator is stable, whatever the length of a record. */
  lemma ProgramStable(n: nat, rate: nat)
    requires n > 0 && rate > 0
    ensures Gain(Decay(rate), MeanIndex(n)).Stable()
    ensures 0.0 < Decay(rate) < 1.0 && Decay(rate) * (60.0 * rate as real) == 1.0
  {
    hide MeanIndex;
    MeanIndexRange(n);
    var a, x := Decay(rate), rate as real;
    assert a * (60.0 * x) == 1.0;
    Cancel(60.0 * x, 0.0, a);
    Cancel(60.0 * x, a, 1.0 / 60.0);
    var g := Gain(a, MeanIndex(n));
    DecayBound(g);
    var k := (g.c + 2.0) * (g.c + 2.0);
    assert k <= 9.0 by {
      AbsBoth(g.c + 2.0, g.c + 2.0, 3.0, 3.0);
    }
    MulLe(a, k, 9.0);
  }

  // ---------- Bounds on the window and the starts ----------

  /** Every window measured during the run lies between `lo` and `hi`. */
  ghost predicate MeasuredWithin(n: nat, a: real, clock: Clock, hs: seq<seq<int>>, lo: real, hi: real)
    requires n > 0
  {
    forall k :: 0 <= k < |hs| ==> WindowWithin(n, Clocks(n, a, clock, hs[..k]), hs[k], lo, hi)
  }

  ghost predicate WindowWithin(n: nat, clock: Clock, h: seq<int>, lo: real, hi: real)
    requires n > 0
  {
    clock.prev > 0 ==> lo <= Elapsed(Measured(n, clock.window, h), clock.prev) <= hi
  }

  lemma ScaledDown(a: real, x: real, y: real)
    requires 0.0 <= a <= 1.0 && x <= y && 0.0 <= y
    ensures a * x <= y
  {
    MulLe(a, x, y);
    NotNegativeProduct(1.0 - a, y);
    assert (1.0 - a) * y == y - a * y;
  }

  lemma BlendBetween(a: real, window: real, current: real, lo: real, hi: real)
    requires 0.0 <= a <= 1.0 && lo <= window <= hi && lo <= current <= hi
    ensures lo <= Blend(a, window, current) <= hi
  {
    ScaledDown(a, current - window, hi - window);
    ScaledDown(a, window - current, window - lo);
    assert a * (window - current) == -(a * (current - window));
  }

  /** The start after `clock` follows it by a step between the bounds, up to half a tick. */
  ghost predicate StepWithin(clock: Clock, next: Clock, lo: real, hi: real) {
    clock.prev > 0 ==>
      && Ticks(lo) - 0.5 <= (next.prev - clock.prev) as real <= Ticks(hi) + 0.5
      && (Ticks(lo) >= 1.0 ==> next.prev > clock.prev)
  }

  /** A record keeps the window between the bounds and steps within them; with windows of a tick or more
      starts strictly increase. */
  lemma RecordBetween(n: nat, a: real, clock: Clock, h: seq<int>, lo: real, hi: real)
    requires n > 0 && 0.0 <= a <= 1.0 && 0.0 <= lo <= clock.window <= hi && WindowWithin(n, clock, h, lo, hi)
    ensures var next := NextClock(n, a, clock, h);
            lo <= next.window <= hi && StepWithin(clock, next, lo, hi)
  {
    hide Measured;
    hide Blend;
    hide Elapsed;
    var current := if clock.prev > 0 then Elapsed(Measured(n, clock.window, h), clock.prev) else clock.window;
    BlendBetween(a, clock.window, current, lo, hi);
    RoundNear(Ticks(Blend(a, clock.window, current)));
  }

  lemma {:induction false} WindowStays(n: nat, a: real, clock: Clock, hs: seq<seq<int>>, lo: real, hi: real)
    requires n > 0 && 0.0 <= a <= 1.0 && 0.0 <= lo <= clock.window <= hi
    requires MeasuredWithin(n, a, clock, hs, lo, hi)
    ensures lo <= Clocks(n, a, clock, hs).window <= hi
    decreases |hs|
  {
    hide NextClock;
    hide WindowWithin;
    hide StepWithin;
    hide MeasuredWithin;
    if hs != [] {
      var m := |hs| - 1;
      MeasuredFront(n, a, clock, hs, lo, hi, m);
      WindowStays(n, a, clock, hs[..m], lo, hi);
      RecordBetween(n, a, Clocks(n, a, clock, hs[..m]), hs[m], lo, hi);
    }
  }

  lemma ClocksNext(n: nat, a: real, clock: Clock, hs: seq<seq<int>>, k: nat)
    requires n > 0 && k < |hs|
    ensures Clocks(n, a, clock, hs[..k + 1]) == NextClock(n, a, Clocks(n, a, clock, hs[..k]), hs[k])
  {
    hide NextClock;
    assert hs[..k + 1][..k] == hs[..k];
  }

  /** On every run whose first window and measured windows lie between `lo` and `hi`, so do all windows; the
      starts of the records follow one another in steps between the bounds, up to half a tick, and strictly
      increase when `lo` is a tick or more. */
  lemma StartsIncrease(n: nat, a: real, clock: Clock, hs: seq<seq<int>>, lo: real, hi: real)
    requires n > 0 && 0.0 <= a <= 1.0 && 0.0 <= lo <= clock.window <= hi
    requires MeasuredWithin(n, a, clock, hs, lo, hi)
    ensures lo <= Clocks(n, a, clock, hs).window <= hi
    ensures forall k :: 0 <= k < |hs| ==>
              StepWithin(Clocks(n, a, clock, hs[..k]), Clocks(n, a, clock, hs[..k + 1]), lo, hi)
  {
    hide Clocks;
    hide NextClock;
    hide WindowWithin;
    hide StepWithin;
    hide MeasuredWithin;
    WindowStays(n, a, clock, hs, lo, hi);
    forall k | 0 <= k < |hs|
      ensures StepWithin(Clocks(n, a, clock, hs[..k]), Clocks(n, a, clock, hs[..k + 1]), lo, hi)
    {
      MeasuredFront(n, a, clock, hs, lo, hi, k);
      WindowStays(n, a, clock, hs[..k], lo, hi);
      RecordBetween(n, a, Clocks(n, a, clock, hs[..k]), hs[k], lo, hi);
      ClocksNext(n, a, clock, hs, k);
    }
  }

  lemma MeasuredFront(n: nat, a: real, clock: Clock, hs: seq<seq<int>>, lo: real, hi: real, m: nat)
    requires n > 0 && m < |hs| && MeasuredWithin(n, a, clock, hs, lo, hi)
    ensures MeasuredWithin(n, a, clock, hs[..m], lo, hi) && WindowWithin(n, Clocks(n, a, clock, hs[..m]), hs[m], lo, hi)
  {
    hide Clocks;
    hide WindowWithin;
    forall k | 0 <= k < m
      ensures WindowWithin(n, Clocks(n, a, clock, hs[..m][..k]), hs[..m][k], lo, hi)
    {
      assert hs[..m][..k] == hs[..k];
    }
  }
}
