/** The sample-clock estimator with an ideal clock and real arithmetic: the filter of `collect_and_write` without
    its two roundings, fed with timestamps that are off by nothing. */
module IdealClock {
  import opened ErrorDynamics
  import opened Estimator

  datatype RealClock = RealClock(window: real, prev: real)

  /** What the reading loop accumulates, offsets not rounded. */
  function ExactSum(n: nat, window: real, h: seq<real>): real
    requires n > 0
  {
    if |h| <= n / 2 then 0.0
    else ExactSum(n, window, h[..|h| - 1]) + (h[|h| - 1] - Share(n, Ticks(window), |h| - 1))
  }

  function ExactMeasured(n: nat, window: real, h: seq<real>): real
    requires n > 0
  {
    ExactSum(n, window, h) / (n - n / 2) as real
  }

  function ExactElapsed(measured: real, prev: real): real {
    (measured - prev) / TICKS_PER_SECOND
  }

  function ExactNext(n: nat, a: real, clock: RealClock, h: seq<real>): RealClock
    requires n > 0
  {
    var measured := ExactMeasured(n, clock.window, h);
    var current := if clock.prev > 0.0 then ExactElapsed(measured, clock.prev) else clock.window;
    var window := Blend(a, clock.window, current);
    RealClock(window, if clock.prev > 0.0 then clock.prev + Ticks(window) else measured)
  }

  /** Timestamps of a record that starts at `t` and takes `w`. */
  function IdealTimes(n: nat, t: real, w: real): (h: seq<real>)
    requires n > 0
    ensures |h| == n
  {
    seq(n, i requires 0 <= i < n => t + Share(n, w, i))
  }

  function RealErrors(clock: RealClock, w: real, t: real): Err {
    Err(w - Ticks(clock.window), t - clock.prev)
  }

  // ---------- How far the code's rounding goes ----------

  function AsReals(h: seq<int>): (r: seq<real>)
    ensures |r| == |h|
  {
    seq(|h|, i requires 0 <= i < |h| => h[i] as real)
  }

  function Used(n: nat, k: nat): real
    requires n > 0
  {
    if k <= n / 2 then 0.0 else (k - n / 2) as real
  }

  lemma {:induction false} SumRounding(n: nat, window: real, h: seq<int>)
    requires n > 0 && window >= 0.0
    ensures var off := StartSum(n, window, h) as real - ExactSum(n, window, AsReals(h));
            -0.5 * Used(n, |h|) <= off <= 0.5 * Used(n, |h|)
  {
    hide Share;
    hide Offset;
    if |h| > n / 2 {
      var i := |h| - 1;
      SumRounding(n, window, h[..i]);
      assert AsReals(h)[..i] == AsReals(h[..i]);
      OffsetIsShare(n, window, i);
      ShareNotNegative(n, Ticks(window), i);
      RoundNear(Share(n, Ticks(window), i));
    }
  }

  /** The code's measured start differs from that of real arithmetic by half a tick at most. */
  lemma MeasuredRounding(n: nat, window: real, h: seq<int>)
    requires n > 0 && window >= 0.0 && |h| == n
    ensures -0.5 <= Measured(n, window, h) - ExactMeasured(n, window, AsReals(h)) <= 0.5
  {
    hide StartSum;
    hide ExactSum;
    SumRounding(n, window, h);
    Quotients(StartSum(n, window, h) as real, ExactSum(n, window, AsReals(h)), (n - n / 2) as real);
  }

  lemma Quotients(x: real, y: real, k: real)
    requires k > 0.0 && -0.5 * k <= x - y <= 0.5 * k
    ensures -0.5 <= x / k - y / k <= 0.5
  {
    Spread(x / k, y / k, k, x - y);
    HalfOf(k, x / k - y / k, x - y);
  }

  lemma Spread(p: real, q: real, k: real, d: real)
    requires p * k - q * k == d
    ensures k * (p - q) == d
  {
  }

  lemma HalfOf(k: real, z: real, d: real)
    requires k > 0.0 && k * z == d && -0.5 * k <= d <= 0.5 * k
    ensures -0.5 <= z <= 0.5
  {
    if z > 0.5 {
      MulPos(k, z - 0.5);
    }
    if z < -0.5 {
      MulPos(k, -0.5 - z);
    }
  }

  // ---------- One record ----------

  lemma SumStep(count: real, count': real, t: real, s: real, p: real, q: real)
    requires count' == count + 1.0
    ensures count * t + s + (t + p - q) == count' * t + (s + (p - q))
  {
  }

  lemma SumNext(n: nat, window: real, h: seq<real>, i: nat)
    requires n > 0 && n / 2 <= i < |h|
    ensures ExactSum(n, window, h[..i + 1]) == ExactSum(n, window, h[..i]) + (h[i] - Share(n, Ticks(window), i))
  {
    hide Share;
    assert h[..i + 1][..i] == h[..i];
  }

  lemma {:induction false} IdealSum(n: nat, window: real, t: real, w: real, k: nat)
    requires n > 0 && n / 2 <= k <= n
    ensures ExactSum(n, window, IdealTimes(n, t, w)[..k]) ==
            (k - n / 2) as real * t + Share(n, w - Ticks(window), IndexSum(n, k))
  {
    hide Share;
    hide Ticks;
    var d, h := w - Ticks(window), IdealTimes(n, t, w);
    ShareGrows(n, d, 0, 0);
    if k > n / 2 {
      var i := k - 1;
      IdealSum(n, window, t, w, i);
      ShareOfDifference(n, w, Ticks(window), i);
      ShareGrows(n, d, IndexSum(n, i), i);
      SumNext(n, window, h, i);
      SumStep((i - n / 2) as real, (k - n / 2) as real, t, Share(n, d, IndexSum(n, i)), Share(n, w, i),
              Share(n, Ticks(window), i));
    }
  }

  /** The measured start is the true one and the window's error in the mean index. */
  lemma IdealMeasured(n: nat, window: real, t: real, w: real)
    requires n > 0
    ensures ExactMeasured(n, window, IdealTimes(n, t, w)) == t + MeanIndex(n) * (w - Ticks(window))
  {
    hide Share;
    hide ExactSum;
    hide IdealTimes;
    hide MeanIndex;
    hide IndexSum;
    hide Ticks;
    var h, d := IdealTimes(n, t, w), w - Ticks(window);
    IdealSum(n, window, t, w, n);
    assert h[..n] == h;
    MeanShare(n, d);
    MeanOfSum(ExactSum(n, window, h), (n - n / 2) as real, t, MeanIndex(n) * d);
  }

  lemma MeanOfSum(sum: real, count: real, t: real, c: real)
    requires count > 0.0 && sum == count * t + count * c
    ensures sum / count == t + c
  {
    assert sum == (t + c) * count;
  }

  lemma ExactFilterInTicks(a: real, window: real, measured: real, prev: real)
    ensures Ticks(Blend(a, window, ExactElapsed(measured, prev))) ==
            Ticks(window) + a * (measured - prev - Ticks(window))
  {
  }

  /** A record after the first is exactly one step of the linear system. */
  lemma IdealRecord(n: nat, a: real, clock: RealClock, w: real, t: real)
    requires n > 0 && clock.prev > 0.0
    ensures RealErrors(ExactNext(n, a, clock, IdealTimes(n, t + w, w)), w, t + w) ==
            Step(Gain(a, MeanIndex(n)), RealErrors(clock, w, t), 0.0, 0.0)
  {
    hide ExactMeasured;
    hide MeanIndex;
    hide IdealTimes;
    hide Step;
    hide Ticks;
    hide Blend;
    hide ExactElapsed;
    IdealMeasured(n, clock.window, t + w, w);
    var m, c := ExactMeasured(n, clock.window, IdealTimes(n, t + w, w)), MeanIndex(n);
    var next := ExactNext(n, a, clock, IdealTimes(n, t + w, w));
    ExactFilterInTicks(a, clock.window, m, clock.prev);
    StepAlgebra(a, c, Ticks(clock.window), clock.prev, m, w, t, Ticks(next.window), Ticks(next.window),
                RealErrors(clock, w, t), 0.0, 0.0, RealErrors(next, w, t + w));
  }

  /** The first record leaves the window's error and puts its mean part into the start. */
  function FirstErr(n: nat, window: real, w: real): Err
    requires n > 0
  {
    Err(w - Ticks(window), -(MeanIndex(n) * (w - Ticks(window))))
  }

  lemma IdealFirst(n: nat, a: real, clock: RealClock, w: real, t: real)
    requires n > 0 && clock.prev <= 0.0
    ensures ExactNext(n, a, clock, IdealTimes(n, t, w)).window == clock.window
    ensures RealErrors(ExactNext(n, a, clock, IdealTimes(n, t, w)), w, t) == FirstErr(n, clock.window, w)
  {
    hide ExactMeasured;
    hide MeanIndex;
    hide IdealTimes;
    hide Ticks;
    IdealMeasured(n, clock.window, t, w);
    assert Blend(a, clock.window, clock.window) == clock.window;
  }

  /** Its energy. */
  lemma FirstEnergy(n: nat, a: real, window: real, w: real)
    requires n > 0
    ensures var g, d := Gain(a, MeanIndex(n)), w - Ticks(window);
            V(g, FirstErr(n, window, w)) == g.Q() * (d * d)
  {
    hide MeanIndex;
    hide Ticks;
    var g, d := Gain(a, MeanIndex(n)), w - Ticks(window);
    FormOfFirst(g.Q(), g.c, a, d);
  }

  lemma FormOfFirst(q: real, c: real, a: real, d: real)
    ensures q * (d * d) + c * a * (d * -(c * d)) + a * (-(c * d) * -(c * d)) == q * (d * d)
  {
    assert c * a * (d * -(c * d)) == -(a * ((c * d) * (c * d)));
    NegateBoth(c * d, c * d);
  }

  // ---------- Runs ----------

  /** The clock after record `k` of a run whose first record starts at `t0`. */
  function IdealRun(n: nat, a: real, window: real, t0: real, w: real, k: nat): RealClock
    requires n > 0
  {
    if k == 0 then ExactNext(n, a, RealClock(window, -1.0), IdealTimes(n, t0, w))
    else ExactNext(n, a, IdealRun(n, a, window, t0, w, k - 1), IdealTimes(n, TrueStart(t0, w, k), w))
  }

  function RunErrors(n: nat, a: real, window: real, t0: real, w: real, k: nat): Err
    requires n > 0
  {
    RealErrors(IdealRun(n, a, window, t0, w, k), w, TrueStart(t0, w, k))
  }

  /** As long as the starts are after the epoch, the estimator is the linear system: after `k` more records its
      errors are those after `k` steps, and their energy is the first one times the factor to the `k`. */
  lemma {:induction false} IdealErrors(n: nat, a: real, window: real, t0: real, w: real, k: nat)
    requires n > 0 && w >= 0.0
    requires forall j: nat :: j < k ==> IdealRun(n, a, window, t0, w, j).prev > 0.0
    ensures RunErrors(n, a, window, t0, w, k) == Iterate(Gain(a, MeanIndex(n)), FirstErr(n, window, w), k)
  {
    hide ExactNext;
    hide IdealTimes;
    hide RealErrors;
    hide MeanIndex;
    hide TrueStart;
    hide Step;
    hide FirstErr;
    if k == 0 {
      IdealFirst(n, a, RealClock(window, -1.0), w, t0);
      StartOfFirst(t0, w);
    } else {
      IdealErrors(n, a, window, t0, w, k - 1);
      TrueStartNext(t0, w, k - 1);
      IdealRecord(n, a, IdealRun(n, a, window, t0, w, k - 1), w, TrueStart(t0, w, k - 1));
    }
  }

  lemma StartOfFirst(t0: real, w: real)
    ensures TrueStart(t0, w, 0) == t0
  {
  }

  /** The first window's error is small against the time since the epoch. */
  ghost predicate LateEnough(g: Gain, d: real, t0: real) {
    t0 >= 0.0 && 4.0 * g.Q() * (g.Q() * (d * d)) < g.a * g.D() * (t0 * t0)
  }

  /** The starts stay after the epoch if the run begins late enough, and so the estimator is the linear system on
      the whole run. */
  lemma {:induction false} IdealStarts(n: nat, a: real, window: real, t0: real, w: real, k: nat)
    requires n > 0 && w >= 0.0 && Gain(a, MeanIndex(n)).Stable()
    requires LateEnough(Gain(a, MeanIndex(n)), w - Ticks(window), t0)
    ensures forall j: nat :: j < k ==> IdealRun(n, a, window, t0, w, j).prev > 0.0
    ensures RunErrors(n, a, window, t0, w, k) == Iterate(Gain(a, MeanIndex(n)), FirstErr(n, window, w), k)
  {
    hide MeanIndex;
    hide IdealRun;
    hide LateEnough;
    hide Gain.Stable;
    hide RunErrors;
    hide FirstErr;
    hide Iterate;
    hide Ticks;
    if k > 0 {
      IdealStarts(n, a, window, t0, w, k - 1);
      StartsLate(n, a, window, t0, w, k - 1);
    }
    IdealErrors(n, a, window, t0, w, k);
  }

  lemma StartsLate(n: nat, a: real, window: real, t0: real, w: real, k: nat)
    requires n > 0 && w >= 0.0 && Gain(a, MeanIndex(n)).Stable()
    requires LateEnough(Gain(a, MeanIndex(n)), w - Ticks(window), t0)
    requires RunErrors(n, a, window, t0, w, k) == Iterate(Gain(a, MeanIndex(n)), FirstErr(n, window, w), k)
    ensures IdealRun(n, a, window, t0, w, k).prev > 0.0
  {
    hide MeanIndex;
    hide IdealRun;
    hide Gain.Q;
    hide Gain.D;
    hide V;
    hide Iterate;
    hide FirstErr;
    hide Ticks;
    hide TrueStart;
    hide Pow;
    hide LateEnough;
    var g, x := Gain(a, MeanIndex(n)), FirstErr(n, window, w);
    EnergyAfter(g, x, k);
    FirstEnergy(n, a, window, w);
    StableFacts(g);
    PowAtMostOne(g.Q(), k);
    SmallStartError(g, x, RunErrors(n, a, window, t0, w, k), Pow(g.Q(), k), w - Ticks(window), t0);
    TrueStartNext(t0, w, k);
  }

  lemma SmallStartError(g: Gain, x: Err, y: Err, p: real, d: real, t0: real)
    requires g.Stable() && LateEnough(g, d, t0) && p <= 1.0
    requires V(g, x) == g.Q() * (d * d) && V(g, y) == p * V(g, x)
    ensures y.e < t0
  {
    hide Gain.Q;
    hide Gain.D;
    hide V;
    hide LateEnough;
    LateBy(g, d, t0, V(g, x));
    StableFacts(g);
    EnergyBounds(g, x);
    EnergyBounds(g, y);
    StartBelow(g.a, g.D(), g.Q(), p, V(g, x), V(g, y), y.e, t0);
  }

  lemma LateBy(g: Gain, d: real, t0: real, v: real)
    requires LateEnough(g, d, t0) && v == g.Q() * (d * d)
    ensures t0 >= 0.0 && 4.0 * g.Q() * v < g.a * g.D() * (t0 * t0)
  {
    hide Gain.Q;
    hide Gain.D;
  }

  lemma StartBelow(a: real, k: real, q: real, p: real, u: real, v: real, e: real, t: real)
    requires a > 0.0 && k > 0.0 && q > 0.0 && p <= 1.0 && u >= 0.0 && v == p * u && t >= 0.0
    requires a * k * (e * e) <= 4.0 * q * v && 4.0 * q * u < a * k * (t * t)
    ensures e < t
  {
    MulPos(a, k);
    SmallShare(q, p, v, u);
    BelowByEnergy(a * k, e, t, 4.0 * q * v, 4.0 * q * u);
  }

  lemma BelowByEnergy(k: real, e: real, t: real, u: real, v: real)
    requires t >= 0.0 && k > 0.0 && k * (e * e) <= u <= v < k * (t * t)
    ensures e < t
  {
    var ee, tt := e * e, t * t;
    if tt <= ee {
      MulLe(k, tt, ee);
    }
    BelowRoot(e, t);
  }

  lemma SmallShare(q: real, p: real, u: real, v: real)
    requires q > 0.0 && p <= 1.0 && v >= 0.0 && u == p * v
    ensures 4.0 * q * u <= 4.0 * q * v
  {
    MulLe(v, p, 1.0);
    MulLe(4.0 * q, u, v);
  }

  lemma {:induction false} PowAtMostOne(q: real, k: nat)
    requires 0.0 < q < 1.0
    ensures 0.0 < Pow(q, k) <= 1.0
  {
    if k > 0 {
      PowAtMostOne(q, k - 1);
      MulPos(q, Pow(q, k - 1));
      MulLe(q, Pow(q, k - 1), 1.0);
    }
  }

  /** With an ideal clock and real arithmetic, record `k` after the first leaves exactly the share
      (1 - (1 + c) a)^k of the energy of the first record's errors. */
  lemma IdealEnergy(n: nat, a: real, window: real, t0: real, w: real, k: nat)
    requires n > 0 && w >= 0.0 && Gain(a, MeanIndex(n)).Stable()
    requires LateEnough(Gain(a, MeanIndex(n)), w - Ticks(window), t0)
    ensures var g, d := Gain(a, MeanIndex(n)), w - Ticks(window);
            V(g, RunErrors(n, a, window, t0, w, k)) == Pow(1.0 - (1.0 + MeanIndex(n)) * a, k) * (g.Q() * (d * d))
  {
    hide MeanIndex;
    hide RunErrors;
    hide FirstErr;
    hide V;
    hide LateEnough;
    hide Gain.Stable;
    hide Ticks;
    IdealStarts(n, a, window, t0, w, k);
    assert Gain(a, MeanIndex(n)).Q() == 1.0 - (1.0 + MeanIndex(n)) * a;
    EnergyAfter(Gain(a, MeanIndex(n)), FirstErr(n, window, w), k);
    FirstEnergy(n, a, window, w);
  }

  /** And both errors of the program's estimator converge: from some record on their squares stay below any
      bound, on every run. */
  lemma IdealConverges(n: nat, rate: nat, window: real, t0: real, w: real, bound: real) returns (from: nat)
    requires n > 0 && rate > 0 && w >= 0.0 && bound > 0.0
    requires LateEnough(Gain(Decay(rate), MeanIndex(n)), w - Ticks(window), t0)
    ensures forall k: nat :: from <= k ==>
              var y := RunErrors(n, Decay(rate), window, t0, w, k); y.d * y.d <= bound && y.e * y.e <= bound
  {
    hide MeanIndex;
    hide RunErrors;
    hide FirstErr;
    hide LateEnough;
    hide Gain.Stable;
    hide Iterate;
    hide Decay;
    hide Ticks;
    ProgramStable(n, rate);
    from := ErrorsConverge(Gain(Decay(rate), MeanIndex(n)), FirstErr(n, window, w), bound);
    forall k: nat | from <= k
      ensures var y := RunErrors(n, Decay(rate), window, t0, w, k); y.d * y.d <= bound && y.e * y.e <= bound
    {
      IdealStarts(n, Decay(rate), window, t0, w, k);
    }
  }
}
