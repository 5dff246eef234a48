/** The error of the sample-clock estimator as a linear system: `d` is the error of the record window and
    `e` the error of the record start, both in microseconds; `a` is the decay constant and `c` the mean
    index of the samples used, as a fraction of the record. */
module ErrorDynamics {

  datatype Err = Err(d: real, e: real)

  datatype Gain = Gain(a: real, c: real) {
    /** The factor by which the energy shrinks. */
    function Q(): real {
      1.0 - (1.0 + c) * a
    }

    /** Positive when the energy is a positive definite form. */
    function D(): real {
      4.0 * Q() - c * c * a
    }

    ghost predicate Stable() {
      a > 0.0 && c >= 0.0 && D() > 0.0
    }
  }

  /** One record: the window moves by `a` times the measured error, and the start follows the window.
      `j` is the error of the averaged timestamps, `r` that of rounding the window to ticks. */
  function Step(g: Gain, x: Err, j: real, r: real): Err {
    var d := g.Q() * x.d - g.a * x.e - g.a * j;
    Err(d, x.e + d - r)
  }

  /** The energy of an error. */
  function V(g: Gain, x: Err): real {
    g.Q() * (x.d * x.d) + g.c * g.a * (x.d * x.e) + g.a * (x.e * x.e)
  }

  // ---------- Squares and products ----------

  lemma Square(x: real)
    ensures x * x >= 0.0
  {
  }

  lemma MulLe(k: real, x: real, y: real)
    requires k >= 0.0 && x <= y
    ensures k * x <= k * y
  {
  }

  lemma MulPos(x: real, y: real)
    requires x > 0.0 && y > 0.0
    ensures x * y > 0.0
  {
  }

  lemma DecayBound(g: Gain)
    requires g.c >= 0.0
    ensures g.D() == 4.0 - g.a * ((g.c + 2.0) * (g.c + 2.0))
    ensures g.a > 0.0 ==> (g.Stable() <==> g.a < 4.0 / ((g.c + 2.0) * (g.c + 2.0)))
  {
    var k := (g.c + 2.0) * (g.c + 2.0);
    assert k == g.c * g.c + 4.0 * g.c + 4.0;
    assert g.a * k == g.a * (g.c * g.c) + 4.0 * (g.a * g.c) + 4.0 * g.a;
    assert (1.0 + g.c) * g.a == g.a + g.a * g.c;
    assert g.c * g.c * g.a == g.a * (g.c * g.c);
    assert k >= 4.0;
    Quotient(g.a, 4.0, k);
  }

  lemma Quotient(a: real, n: real, k: real)
    requires k > 0.0
    ensures a < n / k <==> a * k < n
  {
  }

  lemma StableFacts(g: Gain)
    requires g.Stable()
    ensures 0.0 < g.Q() < 1.0 && g.a < 1.0
  {
  }

  // ---------- The energy ----------

  /** Without disturbances one record multiplies the energy by exactly `Q`. */
  lemma EnergyShrinks(g: Gain, x: Err)
    ensures V(g, Step(g, x, 0.0, 0.0)) == g.Q() * V(g, x)
  {
  }

  /** 4 a V is a square and a D d^2. */
  lemma SquareInE(a: real, c: real, q: real, d: real, e: real, k: real, v: real, m: real)
    requires k == 4.0 * q - c * c * a
    requires v == q * (d * d) + c * a * (d * e) + a * (e * e)
    requires m == 2.0 * (a * e) + c * a * d
    ensures 4.0 * a * v == m * m + a * (k * (d * d))
  {
  }

  /** 4 q V is a square and a D e^2. */
  lemma SquareInD(a: real, c: real, q: real, d: real, e: real, k: real, v: real, n: real)
    requires k == 4.0 * q - c * c * a
    requires v == q * (d * d) + c * a * (d * e) + a * (e * e)
    requires n == 2.0 * (q * d) + c * a * e
    ensures 4.0 * q * v == n * n + a * k * (e * e)
  {
  }

  /** An energy `v` bounds both errors. */
  ghost predicate Bounds(g: Gain, v: real, x: Err) {
    v >= 0.0 && g.D() * (x.d * x.d) <= 4.0 * v && g.a * g.D() * (x.e * x.e) <= 4.0 * g.Q() * v
  }

  /** The energy bounds both errors. */
  lemma EnergyBounds(g: Gain, x: Err)
    requires g.Stable()
    ensures Bounds(g, V(g, x), x)
  {
    hide Gain.Q;
    FormBounds(g.a, g.c, g.Q(), g.D(), x.d, x.e, V(g, x));
  }

  lemma FormBounds(a: real, c: real, q: real, k: real, d: real, e: real, v: real)
    requires a > 0.0 && k > 0.0 && k == 4.0 * q - c * c * a
    requires v == q * (d * d) + c * a * (d * e) + a * (e * e)
    ensures v >= 0.0 && k * (d * d) <= 4.0 * v && a * k * (e * e) <= 4.0 * q * v
  {
    var m, n := 2.0 * (a * e) + c * a * d, 2.0 * (q * d) + c * a * e;
    SquareInE(a, c, q, d, e, k, v, m);
    SquareInD(a, c, q, d, e, k, v, n);
    Square(d);
    FormSigns(a, q, k, d * d, e * e, v, m, n);
  }

  lemma FormSigns(a: real, q: real, k: real, dd: real, ee: real, v: real, m: real, n: real)
    requires a > 0.0 && k > 0.0 && dd >= 0.0
    requires 4.0 * a * v == m * m + a * (k * dd)
    requires 4.0 * q * v == n * n + a * k * ee
    ensures v >= 0.0 && k * dd <= 4.0 * v && a * k * ee <= 4.0 * q * v
  {
  }

  lemma Cancel(k: real, x: real, y: real)
    requires k > 0.0 && k * x <= k * y
    ensures x <= y
  {
  }

  /** Every error but none at all has positive energy. */
  ghost predicate PositiveDefinite(g: Gain) {
    forall x: Err :: x != Err(0.0, 0.0) ==> V(g, x) > 0.0
  }

  /** The energy is positive definite exactly for stable gains. */
  lemma StableIsPositive(g: Gain)
    requires g.a > 0.0 && g.c >= 0.0
    ensures g.Stable() <==> PositiveDefinite(g)
  {
    hide V;
    hide Gain.Q;
    hide Gain.D;
    if g.Stable() {
      forall x: Err | x != Err(0.0, 0.0)
        ensures V(g, x) > 0.0
      {
        EnergyBounds(g, x);
        StableFacts(g);
        if x.d != 0.0 {
          Definite(g.D(), x.d, 4.0 * V(g, x));
        } else {
          MulPos(g.a, g.D());
          Definite(g.a * g.D(), x.e, 4.0 * g.Q() * V(g, x));
          Cancel(4.0 * g.Q(), 0.0, V(g, x));
        }
      }
    } else {
      Unstable(g);
      assert Err(2.0, -g.c) != Err(0.0, 0.0);
    }
  }

  lemma Unstable(g: Gain)
    ensures V(g, Err(2.0, -g.c)) == g.D()
  {
  }

  lemma Definite(k: real, x: real, u: real)
    requires k > 0.0 && x != 0.0 && k * (x * x) <= u
    ensures u > 0.0
  {
    if x > 0.0 {
      MulPos(k, x);
      MulPos(k * x, x);
    } else {
      MulPos(k, -x);
      MulPos(k * (-x), -x);
    }
  }

  /** That is a bound on the decay constant. */
  lemma StableBound(g: Gain)
    requires g.a > 0.0 && g.c >= 0.0
    ensures PositiveDefinite(g) <==> g.a < 4.0 / ((g.c + 2.0) * (g.c + 2.0))
  {
    hide V;
    DecayBound(g);
    hide Gain.D;
    StableIsPositive(g);
  }

  // ---------- Runs without disturbance ----------

  function Iterate(g: Gain, x: Err, k: nat): Err {
    if k == 0 then x else Step(g, Iterate(g, x, k - 1), 0.0, 0.0)
  }

  function Pow(q: real, k: nat): real {
    if k == 0 then 1.0 else q * Pow(q, k - 1)
  }

  /** After `k` records the energy is `Q` to the `k` times what it was. */
  lemma {:induction false} EnergyAfter(g: Gain, x: Err, k: nat)
    ensures V(g, Iterate(g, x, k)) == Pow(g.Q(), k) * V(g, x)
  {
    hide V;
    hide Step;
    if k > 0 {
      EnergyAfter(g, x, k - 1);
      EnergyShrinks(g, Iterate(g, x, k - 1));
      Associate(g.Q(), Pow(g.Q(), k - 1), V(g, x));
    }
  }

  lemma Associate(x: real, y: real, z: real)
    ensures x * y * z == x * (y * z)
  {
  }

  /** Bernoulli's inequality turned around: powers of a factor below one vanish. */
  lemma {:induction false} PowBound(q: real, k: nat)
    requires 0.0 < q < 1.0
    ensures Pow(q, k) > 0.0
    ensures Pow(q, k) * (1.0 + k as real * (1.0 - q)) <= 1.0
  {
    if k > 0 {
      PowBound(q, k - 1);
      var p, h, n := Pow(q, k - 1), 1.0 - q, (k - 1) as real;
      MulPos(q, p);
      assert k as real == n + 1.0;
      // (1 - h)(1 + (n + 1) h) is at most 1 + n h
      assert q * (1.0 + (n + 1.0) * h) == 1.0 + n * h - (n + 1.0) * (h * h) by {
        assert (1.0 - h) * (1.0 + (n + 1.0) * h) == 1.0 + (n + 1.0) * h - h - (n + 1.0) * (h * h);
      }
      Square(h);
      MulLe(n + 1.0, 0.0, h * h);
      MulLe(p, q * (1.0 + (n + 1.0) * h), 1.0 + n * h);
      assert q * p * (1.0 + (n + 1.0) * h) == p * (q * (1.0 + (n + 1.0) * h));
    }
  }

  /** From some record on the power stays below any bound. */
  lemma PowVanishes(q: real, bound: real) returns (from: nat)
    requires 0.0 < q < 1.0 && bound > 0.0
    ensures forall k: nat :: from <= k ==> Pow(q, k) <= bound
  {
    var h := 1.0 - q;
    MulPos(h, bound);
    var need := 1.0 / (h * bound);
    from := need.Floor + 1;
    forall k: nat | from <= k
      ensures Pow(q, k) <= bound
    {
      PowBound(q, k);
      Enough(h * bound, need, k as real);
      PowBelow(Pow(q, k), k as real, h, bound);
    }
  }

  lemma Enough(x: real, need: real, n: real)
    requires x > 0.0 && need == 1.0 / x && need <= n
    ensures n * x >= 1.0
  {
    assert need * x == 1.0;
    MulLe(x, need, n);
  }

  lemma PowBelow(p: real, n: real, h: real, bound: real)
    requires p * (1.0 + n * h) <= 1.0 && n * (h * bound) >= 1.0
    requires n >= 0.0 && h > 0.0 && bound > 0.0
    ensures p <= bound
  {
    // bound * (1 + n h) is at least 1
    var f := 1.0 + n * h;
    assert bound * f == bound + n * (h * bound);
    assert n * h >= 0.0;
    Cancel(f, p, bound);
  }

  /** The energy is so small that both squared errors are at most `bound`. */
  ghost predicate Small(g: Gain, v: real, bound: real) {
    4.0 * v <= g.a * (g.D() * bound)
  }

  /** With an ideal clock both errors converge to zero on every run: from some record on their squares
      stay below any bound. */
  lemma ErrorsConverge(g: Gain, x: Err, bound: real) returns (from: nat)
    requires g.Stable() && bound > 0.0
    ensures forall k: nat :: from <= k ==>
              var y := Iterate(g, x, k); y.d * y.d <= bound && y.e * y.e <= bound
  {
    hide Gain.Q;
    hide Gain.D;
    hide V;
    hide Iterate;
    hide Pow;
    hide Small;
    hide Bounds;
    var factor := SmallFactor(g, x, bound);
    StableFacts(g);
    from := PowVanishes(g.Q(), factor);
    forall k: nat | from <= k
      ensures var y := Iterate(g, x, k); y.d * y.d <= bound && y.e * y.e <= bound
    {
      SmallLater(g, x, bound, factor, k);
      SmallSquares(g, Iterate(g, x, k), bound);
    }
  }

  /** A factor by which the energy has to shrink to be small enough. */
  lemma SmallFactor(g: Gain, x: Err, bound: real) returns (factor: real)
    requires g.Stable() && bound > 0.0
    ensures factor > 0.0 && factor * (4.0 * (V(g, x) + 1.0)) == g.a * (g.D() * bound)
  {
    hide Gain.Q;
    hide Gain.D;
    hide V;
    EnergyBounds(g, x);
    MulPos(g.D(), bound);
    MulPos(g.a, g.D() * bound);
    factor := PositiveQuotient(g.a * (g.D() * bound), 4.0 * (V(g, x) + 1.0));
  }

  lemma PositiveQuotient(x: real, y: real) returns (z: real)
    requires x > 0.0 && y > 0.0
    ensures z > 0.0 && z * y == x
  {
    z := x / y;
  }

  lemma SmallLater(g: Gain, x: Err, bound: real, factor: real, k: nat)
    requires g.Stable() && bound > 0.0
    requires factor > 0.0 && factor * (4.0 * (V(g, x) + 1.0)) == g.a * (g.D() * bound)
    requires Pow(g.Q(), k) <= factor
    ensures Small(g, V(g, Iterate(g, x, k)), bound)
  {
    hide Gain.Q;
    hide Gain.D;
    hide V;
    hide Iterate;
    hide Pow;
    StableFacts(g);
    PowBound(g.Q(), k);
    EnergyAfter(g, x, k);
    EnergyBounds(g, x);
    EnergyBelow(Pow(g.Q(), k), factor, V(g, x), g.a * (g.D() * bound));
  }

  lemma EnergyBelow(p: real, factor: real, v: real, low: real)
    requires 0.0 < p <= factor && v >= 0.0 && factor * (4.0 * (v + 1.0)) == low
    ensures 4.0 * (p * v) <= low
  {
  }

  lemma SmallSquares(g: Gain, x: Err, bound: real)
    requires g.Stable() && bound > 0.0 && Small(g, V(g, x), bound)
    ensures x.d * x.d <= bound && x.e * x.e <= bound
  {
    hide Gain.Q;
    hide Gain.D;
    hide V;
    EnergyBounds(g, x);
    StableFacts(g);
    FirstSquare(g.a, g.D(), V(g, x), bound, x.d * x.d);
    SecondSquare(g.a, g.D(), g.Q(), V(g, x), bound, x.e * x.e);
  }

  lemma FirstSquare(a: real, k: real, v: real, b: real, xx: real)
    requires 0.0 < a < 1.0 && k > 0.0 && b > 0.0
    requires 4.0 * v <= a * (k * b) && k * xx <= 4.0 * v
    ensures xx <= b
  {
    ShrinkProduct(a, k, b);
    CancelChain(k, xx, b, 4.0 * v, a * (k * b));
  }

  lemma ShrinkProduct(a: real, k: real, b: real)
    requires 0.0 < a < 1.0 && k > 0.0 && b > 0.0
    ensures a * (k * b) <= k * b
  {
  }

  lemma CancelChain(k: real, x: real, y: real, u: real, w: real)
    requires k > 0.0 && k * x <= u && u <= w && w <= k * y
    ensures x <= y
  {
  }

  lemma SecondSquare(a: real, k: real, q: real, v: real, b: real, yy: real)
    requires 0.0 < a && k > 0.0 && q < 1.0 && v >= 0.0
    requires 4.0 * v <= a * (k * b) && a * k * yy <= 4.0 * q * v
    ensures yy <= b
  {
    MulLe(v, q, 1.0);
    MulPos(a, k);
    Associate(a, k, b);
    assert 4.0 * q * v == 4.0 * (v * q);
    Cancel(a * k, yy, b);
  }

  // ---------- Runs under disturbance ----------

  function Form(q: real, m: real, a: real, x: real, y: real): real {
    q * (x * x) + m * (x * y) + a * (y * y)
  }

  /** The form of a difference, from the forms of the parts and of their sum. */
  lemma FormIdentity(q: real, m: real, a: real, s: real, t: real, y1: real, y2: real, u1: real, u2: real)
    ensures Form(q, m, a, s * y1 - t * u1, s * y2 - t * u2) ==
            s * (s + t) * Form(q, m, a, y1, y2) + t * (s + t) * Form(q, m, a, u1, u2)
            - s * t * Form(q, m, a, y1 + u1, y2 + u2)
  {
  }

  /** The energy of a record's disturbance alone: of the window error `-a j` and the start error `-a j - r`. */
  function KickForm(q: real, c: real, a: real, j: real, r: real): real {
    Form(q, c * a, a, -(a * j), -(a * j) - r)
  }

  function Kick(g: Gain, j: real, r: real): real {
    KickForm(g.Q(), g.c, g.a, j, r)
  }

  lemma KickIsEnergy(g: Gain, j: real, r: real)
    ensures Kick(g, j, r) == V(g, Err(-(g.a * j), -(g.a * j) - r))
  {
  }

  lemma VIsForm(g: Gain, x: Err)
    ensures V(g, x) == Form(g.Q(), g.c * g.a, g.a, x.d, x.e)
  {
  }

  lemma DisturbedStep(g: Gain, x: Err, j: real, r: real)
    ensures var y, z := Step(g, x, 0.0, 0.0), Step(g, x, j, r);
            z == Err(y.d + -(g.a * j), y.e + (-(g.a * j) - r))
  {
  }

  /** Shares of an energy: the share `1 - q`, the part of it a step leaves at most, and the rest of it,
      which is room for disturbances. */
  function Portion(q: real, v: real): real {
    (1.0 - q) * v
  }

  function Left(q: real, v: real): real {
    (1.0 - q) * (1.0 + q) / 2.0 * v
  }

  function Room(q: real, v: real): real {
    (1.0 - q) * ((1.0 - q) / 2.0 * v)
  }

  /** What a disturbance of energy `kick` adds. */
  function Added(q: real, kick: real): real {
    (1.0 + q) * kick
  }

  lemma Shares(q: real, v: real)
    ensures Left(q, v) + Room(q, v) == Portion(q, v)
  {
  }

  /** A disturbed step from energy `v`: with `q` the factor of the quiet step and `kick` the disturbance's energy. */
  ghost predicate StepBound(q: real, v: real, kick: real, v': real) {
    Portion(q, v') <= Left(q, v) + Added(q, kick)
  }

  /** Weighted bound on the energy of a sum. */
  ghost predicate Young(s: real, t: real, vy: real, vu: real, vz: real) {
    s * (s + t) * vy + t * (s + t) * vu - s * t * vz >= 0.0
  }

  lemma EnergyOfSum(g: Gain, y: Err, u: Err, s: real, t: real)
    requires g.Stable()
    ensures Young(s, t, V(g, y), V(g, u), V(g, Err(y.d + u.d, y.e + u.e)))
  {
    hide Gain.Q;
    hide Gain.D;
    hide V;
    hide Form;
    var z, w := Err(y.d + u.d, y.e + u.e), Err(s * y.d - t * u.d, s * y.e - t * u.e);
    VIsForm(g, y);
    VIsForm(g, u);
    VIsForm(g, z);
    VIsForm(g, w);
    FormIdentity(g.Q(), g.c * g.a, g.a, s, t, y.d, y.e, u.d, u.e);
    NotNegative(g, w);
  }

  lemma DisturbedEnergy(g: Gain, x: Err, j: real, r: real)
    requires g.Stable()
    ensures StepBound(g.Q(), V(g, x), Kick(g, j, r), V(g, Step(g, x, j, r)))
  {
    hide Gain.Q;
    hide Gain.D;
    hide V;
    hide Step;
    hide StepBound;
    hide Young;
    hide Kick;
    StableFacts(g);
    KickIsEnergy(g, j, r);
    EnergyShrinks(g, x);
    DisturbedStep(g, x, j, r);
    EnergyOfSum(g, Step(g, x, 0.0, 0.0), Err(-(g.a * j), -(g.a * j) - r), 1.0 - g.Q(), 2.0 * g.Q());
    StepArithmetic(g.Q(), V(g, x), V(g, Step(g, x, 0.0, 0.0)), Kick(g, j, r), V(g, Step(g, x, j, r)));
  }

  lemma NotNegative(g: Gain, x: Err)
    requires g.Stable()
    ensures V(g, x) >= 0.0
  {
    hide V;
    hide Gain.Q;
    hide Gain.D;
    EnergyBounds(g, x);
  }

  lemma StepArithmetic(q: real, v: real, quiet: real, kick: real, v': real)
    requires 0.0 < q < 1.0 && quiet == q * v
    requires Young(1.0 - q, 2.0 * q, quiet, kick, v')
    ensures StepBound(q, v, kick, v')
  {
  }

  lemma AbsProduct(a: real, j: real, bound: real)
    requires a >= 0.0 && -bound <= j <= bound
    ensures -(a * bound) <= a * j <= a * bound
  {
  }

  lemma AbsBoth(x: real, y: real, p: real, s: real)
    requires -p <= x <= p && -s <= y <= s
    ensures x * y <= p * s
  {
  }

  lemma NegateBoth(x: real, y: real)
    ensures (-x) * (-y) == x * y
  {
  }

  /** The most energy one record's disturbances add: averaged timestamps off by at most `jitter`, and the
      rounding of the window by at most half a tick. */
  function MostForm(q: real, c: real, a: real, jitter: real): real {
    Form(q, c * a, a, a * jitter, a * jitter + 0.5)
  }

  function KickBound(g: Gain, jitter: real): real {
    MostForm(g.Q(), g.c, g.a, jitter)
  }

  lemma KickIsBounded(g: Gain, jitter: real, j: real, r: real)
    requires g.Stable() && -jitter <= j <= jitter && -0.5 <= r <= 0.5
    ensures Kick(g, j, r) <= KickBound(g, jitter)
  {
    hide Gain.Q;
    hide Gain.D;
    hide KickForm;
    hide MostForm;
    StableFacts(g);
    KickFormBounded(g.Q(), g.c, g.a, jitter, j, r);
  }

  lemma KickFormBounded(q: real, c: real, a: real, jitter: real, j: real, r: real)
    requires q >= 0.0 && c >= 0.0 && a >= 0.0 && -jitter <= j <= jitter && -0.5 <= r <= 0.5
    ensures KickForm(q, c, a, j, r) <= MostForm(q, c, a, jitter)
  {
    hide Form;
    NotBelowZero(c, a);
    AbsProduct(a, j, jitter);
    KickTerms(q, c * a, a, a * jitter, a * jitter + 0.5, -(a * j), -(a * j) - r);
  }

  lemma NotBelowZero(c: real, a: real)
    requires c >= 0.0 && a >= 0.0
    ensures c * a >= 0.0
  {
  }

  lemma KickTerms(q: real, m: real, a: real, p: real, s: real, x: real, y: real)
    requires q >= 0.0 && m >= 0.0 && a >= 0.0 && -p <= x <= p && -s <= y <= s
    ensures Form(q, m, a, x, y) <= Form(q, m, a, p, s)
  {
  }

  /** An energy level no record can take the error above once it is below. */
  ghost predicate Level(g: Gain, jitter: real, level: real) {
    Added(g.Q(), KickBound(g, jitter)) <= Room(g.Q(), level)
  }

  lemma SharesGrow(q: real, v: real, level: real, kick: real, most: real)
    requires 0.0 < q < 1.0 && v <= level && kick <= most
    ensures Left(q, v) <= Left(q, level) && Added(q, kick) <= Added(q, most)
  {
    MulPos(1.0 - q, 1.0 + q);
    MulLe((1.0 - q) * (1.0 + q) / 2.0, v, level);
    MulLe(1.0 + q, kick, most);
  }

  lemma ShareCancels(q: real, v: real, level: real)
    requires q < 1.0 && Portion(q, v) <= Portion(q, level)
    ensures v <= level
  {
    CancelEqual(1.0 - q, v, level, Portion(q, v), Portion(q, level));
  }

  lemma CancelEqual(k: real, x: real, y: real, u: real, w: real)
    requires k > 0.0 && u == k * x && w == k * y && u <= w
    ensures x <= y
  {
  }

  lemma LevelHolds(q: real, v: real, kick: real, most: real, level: real, v': real)
    requires 0.0 < q < 1.0 && v <= level && kick <= most
    requires Added(q, most) <= Room(q, level) && StepBound(q, v, kick, v')
    ensures v' <= level
  {
    hide Portion;
    hide Left;
    hide Room;
    hide Added;
    SharesGrow(q, v, level, kick, most);
    Shares(q, level);
    ShareCancels(q, v', level);
  }

  lemma LevelKept(g: Gain, jitter: real, level: real, x: Err, j: real, r: real)
    requires g.Stable() && Level(g, jitter, level) && V(g, x) <= level
    requires -jitter <= j <= jitter && -0.5 <= r <= 0.5
    ensures V(g, Step(g, x, j, r)) <= level
  {
    hide Gain.Q;
    hide Gain.D;
    hide V;
    hide Step;
    hide Kick;
    hide KickBound;
    hide Portion;
    hide Left;
    hide Room;
    hide Added;
    StableFacts(g);
    DisturbedEnergy(g, x, j, r);
    KickIsBounded(g, jitter, j, r);
    LevelHolds(g.Q(), V(g, x), Kick(g, j, r), KickBound(g, jitter), level, V(g, Step(g, x, j, r)));
  }

  /** Such a level exists, and depends on the jitter and the gains only. */
  lemma LevelExists(g: Gain, jitter: real) returns (level: real)
    requires g.Stable()
    ensures forall higher: real :: level <= higher ==> Level(g, jitter, higher)
  {
    hide Gain.D;
    hide Gain.Q;
    hide KickBound;
    hide Room;
    hide Added;
    StableFacts(g);
    level := LevelQuotient(g.Q(), KickBound(g, jitter));
    forall higher: real | level <= higher
      ensures Level(g, jitter, higher)
    {
      RoomGrows(g.Q(), level, higher);
    }
  }

  lemma LevelQuotient(q: real, kick: real) returns (level: real)
    requires 0.0 < q < 1.0
    ensures Added(q, kick) == Room(q, level)
  {
    var part := Divide((1.0 + q) * kick, 1.0 - q);
    level := Divide(part, (1.0 - q) / 2.0);
  }

  lemma Divide(x: real, k: real) returns (y: real)
    requires k > 0.0
    ensures k * y == x
  {
    y := x / k;
  }

  lemma RoomGrows(q: real, level: real, higher: real)
    requires q < 1.0 && level <= higher
    ensures Room(q, level) <= Room(q, higher)
  {
    MulLe((1.0 - q) / 2.0, level, higher);
    MulLe(1.0 - q, (1.0 - q) / 2.0 * level, (1.0 - q) / 2.0 * higher);
  }

  /** The disturbances of one record. */
  datatype Disturbance = Disturbance(j: real, r: real)

  ghost predicate Within(jitter: real, w: Disturbance) {
    -jitter <= w.j <= jitter && -0.5 <= w.r <= 0.5
  }

  function RunErr(g: Gain, x: Err, ws: seq<Disturbance>): Err {
    if ws == [] then x
    else Step(g, RunErr(g, x, ws[..|ws| - 1]), ws[|ws| - 1].j, ws[|ws| - 1].r)
  }

  /** On runs of any length the energy stays below the level, so rounding and jitter never add up to a drift. */
  lemma {:induction false} NoDrift(g: Gain, jitter: real, level: real, x: Err, ws: seq<Disturbance>)
    requires g.Stable() && Level(g, jitter, level) && V(g, x) <= level
    requires forall w <- ws :: Within(jitter, w)
    ensures V(g, RunErr(g, x, ws)) <= level
  {
    hide V;
    hide Step;
    hide Level;
    if ws != [] {
      var n := |ws| - 1;
      assert Within(jitter, ws[n]);
      NoDrift(g, jitter, level, x, ws[..n]);
      LevelKept(g, jitter, level, RunErr(g, x, ws[..n]), ws[n].j, ws[n].r);
    }
  }

  // ---------- What a run settles to ----------

  /** A disturbed step takes the excess of the energy over a level down by a fixed factor. */
  lemma ExcessShrinks(g: Gain, jitter: real, level: real, x: Err, w: Disturbance)
    requires g.Stable() && Level(g, jitter, level) && Within(jitter, w)
    ensures V(g, Step(g, x, w.j, w.r)) - level <= (1.0 + g.Q()) / 2.0 * (V(g, x) - level)
  {
    hide Gain.Q;
    hide Gain.D;
    hide V;
    hide Step;
    hide Kick;
    hide KickBound;
    hide StepBound;
    hide Added;
    hide Room;
    StableFacts(g);
    DisturbedEnergy(g, x, w.j, w.r);
    KickIsBounded(g, jitter, w.j, w.r);
    ExcessBound(g.Q(), V(g, x), Kick(g, w.j, w.r), KickBound(g, jitter), level, V(g, Step(g, x, w.j, w.r)));
  }

  lemma ExcessBound(q: real, v: real, kick: real, most: real, level: real, v': real)
    requires 0.0 < q < 1.0 && kick <= most && StepBound(q, v, kick, v') && Added(q, most) <= Room(q, level)
    ensures v' - level <= (1.0 + q) / 2.0 * (v - level)
  {
    hide Portion;
    hide Left;
    hide Room;
    hide Added;
    SharesGrow(q, v, v, kick, most);
    var mean := level + (1.0 + q) / 2.0 * (v - level);
    ShareOfMean(q, v, level);
    ShareCancels(q, v', mean);
  }

  lemma ShareOfMean(q: real, v: real, level: real)
    ensures Left(q, v) + Room(q, level) == Portion(q, level + (1.0 + q) / 2.0 * (v - level))
  {
  }

  lemma {:induction false} ExcessAfter(g: Gain, jitter: real, level: real, x: Err, ws: seq<Disturbance>)
    requires g.Stable() && Level(g, jitter, level) && forall w <- ws :: Within(jitter, w)
    ensures V(g, RunErr(g, x, ws)) - level <= Pow((1.0 + g.Q()) / 2.0, |ws|) * (V(g, x) - level)
  {
    hide V;
    hide Step;
    hide Level;
    hide Gain.Q;
    hide Gain.D;
    if ws != [] {
      var n, f := |ws| - 1, (1.0 + g.Q()) / 2.0;
      var before := RunErr(g, x, ws[..n]);
      assert Within(jitter, ws[n]);
      ExcessAfter(g, jitter, level, x, ws[..n]);
      ExcessShrinks(g, jitter, level, before, ws[n]);
      StableFacts(g);
      MulLe(f, V(g, before) - level, Pow(f, n) * (V(g, x) - level));
      Associate(f, Pow(f, n), V(g, x) - level);
    }
  }

  /** Whatever the first error, from some record on the energy is within any margin of a level that the jitter
      and the gains alone determine; from which record on depends on the first error only. */
  lemma RunsSettle(g: Gain, jitter: real, level: real, x: Err, margin: real) returns (from: nat)
    requires g.Stable() && Level(g, jitter, level) && margin > 0.0
    ensures forall ws: seq<Disturbance> | from <= |ws| && (forall w <- ws :: Within(jitter, w)) ::
              V(g, RunErr(g, x, ws)) <= level + margin
  {
    hide V;
    hide RunErr;
    hide Level;
    hide Within;
    hide Pow;
    hide Gain.Q;
    hide Gain.D;
    StableFacts(g);
    var f, excess := (1.0 + g.Q()) / 2.0, V(g, x) - level;
    var high := if excess > 1.0 then excess else 1.0;
    var small := PositiveQuotient(margin, high);
    from := PowVanishes(f, small);
    forall ws: seq<Disturbance> | from <= |ws| && (forall w <- ws :: Within(jitter, w))
      ensures V(g, RunErr(g, x, ws)) <= level + margin
    {
      ExcessAfter(g, jitter, level, x, ws);
      PowPositive(f, |ws|);
      MulLe(Pow(f, |ws|), excess, high);
      MulLe(high, Pow(f, |ws|), small);
    }
  }

  lemma PowPositive(q: real, k: nat)
    requires 0.0 < q < 1.0
    ensures Pow(q, k) > 0.0
  {
    PowBound(q, k);
  }
}
