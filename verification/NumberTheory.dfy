/** Remainders, common divisors and Bezout's identity. */
module NumberTheory {

  // ---------- Products ----------

  lemma Distribute(a: int, b: int, c: int)
    ensures (a + b) * c == a * c + b * c && (a - b) * c == a * c - b * c
  {
  }

  lemma Associate(a: int, b: int, c: int)
    ensures a * b * c == a * (b * c)
  {
  }

  lemma Exchange(a: int, b: int, c: int, d: int)
    ensures (a * b) * (c * d) == (a * c) * (b * d)
  {
  }

  lemma AtLeast(d: int, m: int)
    requires d >= 1 && m >= 0
    ensures d * m >= m
  {
  }

  lemma SmallMultiple(d: int, m: int)
    requires m > 0 && -m < d * m < m
    ensures d == 0
  {
  }

  lemma Cancel(a: int, b: int, g: int)
    requires g > 0 && a * g == b * g
    ensures a == b
  {
  }

  // ---------- Remainders ----------

  ghost predicate Divides(m: int, a: int) {
    exists q :: Multiple(a, q, m)
  }

  predicate Multiple(a: int, q: int, m: int) {
    a == q * m
  }

  lemma Split(a: int, m: int)
    requires m > 0
    ensures a == a / m * m + a % m && 0 <= a % m < m
  {
  }

  /** Equal remainders are a difference that the modulus divides. */
  lemma ModEqual(a: int, b: int, m: int)
    requires m > 0
    ensures a % m == b % m <==> Divides(m, a - b)
  {
    Split(a, m);
    Split(b, m);
    Distribute(a / m, b / m, m);
    if a % m == b % m {
      assert Multiple(a - b, a / m - b / m, m);
    }
    if Divides(m, a - b) {
      var q :| Multiple(a - b, q, m);
      Distribute(q, a / m - b / m, m);
      SmallMultiple(q - (a / m - b / m), m);
    }
  }

  lemma ModShift(a: int, q: int, m: int)
    requires m > 0
    ensures (a + q * m) % m == a % m
  {
    assert Multiple(a + q * m - a, q, m);
    ModEqual(a + q * m, a, m);
  }

  lemma ModAdd(a: int, b: int, m: int)
    requires m > 0
    ensures (a % m + b) % m == (a + b) % m
  {
    Split(a, m);
    ModShift(a % m + b, a / m, m);
  }

  lemma ModSmall(a: int, m: int)
    requires 0 <= a < m
    ensures a % m == a
  {
  }

  lemma DividesSmall(m: int, a: int)
    requires m > 0 && Divides(m, a) && -m < a < m
    ensures a == 0
  {
  }

  // ---------- Greatest common divisors ----------

  function Gcd(a: nat, b: nat): (g: nat)
    decreases b
  {
    if b == 0 then a else Gcd(b, a % b)
  }

  lemma BezoutStep(a: nat, b: nat, u: int, v: int)
    requires b > 0
    ensures v * a + (u - v * (a / b)) * b == u * b + v * (a % b)
  {
  }

  /** Bezout's identity. */
  lemma {:induction false} Bezout(a: nat, b: nat) returns (x: int, y: int)
    ensures x * a + y * b == Gcd(a, b)
    decreases b
  {
    if b == 0 {
      x, y := 1, 0;
    } else {
      var u, v := Bezout(b, a % b);
      x, y := v, u - v * (a / b);
      BezoutStep(a, b, u, v);
    }
  }

  lemma Combination(d: int, a: int, b: int, x: int, y: int)
    requires Divides(d, a) && Divides(d, b)
    ensures Divides(d, x * a + y * b)
  {
    var p :| Multiple(a, p, d);
    var q :| Multiple(b, q, d);
    Associate(x, p, d);
    Associate(y, q, d);
    Distribute(x * p, y * q, d);
    assert Multiple(x * a + y * b, x * p + y * q, d);
  }

  lemma {:induction false} GcdDivides(a: nat, b: nat)
    ensures Divides(Gcd(a, b), a) && Divides(Gcd(a, b), b)
    decreases b
  {
    var g := Gcd(a, b);
    if b == 0 {
      assert Multiple(a, 1, a) && Multiple(0, 0, a);
    } else {
      GcdDivides(b, a % b);
      Split(a, b);
      Combination(g, b, a % b, a / b, 1);
    }
  }

  /** Every common divisor divides the greatest one. */
  lemma GcdGreatest(a: nat, b: nat, d: nat)
    requires Divides(d, a) && Divides(d, b)
    ensures Divides(d, Gcd(a, b))
  {
    var x, y := Bezout(a, b);
    Combination(d, a, b, x, y);
  }

  /** How many strides of `r` bring a position on a ring of `m` back to itself. */
  function Period(m: nat, r: nat): (p: nat)
    requires m > 0
    ensures p > 0 && p * Gcd(m, r) == m && Gcd(m, r) > 0
  {
    GcdDivides(m, r);
    PeriodExact(m, Gcd(m, r));
    m / Gcd(m, r)
  }

  lemma PeriodExact(m: nat, g: nat)
    requires m > 0 && Divides(g, m)
    ensures g > 0 && m / g > 0 && m / g * g == m
  {
    var q :| Multiple(m, q, g);
    assert g > 0;
    Split(m, g);
    Distribute(q, m / g, g);
    SmallMultiple(q - m / g, g);
  }

  lemma PeriodStrides(m: nat, g: nat, p: nat, r: nat, k: int)
    requires m > 0 && p * g == m && Divides(g, r) && Divides(p, k)
    ensures Divides(m, k * r)
  {
    var q :| Multiple(k, q, p);
    var s :| Multiple(r, s, g);
    Exchange(q, p, s, g);
    assert Multiple(k * r, q * s, m);
  }

  lemma StridesPeriod(m: nat, g: nat, p: nat, r: nat, k: int, x: int, y: int)
    requires m > 0 && g > 0 && p * g == m && x * m + y * r == g && Divides(m, k * r)
    ensures Divides(p, k)
  {
    // m divides k * r and k * m, so it divides k * g
    assert Multiple(k * m, k, m);
    Combination(m, k * m, k * r, x, y);
    ScaledCombination(k, x, m, y, r);
    var q :| Multiple(k * g, q, m);
    Associate(q, p, g);
    Cancel(k, q * p, g);
    assert Multiple(k, q, p);
  }

  lemma ScaledCombination(k: int, x: int, m: int, y: int, r: int)
    ensures x * (k * m) + y * (k * r) == k * (x * m + y * r)
  {
  }

  /** A ring of `m` is back in place after `k` strides of `r` exactly when the period divides `k`. */
  lemma StridePeriod(m: nat, r: nat, k: int)
    requires m > 0
    ensures Divides(m, k * r) <==> Divides(Period(m, r), k)
  {
    hide Divides;
    var g, p := Gcd(m, r), Period(m, r);
    hide Gcd;
    hide Period;
    GcdDivides(m, r);
    if Divides(p, k) {
      PeriodStrides(m, g, p, r, k);
    }
    if Divides(m, k * r) {
      var x, y := Bezout(m, r);
      StridesPeriod(m, g, p, r, k, x, y);
    }
  }
}
