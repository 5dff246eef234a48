/** Times in ticks, and the conversions to integers that the C code makes with them. */
module HpTime {

  /** Ticks in a second. */
  const HPTMODULUS: int := 1000000

  /** Division of integers: toward zero. */
  function Quot(x: int, y: int): int
    requires y > 0
  {
    if x >= 0 then x / y else -(-x / y)
  }

  /** Conversion of a floating-point number to an integer: toward zero. */
  function Trunc(x: real): int {
    if x >= 0.0 then x.Floor else -(-x).Floor
  }

  /** Both drop the fraction: the result is the nearest integer that is not farther from zero. */
  lemma TowardZero(x: int, y: int, z: real)
    requires y > 0
    ensures x == Quot(x, y) * y + (if x >= 0 then x % y else -(-x % y))
    ensures z >= 0.0 ==> Trunc(z) as real <= z < Trunc(z) as real + 1.0
    ensures z <= 0.0 ==> Trunc(z) as real - 1.0 < z <= Trunc(z) as real
  {
    Whole(if x >= 0 then x else -x, y);
  }

  lemma Whole(x: nat, y: int)
    requires y > 0
    ensures x == x / y * y + x % y && -(x / y) * y == -(x / y * y)
  {
  }
}
