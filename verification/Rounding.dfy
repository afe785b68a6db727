/**
 * `toFixed` on exact numbers: nearest, ties away from zero. Rounding to cents is monotone, leaves whole cents alone,
 * and cannot leave a band whose ends are widened to their own cents.
 */
module Rounding {

  /** `toFixed(d)` for `scale` = 10^d. */
  function ToFixed(x: real, scale: real): real
    requires scale > 0.0
  {
    if x < 0.0 then -((-x * scale + 0.5).Floor as real) / scale else (x * scale + 0.5).Floor as real / scale
  }

  lemma Quotient(x: real, y: real, z: real)
    requires z > 0.0 && x * z == y
    ensures x == y / z
  {
  }

  lemma NonNegativeProduct(x: real, y: real)
    requires x >= 0.0 && y >= 0.0
    ensures x * y >= 0.0
  {
  }

  /** A number that already has no more than that many places is left alone. */
  lemma ToFixedFixesWholeSteps(x: real, scale: real, n: int)
    requires scale > 0.0 && x * scale == n as real
    ensures ToFixed(x, scale) == x
  {
    if x < 0.0 {
      assert -x * scale == -(x * scale) == (-n) as real;
      FloorOfHalf(-n);
      Quotient(-x, (-n) as real, scale);
    } else {
      FloorOfHalf(n);
      Quotient(x, n as real, scale);
    }
  }

  lemma FloorIs(x: real, n: int)
    ensures x.Floor == n <==> n as real <= x < n as real + 1.0
  {
  }

  /** The nearest number of that many places; of two that are as near, the one further from zero. */
  ghost predicate IsNearest(steps: real, n: int) {
    if steps >= 0.0 then n as real - 0.5 <= steps < n as real + 0.5 else n as real - 0.5 < steps <= n as real + 0.5
  }

  lemma ToFixedIsNearest(x: real, scale: real, n: int)
    requires scale > 0.0
    ensures ToFixed(x, scale) * scale == n as real <==> IsNearest(x * scale, n)
  {
    if x < 0.0 {
      NonNegativeProduct(-x, scale);
      FloorIs(-x * scale + 0.5, -n);
      var k := (-x * scale + 0.5).Floor;
      assert -(k as real) / scale * scale == -(k as real);
      assert -x * scale == -(x * scale);
      if x * scale >= 0.0 {
        Quotient(x, 0.0, scale);
      }
    } else {
      NonNegativeProduct(x, scale);
      FloorIs(x * scale + 0.5, n);
      var k := (x * scale + 0.5).Floor;
      assert k as real / scale * scale == k as real;
    }
  }

  function HalfUp(x: real): int {
    (x * 100.0 + 0.5).Floor
  }

  /** Rounding to cents. */
  function Round2(x: real): real {
    ToFixed(x, 100.0)
  }

  /** A whole number of cents. */
  function Cents(n: int): real {
    n as real / 100.0
  }

  lemma FloorMonotone(x: real, y: real)
    requires x <= y
    ensures x.Floor <= y.Floor
  {
  }

  lemma HalfUpMonotone(x: real, y: real)
    requires x <= y
    ensures HalfUp(x) <= HalfUp(y)
  {
    FloorMonotone(x * 100.0 + 0.5, y * 100.0 + 0.5);
  }

  lemma HalfUpOfCents(n: int)
    ensures HalfUp(n as real / 100.0) == n
  {
    var x := n as real / 100.0;
    assert x * 100.0 == n as real;
    FloorOfHalf(n);
  }

  lemma FloorOfHalf(n: int)
    ensures (n as real + 0.5).Floor == n
  {
  }

  lemma HalfUpNonNegative(x: real)
    requires 0.0 <= x
    ensures HalfUp(x) >= 0
  {
    FloorMonotone(0.5, x * 100.0 + 0.5);
  }

  /** Rounding never reverses an order between two amounts. */
  lemma Round2Monotone(x: real, y: real)
    requires x <= y
    ensures Round2(x) <= Round2(y)
  {
    if 0.0 <= x {
      HalfUpMonotone(x, y);
    } else if y < 0.0 {
      HalfUpMonotone(-y, -x);
    } else {
      HalfUpNonNegative(-x);
      HalfUpNonNegative(y);
    }
  }

  /** A whole number of cents is left alone. */
  lemma Round2FixesCents(n: int)
    ensures Round2(Cents(n)) == Cents(n)
  {
    if n < 0 {
      assert -(n as real / 100.0) == (-n) as real / 100.0;
      HalfUpOfCents(-n);
    } else {
      HalfUpOfCents(n);
    }
  }

  /** The result is a whole number of cents, so a second rounding changes nothing. */
  lemma Round2Idempotent(x: real)
    ensures Round2(Round2(x)) == Round2(x)
  {
    var n := if x < 0.0 then -HalfUp(-x) else HalfUp(x);
    assert Round2(x) == n as real / 100.0;
    Round2FixesCents(n);
  }

  /** The smallest value rounding can turn `x` into while still honouring `x` as a lower bound. */
  function Below(x: real): real {
    if Round2(x) < x then Round2(x) else x
  }

  function Above(x: real): real {
    if Round2(x) > x then Round2(x) else x
  }

  /** Rounding cannot carry an amount out of a band whose ends are widened to their own cents. */
  lemma RoundingStaysInBand(lo: real, x: real, hi: real)
    requires Below(lo) <= x <= Above(hi)
    ensures Below(lo) <= Round2(x) <= Above(hi)
  {
    Round2Monotone(Below(lo), x);
    Round2Monotone(x, Above(hi));
    Round2Idempotent(lo);
    Round2Idempotent(hi);
  }
}
