/**
 * Arithmetic on doubles, modelled exactly on the reals: std::floor, std::ceil,
 * std::abs, and the integer parts of std::log10 and std::pow(10, e) that the
 * tick algorithms use.
 */
module RealMath {

  function Abs(x: real): (r: real)
    ensures r >= 0.0 && (r == x || r == -x)
  {
    if x < 0.0 then -x else x
  }

  function Max(a: real, b: real): real { if a < b then b else a }

  function Min(a: real, b: real): real { if b < a then b else a }

  /** std::floor, as an integer. */
  function Floor(x: real): (r: int)
    ensures r as real <= x < r as real + 1.0
  {
    x.Floor
  }

  /** std::ceil, as an integer. */
  function Ceil(x: real): (r: int)
    ensures r as real - 1.0 < x <= r as real
  {
    -((-x).Floor)
  }

  /** std::pow(10.0, e) for an integer exponent. */
  function Pow10(e: int): (p: real)
    ensures p > 0.0
    decreases if e < 0 then -e else e
  {
    if e == 0 then 1.0
    else if e > 0 then 10.0 * Pow10(e - 1)
    else Pow10(e + 1) / 10.0
  }

  lemma {:induction false} Pow10Step(e: int)
    ensures Pow10(e + 1) == 10.0 * Pow10(e)
    decreases if e < 0 then -e else e
  {
    if e < -1 {
      Pow10Step(e + 1);
    }
  }

  lemma {:induction false} Pow10Inverse(e: int)
    ensures Pow10(e) * Pow10(-e) == 1.0
    decreases if e < 0 then -e else e
  {
    if e > 0 {
      Pow10Inverse(e - 1);
      Pow10Step(-e);
      assert Pow10(-e + 1) == 10.0 * Pow10(-e);
    } else if e < 0 {
      Pow10Inverse(e + 1);
      Pow10Step(e);
    }
  }

  /** Every non-negative power of ten is a whole number at least one. */
  lemma {:induction false} Pow10Whole(n: nat)
    ensures Pow10(n) >= 1.0 && Pow10(n) == Pow10(n).Floor as real
  {
    if n > 0 {
      Pow10Whole(n - 1);
      var k := Pow10(n - 1).Floor;
      assert Pow10(n) == (10 * k) as real;
    }
  }

  /**
   * std::floor(std::log10(x)) for x > 0: the exponent of the largest power of
   * ten that does not exceed x.
   */
  function Log10Floor(x: real): (e: int)
    requires x > 0.0
    ensures Pow10(e) <= x < Pow10(e + 1)
    decreases if x < 1.0 then 1 else 0, if x < 1.0 then (1.0 / x).Floor else x.Floor
  {
    if x >= 10.0 then
      var e := Log10Floor(x / 10.0);
      Pow10Step(e);
      Pow10Step(e + 1);
      e + 1
    else if x >= 1.0 then
      Pow10Step(0);
      0
    else
      var e := Log10Floor(x * 10.0);
      Pow10Step(e - 1);
      Pow10Step(e);
      e - 1
  }

  /** The exponent is the only one that brackets x. */
  lemma Log10FloorUnique(x: real, e: int)
    requires x > 0.0 && Pow10(e) <= x < Pow10(e + 1)
    ensures Log10Floor(x) == e
  {
    var k := Log10Floor(x);
    if k < e {
      Pow10Monotone(k + 1, e);
    } else if k > e {
      Pow10Monotone(e + 1, k);
    }
  }

  lemma {:induction false} Pow10Monotone(a: int, b: int)
    requires a <= b
    ensures Pow10(a) <= Pow10(b)
    decreases b - a
  {
    if a < b {
      Pow10Monotone(a, b - 1);
      Pow10Step(b - 1);
    }
  }

  /** The exponent is non-negative exactly for x >= 1. */
  lemma Log10FloorSign(x: real)
    requires x > 0.0
    ensures Log10Floor(x) >= 0 <==> x >= 1.0
  {
    var e := Log10Floor(x);
    if e >= 0 {
      Pow10Monotone(0, e);
    } else {
      Pow10Monotone(e + 1, 0);
    }
  }

  lemma MulStrict(a: real, b: real, p: real)
    requires a < b && p > 0.0
    ensures a * p < b * p
  {
  }

  lemma MulWeak(a: real, b: real, p: real)
    requires a <= b && p >= 0.0
    ensures a * p <= b * p
  {
  }

  lemma MulLeftWeak(p: real, a: real, b: real)
    requires a <= b && p >= 0.0
    ensures p * a <= p * b
  {
  }

  lemma DivMonotone(x: real, y: real, v: real)
    requires x <= y && v > 0.0
    ensures x / v <= y / v
  {
  }

  /** A product with a positive factor has the sign of the other factor. */
  lemma ProductSign(d: real, s: real)
    requires s > 0.0
    ensures d >= 0.0 <==> d * s >= 0.0
    ensures d <= 0.0 <==> d * s <= 0.0
  {
    if d > 0.0 { MulStrict(0.0, d, s); }
    if d < 0.0 { MulStrict(d, 0.0, s); }
  }

  /** The fraction t with a == t * b for a non-zero b. */
  lemma FractionOf(a: real, b: real, t: real)
    requires b != 0.0 && a == t * b
    ensures t == a / b
  {
  }

  /** Dividing by a non-zero number and multiplying back is the identity. */
  lemma DivMul(a: real, b: real)
    requires b != 0.0
    ensures (a / b) * b == a
  {
  }

  lemma DivNonNegative(a: real, b: real)
    requires a >= 0.0 && b > 0.0
    ensures a / b >= 0.0
  {
  }

  /** Multiplication distributes over a difference. */
  lemma MulDifference(c: real, a: real, b: real)
    ensures c * a - c * b == c * (a - b)
  {
  }

  /** Two points counted in steps from the same origin are apart by the difference of their counts. */
  lemma OffsetsApart(origin: real, step: real, lead: real, i: real, j: real)
    ensures (origin + step * (lead + j)) - (origin + step * (lead + i)) == step * (j - i)
  {
    MulDifference(step, lead + j, lead + i);
  }

  /** A non-negative quantity shared into at least one part: each part is between zero and the whole. */
  lemma ShareWithin(width: real, d: real)
    requires width >= 0.0 && d >= 1.0
    ensures 0.0 <= width / d <= width
    ensures (width / d) * d == width
  {
    DivMul(width, d);
    DivNonNegative(width, d);
    MulLeftWeak(width / d, 1.0, d);
  }

  /** Multiplication distributes over a sum. */
  lemma MulAddDistrib(a: real, b: real, u: real)
    ensures (a + b) * u == a * u + b * u
  {
  }

  /** A count grown by v, scaled by u from an origin, moves the point on by v scaled by u. */
  lemma AdvanceBy(origin: real, a: real, b: real, v: real, u: real)
    requires b == a + v
    ensures origin + b * u == (origin + a * u) + v * u
  {
    MulAddDistrib(a, v, u);
  }
}
