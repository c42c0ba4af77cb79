/**
 * The nice-number tick kernel of include/cdv/scl/ticks.hpp. A tick spacing is
 * 1, 2, 5 or 10 times a power of ten; spacings below one are encoded as the
 * negative of their reciprocal so that the tick values can be computed as
 * whole multipliers divided by a whole number.
 */
module NiceTicks {
  import opened RealMath
  import opened Seqs

  /** `x >= sqrt(k)`, decided exactly by comparing squares. */
  predicate AtLeastRoot(x: real, k: real)
  {
    x >= 0.0 && x * x >= k
  }

  /** detail::error_factor: rounds the ratio of naive step to power of ten. */
  function ErrorFactor(error: real): (f: real)
    ensures f == 1.0 || f == 2.0 || f == 5.0 || f == 10.0
  {
    if AtLeastRoot(error, 50.0) then 10.0
    else if AtLeastRoot(error, 10.0) then 5.0
    else if AtLeastRoot(error, 2.0) then 2.0
    else 1.0
  }

  /** For non-negative values, comparing squares compares the values. */
  lemma SquareOrder(a: real, b: real)
    requires 0.0 <= a && 0.0 <= b
    ensures a <= b <==> a * a <= b * b
  {
    if a + b > 0.0 {
      ProductSign(a - b, a + b);
      assert (a - b) * (a + b) == a * a - b * b;
    }
  }

  /** A larger ratio never gets a smaller factor. */
  lemma ErrorFactorMonotone(e1: real, e2: real)
    requires e1 <= e2
    ensures ErrorFactor(e1) <= ErrorFactor(e2)
  {
    if e1 >= 0.0 {
      SquareOrder(e1, e2);
    }
  }

  /**
   * For a ratio e in [1, 10) the factor stays close to e:
   * 0.6 * e < error_factor(e) <= 1.6 * e.
   */
  lemma ErrorFactorNear(e: real)
    requires 1.0 <= e < 10.0
    ensures 0.6 * e < ErrorFactor(e) <= 1.6 * e
  {
    SquareOrder(e, 6.25);
    SquareOrder(e, 8.3);
    SquareOrder(e, 3.125);
    SquareOrder(e, 3.3);
    SquareOrder(e, 1.25);
    SquareOrder(e, 1.6);
  }

  /** detail::ascending_values: the pair in ascending order. */
  function AscendingValues(v0: real, v1: real): (r: (real, real))
    ensures r.0 <= r.1
    ensures (r.0 == v0 && r.1 == v1) || (r.0 == v1 && r.1 == v0)
  {
    if v0 < v1 then (v0, v1) else (v1, v0)
  }

  /** detail::ascending_limits: front and back of a non-empty range, ascending. */
  function AscendingLimits(s: seq<real>): (r: (real, real))
    requires |s| > 0
    ensures r.0 == Min(s[0], s[|s| - 1]) && r.1 == Max(s[0], s[|s| - 1])
  {
    AscendingValues(s[0], s[|s| - 1])
  }

  /**
   * The value tick_increment returns. For start == stop the C++ arithmetic
   * takes log10(0) == -inf and returns negative infinity.
   */
  datatype Increment = Finite(value: real) | NegInfinity

  /** The positive spacing a finite, non-zero increment encodes. */
  function Spacing(v: real): (s: real)
    requires v != 0.0
    ensures s > 0.0
  {
    if v > 0.0 then v else 1.0 / -v
  }

  /** A spacing of 1, 2, 5 or 10 times the power of ten `p`. */
  predicate IsNiceMultiple(s: real, p: real)
  {
    s == p || s == 2.0 * p || s == 5.0 * p || s == 10.0 * p
  }

  /** std::max(hint, size_t(1)). */
  function HintDivisor(hint: nat): (d: nat)
    ensures d >= 1 && (hint >= 1 ==> d == hint)
  {
    if hint < 1 then 1 else hint
  }

  /** The naive step `(stop - start) / max(hint, 1)`. */
  function NaiveStep(start: real, stop: real, hint: nat): (naive: real)
    ensures start < stop ==> naive > 0.0
  {
    (stop - start) / HintDivisor(hint) as real
  }

  /**
   * The increment for a factor f and exponent e: f * 10^e when e >= 0, and
   * otherwise the negative encoding -10^-e / f of the spacing f * 10^e.
   */
  function Encode(f: real, e: int): real
    requires f > 0.0
  {
    if e >= 0 then f * Pow10(e) else -Pow10(-e) / f
  }

  lemma ReciprocalOfQuotient(p: real, q: real, f: real)
    requires p > 0.0 && f > 0.0 && q * p == 1.0
    ensures 1.0 / (p / f) == f * q
  {
    assert 1.0 / (p / f) == f / p;
    assert q == 1.0 / p;
  }

  /** Both encodings decode to f * 10^e, and only e >= 0 gives a positive value. */
  lemma EncodeSpacing(f: real, e: int)
    requires f > 0.0
    ensures Encode(f, e) != 0.0 && (Encode(f, e) > 0.0 <==> e >= 0)
    ensures Spacing(Encode(f, e)) == f * Pow10(e)
  {
    if e < 0 {
      Pow10Inverse(e);
      ReciprocalOfQuotient(Pow10(-e), Pow10(e), f);
      assert -Encode(f, e) == Pow10(-e) / f;
    }
  }

  /** The unsigned step tick_step computes from a positive naive step: the power of ten times its factor. */
  function NiceStep(naive: real): (step: real)
    requires naive > 0.0
    ensures step > 0.0
  {
    var power := Pow10(Log10Floor(naive));
    power * ErrorFactor(naive / power)
  }

  /**
   * The value tick_increment computes from a positive naive step, with
   * e = floor(log10(naive)) and the factor of naive / 10^e.
   */
  function IncrementFor(naive: real): (v: real)
    requires naive > 0.0
    ensures v != 0.0
    ensures v > 0.0 <==> naive >= 1.0
  {
    var e := Log10Floor(naive);
    var f := ErrorFactor(naive / Pow10(e));
    Log10FloorSign(naive);
    EncodeSpacing(f, e);
    Encode(f, e)
  }

  /** The spacing the increment encodes is the step tick_step computes from the same naive step. */
  lemma IncrementForSpacing(naive: real)
    requires naive > 0.0
    ensures Spacing(IncrementFor(naive)) == NiceStep(naive)
  {
    var e := Log10Floor(naive);
    var p := Pow10(e);
    var f := ErrorFactor(naive / p);
    EncodeSpacing(f, e);
    assert f * p == p * f;
  }

  /**
   * tick_increment: negative infinity for an empty range, otherwise a finite,
   * non-zero increment that encodes a nice spacing and is positive exactly
   * when the naive step is at least one.
   */
  function TickIncrement(start: real, stop: real, hint: nat): (inc: Increment)
    requires start <= stop
    ensures inc.NegInfinity? <==> start == stop
    ensures inc.Finite? ==> inc.value != 0.0
    ensures inc.Finite? ==> (inc.value > 0.0 <==> NaiveStep(start, stop, hint) >= 1.0)
  {
    if start == stop then NegInfinity
    else Finite(IncrementFor(NaiveStep(start, stop, hint)))
  }

  /**
   * The spacing tick_increment encodes is 1, 2, 5 or 10 times the power of
   * ten at or below the naive step.
   */
  lemma TickIncrementNice(start: real, stop: real, hint: nat)
    requires start < stop
    ensures IsNiceMultiple(Spacing(TickIncrement(start, stop, hint).value), Pow10(Log10Floor(NaiveStep(start, stop, hint))))
  {
    var naive := NaiveStep(start, stop, hint);
    IncrementForNice(naive);
    assert TickIncrement(start, stop, hint) == Finite(IncrementFor(naive));
  }

  /** The spacing of the increment for a positive naive step is a nice multiple of its power of ten. */
  lemma IncrementForNice(naive: real)
    requires naive > 0.0
    ensures IsNiceMultiple(Spacing(IncrementFor(naive)), Pow10(Log10Floor(naive)))
  {
    var p := Pow10(Log10Floor(naive));
    var f := ErrorFactor(naive / p);
    NiceProduct(f, p);
    assert NiceStep(naive) == f * p;
    IncrementForSpacing(naive);
  }

  lemma NiceProduct(f: real, p: real)
    requires f == 1.0 || f == 2.0 || f == 5.0 || f == 10.0
    ensures IsNiceMultiple(f * p, p)
  {
  }

  /** A ratio of a value in [p, 10p) to p lies in [1, 10). */
  lemma RatioInDecade(naive: real, p: real)
    requires 0.0 < p <= naive < 10.0 * p
    ensures 1.0 <= naive / p < 10.0
  {
    var err := naive / p;
    assert naive == err * p;
    if err < 1.0 { MulStrict(err, 1.0, p); }
    if err >= 10.0 { MulWeak(10.0, err, p); }
  }

  /** Scaling the bounds of ErrorFactorNear by the power of ten. */
  lemma ScaledBounds(err: real, f: real, p: real, n: real, s: real)
    requires p > 0.0 && 0.6 * err < f <= 1.6 * err
    requires n == err * p && s == f * p
    ensures 0.6 * n < s <= 1.6 * n
  {
    MulStrict(0.6 * err, f, p);
    MulWeak(f, 1.6 * err, p);
  }

  /** A factor chosen for a value in [p, 10p), times p, lies within (0.6, 1.6] of the value. */
  lemma NearInDecade(naive: real, p: real, s: real)
    requires 0.0 < p <= naive < 10.0 * p
    requires s == p * ErrorFactor(naive / p)
    ensures 0.6 * naive < s <= 1.6 * naive
  {
    var err := naive / p;
    RatioInDecade(naive, p);
    ErrorFactorNear(err);
    assert s == ErrorFactor(err) * p;
    ScaledBounds(err, ErrorFactor(err), p, naive, s);
  }

  /** The spacing chosen for a naive step n lies in (0.6 * n, 1.6 * n]. */
  lemma IncrementForNear(naive: real)
    requires naive > 0.0
    ensures 0.6 * naive < Spacing(IncrementFor(naive)) <= 1.6 * naive
  {
    var e := Log10Floor(naive);
    var p := Pow10(e);
    Pow10Step(e);
    assert p <= naive < 10.0 * p;
    assert NiceStep(naive) == p * ErrorFactor(naive / p);
    NearInDecade(naive, p, NiceStep(naive));
    IncrementForSpacing(naive);
  }

  /**
   * The spacing tick_increment picks stays close to the naive step
   * (stop - start) / hint: above 0.6 and at most 1.6 times it.
   */
  lemma TickIncrementNearNaive(start: real, stop: real, hint: nat)
    requires start < stop
    ensures var n := NaiveStep(start, stop, hint);
            0.6 * n < Spacing(TickIncrement(start, stop, hint).value) <= 1.6 * n
  {
    IncrementForNear(NaiveStep(start, stop, hint));
  }

  /** The values the tests list for tick_increment. */
  lemma TickIncrementOfUnitRange()
    ensures TickIncrement(0.0, 10.0, 10) == Finite(1.0)
  {
    assert NaiveStep(0.0, 10.0, 10) == 1.0;
    assert Log10Floor(1.0) == 0;
    assert Pow10(0) == 1.0;
    assert ErrorFactor(1.0) == 1.0;
    assert Encode(1.0, 0) == 1.0;
    assert IncrementFor(1.0) == 1.0;
  }

  lemma TickIncrementOfSmallRange()
    ensures TickIncrement(-1.0, 1.0, 10) == Finite(-5.0)
  {
    assert NaiveStep(-1.0, 1.0, 10) == 0.2;
    assert Pow10(-1) == 0.1 && Pow10(0) == 1.0 && Pow10(1) == 10.0;
    Log10FloorUnique(0.2, -1);
    assert ErrorFactor(2.0) == 2.0;
    assert Encode(2.0, -1) == -5.0;
    assert IncrementFor(0.2) == -5.0;
  }

  lemma TickIncrementOfTinyRange()
    ensures TickIncrement(0.0001, 0.01, 10) == Finite(-1000.0)
  {
    assert NaiveStep(0.0001, 0.01, 10) == 0.00099;
    assert Pow10(-4) == 0.0001 && Pow10(-3) == 0.001 && Pow10(4) == 10000.0;
    Log10FloorUnique(0.00099, -4);
    assert ErrorFactor(9.9) == 10.0;
    assert Encode(10.0, -4) == -1000.0;
    assert IncrementFor(0.00099) == -1000.0;
  }

  lemma TickIncrementOfEmptyRange()
    ensures TickIncrement(1.0, 1.0, 10) == NegInfinity
  {
  }

  /**
   * tick_step: the signed nice step between start and stop. For start == stop
   * the C++ arithmetic gives pow(10, floor(log10(0))) == 0 and so a step of 0.
   */
  function TickStep(start: real, stop: real, hint: nat): (step: real)
    ensures step > 0.0 <==> start < stop
    ensures step < 0.0 <==> stop < start
  {
    if start == stop then 0.0
    else
      var result := NiceStep(Abs(stop - start) / HintDivisor(hint) as real);
      if stop < start then -result else result
  }

  /** tick_step(a, b, h) == -tick_step(b, a, h). */
  lemma TickStepAntisymmetric(a: real, b: real, hint: nat)
    ensures TickStep(a, b, hint) == -TickStep(b, a, hint)
  {
    assert Abs(b - a) == Abs(a - b);
  }

  /** On an ascending pair tick_step is the spacing tick_increment encodes. */
  lemma TickStepIsSpacing(start: real, stop: real, hint: nat)
    requires start < stop
    ensures TickStep(start, stop, hint) == Spacing(TickIncrement(start, stop, hint).value)
  {
    var naive := NaiveStep(start, stop, hint);
    assert Abs(stop - start) / HintDivisor(hint) as real == naive;
    IncrementForSpacing(naive);
    assert TickIncrement(start, stop, hint) == Finite(IncrementFor(naive));
  }

  /** The tick at multiplier k of the grid with spacing s. */
  function GridPoint(k: int, s: real): real
  {
    k as real * s
  }

  /** Neighbouring multipliers are one spacing apart. */
  lemma GridPointStep(k: int, s: real)
    ensures GridPoint(k + 1, s) == GridPoint(k, s) + s
  {
  }

  /** Grid points grow with the multiplier for a positive spacing. */
  lemma GridPointMonotone(j: int, k: int, s: real)
    requires j <= k && s > 0.0
    ensures GridPoint(j, s) <= GridPoint(k, s)
  {
    MulWeak(j as real, k as real, s);
  }

  /** k >= x / s exactly when the grid point k * s is at or above x, and likewise for <=. */
  lemma GridPointBounds(k: int, x: real, s: real)
    requires s > 0.0
    ensures (k as real >= x / s) <==> (GridPoint(k, s) >= x)
    ensures (k as real <= x / s) <==> (GridPoint(k, s) <= x)
  {
    var d := k as real - x / s;
    ProductSign(d, s);
    assert d * s == GridPoint(k, s) - x;
  }

  /**
   * The contents of make_tick_vector(first, last, increment, reverse): the
   * values (first + i) * increment for i = 0 .. last - first, back to front
   * when `reverse`.
   */
  function TickVector(first: int, last: int, increment: real, reverse: bool): (r: seq<real>)
    requires first <= last + 1
    ensures |r| == last - first + 1
  {
    var n := last - first + 1;
    seq(n, i requires 0 <= i < n => GridPoint(first + (if reverse then n - 1 - i else i), increment))
  }

  /**
   * detail::fill_tick_values over `a`, or over its reversed view when
   * `reverse`: the element at enumeration index i becomes (first + i) * increment.
   */
  method FillTickValues(first: int, increment: real, a: array<real>, reverse: bool)
    modifies a
    ensures a[..] == TickVector(first, first + a.Length - 1, increment, reverse)
  {
    var n := a.Length;
    var index := 0;
    while index < n
      invariant 0 <= index <= n
      invariant forall j :: 0 <= j < n && (if reverse then n - index <= j else j < index) ==>
        a[j] == GridPoint(first + (if reverse then n - 1 - j else j), increment)
    {
      var position := if reverse then n - 1 - index else index;
      a[position] := (first + index) as real * increment;
      index := index + 1;
    }
    var expected := TickVector(first, first + n - 1, increment, reverse);
    assert forall j :: 0 <= j < n ==> a[j] == expected[j];
  }

  /**
   * detail::make_tick_vector: allocates last - first + 1 values and fills them,
   * so neighbours differ by exactly the increment.
   */
  method MakeTickVector(first: int, last: int, increment: real, reverse: bool) returns (r: seq<real>)
    requires first <= last + 1
    ensures r == TickVector(first, last, increment, reverse)
    ensures |r| == last - first + 1
    ensures forall i :: 0 <= i < |r| - 1 ==>
      r[i + 1] - r[i] == if reverse then -increment else increment
  {
    var a := new real[last - first + 1];
    FillTickValues(first, increment, a, reverse);
    r := a[..];
    forall i | 0 <= i < |r| - 1
      ensures r[i + 1] - r[i] == if reverse then -increment else increment
    {
      var k := first + (if reverse then |r| - 2 - i else i);
      GridPointStep(k, increment);
      if reverse {
        assert r[i] == GridPoint(k + 1, increment) && r[i + 1] == GridPoint(k, increment);
      } else {
        assert r[i] == GridPoint(k, increment) && r[i + 1] == GridPoint(k + 1, increment);
      }
    }
  }

  /** Reversing the fill direction reverses the vector. */
  lemma TickVectorReverse(first: int, last: int, increment: real)
    requires first <= last + 1
    ensures TickVector(first, last, increment, true) == Reverse(TickVector(first, last, increment, false))
  {
    var down := TickVector(first, last, increment, true);
    var up := TickVector(first, last, increment, false);
    assert forall i :: 0 <= i < |down| ==> down[i] == Reverse(up)[i];
  }

  /** `x / s` in the form the source computes it for either encoding of s. */
  lemma ScaledBySpacing(x: real, v: real)
    requires v != 0.0
    ensures x / Spacing(v) == if v > 0.0 then x / v else x * -v
  {
  }

  /**
   * The multiplier of the first tick, ceil(a / inc) or ceil(a * -inc): in
   * either encoding the smallest k with k * spacing >= lo.
   */
  function FirstMultiplier(lo: real, v: real): (k: int)
    requires v != 0.0
    ensures k == Ceil(lo / Spacing(v))
  {
    ScaledBySpacing(lo, v);
    if v > 0.0 then Ceil(lo / v) else Ceil(lo * -v)
  }

  /**
   * The multiplier of the last tick, floor(b / inc) or floor(b * -inc): in
   * either encoding the largest k with k * spacing <= hi.
   */
  function LastMultiplier(hi: real, v: real): (k: int)
    requires v != 0.0
    ensures k == Floor(hi / Spacing(v))
  {
    ScaledBySpacing(hi, v);
    if v > 0.0 then Floor(hi / v) else Floor(hi * -v)
  }

  /** ceil(lo / s) <= floor(hi / s) + 1, so the tick vector's length is never negative. */
  lemma MultiplierRange(lo: real, hi: real, v: real)
    requires lo <= hi && v != 0.0
    ensures FirstMultiplier(lo, v) <= LastMultiplier(hi, v) + 1
  {
    DivMonotone(lo, hi, Spacing(v));
  }

  /** The same bound on the multipliers as the source computes them. */
  lemma SourceMultiplierRange(lo: real, hi: real, v: real)
    requires lo <= hi && v != 0.0
    ensures v > 0.0 ==> Ceil(lo / v) <= Floor(hi / v) + 1
    ensures v < 0.0 ==> Ceil(lo * -v) <= Floor(hi * -v) + 1
  {
    if v > 0.0 { DivMonotone(lo, hi, v); } else { MulWeak(lo, hi, -v); }
  }

  /**
   * The ticks of increment v between lo <= hi: the multiples of its spacing
   * from the first to the last multiplier, back to front when `reverse`.
   */
  function GridTicks(lo: real, hi: real, v: real, reverse: bool): (r: seq<real>)
    requires lo <= hi && v != 0.0
    ensures |r| == LastMultiplier(hi, v) - FirstMultiplier(lo, v) + 1
  {
    MultiplierRange(lo, hi, v);
    TickVector(FirstMultiplier(lo, v), LastMultiplier(hi, v), Spacing(v), reverse)
  }

  /** The grid written with the multipliers and spacing as the source computes them. */
  lemma SourceGrid(lo: real, hi: real, v: real, reverse: bool)
    requires lo <= hi && v != 0.0
    ensures v > 0.0 ==>
              && Ceil(lo / v) <= Floor(hi / v) + 1
              && GridTicks(lo, hi, v, reverse) == TickVector(Ceil(lo / v), Floor(hi / v), v, reverse)
    ensures v < 0.0 ==>
              && Ceil(lo * -v) <= Floor(hi * -v) + 1
              && GridTicks(lo, hi, v, reverse) == TickVector(Ceil(lo * -v), Floor(hi * -v), 1.0 / -v, reverse)
  {
    SourceMultiplierRange(lo, hi, v);
    if v < 0.0 {
      assert FirstMultiplier(lo, v) == Ceil(lo * -v);
      assert LastMultiplier(hi, v) == Floor(hi * -v);
      assert Spacing(v) == 1.0 / -v;
    }
  }

  /**
   * The tail of linear_ticks once the increment is known: no ticks for an
   * infinite or zero increment, otherwise the tick vector from ceil(a / inc)
   * to floor(b / inc), or for a negative increment from ceil(a * -inc) to
   * floor(b * -inc) with spacing 1 / -inc.
   */
  function TicksOfIncrement(lo: real, hi: real, inc: Increment, reverse: bool): (r: seq<real>)
    requires lo <= hi
    ensures inc.Finite? && inc.value != 0.0 ==> r == GridTicks(lo, hi, inc.value, reverse)
  {
    match inc
    case NegInfinity => []
    case Finite(v) =>
      if v == 0.0 then []
      else
        SourceGrid(lo, hi, v, reverse);
        if v > 0.0 then TickVector(Ceil(lo / v), Floor(hi / v), v, reverse)
        else TickVector(Ceil(lo * -v), Floor(hi * -v), 1.0 / -v, reverse)
  }

  /**
   * linear_ticks: no ticks for hint 0, the single value for an empty range,
   * otherwise the ticks of tick_increment on the ascending bounds, reversed
   * when start > stop.
   */
  function LinearTicks(start: real, stop: real, hint: nat): (r: seq<real>)
  {
    if hint == 0 then []
    else if start == stop then [start]
    else
      var (lo, hi) := AscendingValues(start, stop);
      TicksOfIncrement(lo, hi, TickIncrement(lo, hi, hint), start > stop)
  }

  /** The edge cases of linear_ticks. */
  lemma LinearTicksEdgeCases(start: real, stop: real, hint: nat)
    ensures hint == 0 ==> LinearTicks(start, stop, hint) == []
    ensures hint > 0 && start == stop ==> LinearTicks(start, stop, hint) == [start]
  {
  }

  /** Away from the edge cases linear_ticks is the grid of tick_increment on the ascending bounds. */
  lemma LinearTicksIsGrid(start: real, stop: real, hint: nat)
    requires hint > 0 && start != stop
    ensures var lo := Min(start, stop);
            var hi := Max(start, stop);
            LinearTicks(start, stop, hint) == GridTicks(lo, hi, TickIncrement(lo, hi, hint).value, start > stop)
  {
    var lo := Min(start, stop);
    var hi := Max(start, stop);
    assert AscendingValues(start, stop) == (lo, hi);
  }

  /** Swapping the bounds reverses the ticks. */
  lemma LinearTicksReversed(start: real, stop: real, hint: nat)
    ensures LinearTicks(stop, start, hint) == Reverse(LinearTicks(start, stop, hint))
  {
    if hint > 0 && start != stop {
      LinearTicksIsGrid(start, stop, hint);
      LinearTicksIsGrid(stop, start, hint);
      var lo := Min(start, stop);
      var hi := Max(start, stop);
      assert Min(stop, start) == lo && Max(stop, start) == hi;
      var v := TickIncrement(lo, hi, hint).value;
      var first := FirstMultiplier(lo, v);
      var last := LastMultiplier(hi, v);
      MultiplierRange(lo, hi, v);
      TickVectorReverse(first, last, Spacing(v));
      ReverseReverse(TickVector(first, last, Spacing(v), false));
    }
  }

  /**
   * The ascending grid between lo and hi is exactly the multiples k * s of
   * the spacing s inside [lo, hi], in order: each lies in the range, and the
   * grid points just before the first and after the last lie outside it.
   */
  lemma GridTicksOnGrid(lo: real, hi: real, v: real)
    requires lo <= hi && v != 0.0
    ensures var s := Spacing(v);
            var k := FirstMultiplier(lo, v);
            var r := GridTicks(lo, hi, v, false);
            && (forall i :: 0 <= i < |r| ==> r[i] == GridPoint(k + i, s))
            && (forall i :: 0 <= i < |r| ==> lo <= r[i] <= hi)
            && GridPoint(k - 1, s) < lo
            && GridPoint(k + |r|, s) > hi
  {
    var s := Spacing(v);
    var k := FirstMultiplier(lo, v);
    var last := LastMultiplier(hi, v);
    var r := GridTicks(lo, hi, v, false);
    GridPointBounds(k, lo, s);
    GridPointBounds(k - 1, lo, s);
    GridPointBounds(last, hi, s);
    GridPointBounds(last + 1, hi, s);
    forall i | 0 <= i < |r| ensures lo <= r[i] <= hi {
      GridPointMonotone(k, k + i, s);
      GridPointMonotone(k + i, last, s);
    }
  }

  /** Every grid tick lies in [lo, hi], in either direction. */
  lemma GridTicksWithinBounds(lo: real, hi: real, v: real, reverse: bool)
    requires lo <= hi && v != 0.0
    ensures forall x :: x in GridTicks(lo, hi, v, reverse) ==> lo <= x <= hi
  {
    var r := GridTicks(lo, hi, v, false);
    GridTicksOnGrid(lo, hi, v);
    if reverse {
      MultiplierRange(lo, hi, v);
      TickVectorReverse(FirstMultiplier(lo, v), LastMultiplier(hi, v), Spacing(v));
      forall x | x in Reverse(r) ensures lo <= x <= hi {
        var i :| 0 <= i < |Reverse(r)| && Reverse(r)[i] == x;
        assert x == r[|r| - 1 - i];
      }
    }
  }

  /** Every tick lies between the bounds, in either orientation. */
  lemma LinearTicksWithinBounds(start: real, stop: real, hint: nat)
    ensures forall x :: x in LinearTicks(start, stop, hint) ==> Min(start, stop) <= x <= Max(start, stop)
  {
    if hint > 0 && start != stop {
      var lo := Min(start, stop);
      var hi := Max(start, stop);
      LinearTicksIsGrid(start, stop, hint);
      GridTicksWithinBounds(lo, hi, TickIncrement(lo, hi, hint).value, start > stop);
    }
  }

  lemma CeilOfNegation(q: real)
    ensures Ceil(-q) == -Floor(q) && Floor(-q) == -Ceil(q)
  {
  }

  /** c / v == -c * spacing for a negative encoding v. */
  lemma NegativeEncodingQuotient(c: real, v: real)
    requires v < 0.0
    ensures c / v == -c * Spacing(v)
  {
  }

  /**
   * The grid point at or below x for the spacing an increment v encodes,
   * floor(x / v) * v or ceil(x * v) / v: floor(x / s) * s in both encodings.
   */
  function SnapDown(x: real, v: real): (r: real)
    requires v != 0.0
    ensures r == GridPoint(Floor(x / Spacing(v)), Spacing(v))
  {
    ScaledBySpacing(x, v);
    if v > 0.0 then Floor(x / v) as real * v
    else
      CeilOfNegation(x / Spacing(v));
      NegativeEncodingQuotient(Ceil(x * v) as real, v);
      Ceil(x * v) as real / v
  }

  /**
   * The grid point at or above x for the spacing an increment v encodes,
   * ceil(x / v) * v or floor(x * v) / v: ceil(x / s) * s in both encodings.
   */
  function SnapUp(x: real, v: real): (r: real)
    requires v != 0.0
    ensures r == GridPoint(Ceil(x / Spacing(v)), Spacing(v))
  {
    ScaledBySpacing(x, v);
    if v > 0.0 then Ceil(x / v) as real * v
    else
      CeilOfNegation(x / Spacing(v));
      NegativeEncodingQuotient(Floor(x * v) as real, v);
      Floor(x * v) as real / v
  }

  /** Snapping rounds outward by less than one spacing. */
  lemma SnapEnclosing(x: real, v: real)
    requires v != 0.0
    ensures SnapDown(x, v) <= x < SnapDown(x, v) + Spacing(v)
    ensures SnapUp(x, v) - Spacing(v) < x <= SnapUp(x, v)
  {
    var s := Spacing(v);
    var d := Floor(x / s);
    var u := Ceil(x / s);
    GridPointBounds(d, x, s);
    GridPointBounds(d + 1, x, s);
    GridPointBounds(u, x, s);
    GridPointBounds(u - 1, x, s);
    GridPointStep(d, s);
    GridPointStep(u - 1, s);
  }

  /**
   * snapped_tick_increment: the increment of [start, stop] widened outward
   * to the grid of its first increment, so a finite increment whose spacing
   * is a nice multiple of the decade below the widened range's naive step.
   */
  function SnappedTickIncrement(start: real, stop: real, hint: nat): (inc: Increment)
    requires start < stop
    ensures inc.Finite? && inc.value != 0.0
    ensures var v := TickIncrement(start, stop, hint).value;
            var lo, hi := SnapDown(start, v), SnapUp(stop, v);
            && lo <= start && stop <= hi
            && inc == TickIncrement(lo, hi, hint)
            && IsNiceMultiple(Spacing(inc.value), Pow10(Log10Floor(NaiveStep(lo, hi, hint))))
  {
    var v := TickIncrement(start, stop, hint).value;
    SnapEnclosing(start, v);
    SnapEnclosing(stop, v);
    TickIncrementNice(SnapDown(start, v), SnapUp(stop, v), hint);
    TickIncrement(SnapDown(start, v), SnapUp(stop, v), hint)
  }

  /** The snapped bounds enclose [start, stop] and lie on the first increment's grid. */
  lemma SnappedBoundsEnclose(start: real, stop: real, hint: nat)
    requires start < stop
    ensures var v := TickIncrement(start, stop, hint).value;
            var s := Spacing(v);
            && SnapDown(start, v) <= start < SnapDown(start, v) + s
            && SnapUp(stop, v) - s < stop <= SnapUp(stop, v)
  {
    var v := TickIncrement(start, stop, hint).value;
    SnapEnclosing(start, v);
    SnapEnclosing(stop, v);
  }
}
