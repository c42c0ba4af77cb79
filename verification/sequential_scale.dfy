/**
 * The sequential scale of include/cdv/scl/sequential_scale.hpp: a domain
 * [start, stop] normalised onto [0, 1] and fed to an interpolator, which is
 * any function of the normalised value (a colour scheme in the library).
 */
module SequentialScale {
  import opened RealMath
  import NiceTicks

  datatype SequentialScale<C> = SequentialScale(start: real, stop: real, interpolator: real -> C)

  /**
   * The normalised position (x - start) / (stop - start): the fraction t with
   * x = start + t * (stop - start), not limited to [0, 1].
   */
  function Normalised(start: real, stop: real, x: real): (t: real)
    requires start != stop
    ensures x - start == t * (stop - start)
    ensures t == 0.0 <==> x == start
    ensures t == 1.0 <==> x == stop
  {
    FractionOf(stop - start, stop - start, 1.0);
    (x - start) / (stop - start)
  }

  /** sequential_scale::operator(): the interpolator at the normalised position. */
  function Apply<C>(s: SequentialScale<C>, x: real): (y: C)
    requires s.start != s.stop
    ensures y == s.interpolator(Normalised(s.start, s.stop, x))
  {
    s.interpolator((x - s.start) / (s.stop - s.start))
  }

  /** The domain ends map to the interpolator's values at 0 and 1. */
  lemma ApplyAtEnds<C>(s: SequentialScale<C>)
    requires s.start != s.stop
    ensures Apply(s, s.start) == s.interpolator(0.0)
    ensures Apply(s, s.stop) == s.interpolator(1.0)
  {
    assert Normalised(s.start, s.stop, s.start) == 0.0;
    assert Normalised(s.start, s.stop, s.stop) == 1.0;
  }

  /**
   * Inputs outside the domain are not clamped: over [0, 1] with the
   * interpolator t -> 100 t, 1.01 maps to 101 and -0.01 to -1.
   */
  lemma ApplyUnclampedExample()
    ensures var s := SequentialScale(0.0, 1.0, (t: real) => 100.0 * t);
            Apply(s, 1.01) == 101.0 && Apply(s, -0.01) == -1.0
  {
    var s := SequentialScale(0.0, 1.0, (t: real) => 100.0 * t);
    assert Normalised(0.0, 1.0, 1.01) == 1.01;
    assert Normalised(0.0, 1.0, -0.01) == -0.01;
  }

  /** sequential_scale::ticks: linear_ticks between start and stop, all within them. */
  function Ticks<C>(s: SequentialScale<C>, hint: nat): (r: seq<real>)
    ensures hint > 0 && s.start == s.stop ==> r == [s.start]
    ensures forall x :: x in r ==> Min(s.start, s.stop) <= x <= Max(s.start, s.stop)
  {
    NiceTicks.LinearTicksWithinBounds(s.start, s.stop, hint);
    NiceTicks.LinearTicksEdgeCases(s.start, s.stop, hint);
    NiceTicks.LinearTicks(s.start, s.stop, hint)
  }

  /** sequential_scale::domain: the two ends as constructed. */
  function Domain<C>(s: SequentialScale<C>): (d: seq<real>)
    ensures |d| == 2 && d[0] == s.start && d[1] == s.stop
  {
    [s.start, s.stop]
  }
}
