/**
 * The point scale of include/cdv/scl/point_scale.hpp: a list of keys placed
 * at evenly spaced points along a codomain interval, with padding at the two
 * ends shared out by an alignment factor.
 */
module PointScale {
  import opened Wrappers
  import opened RealMath
  import opened Seqs

  datatype Properties = Properties(padding: real, alignmentFactor: real)

  /** The defaults of point_scale_properties. */
  const DefaultProperties := Properties(0.0, 0.5)

  /**
   * The number of steps the codomain is divided into: the padding at both
   * ends and the n - 1 gaps between n points; never below one.
   */
  function Denominator(n: nat, p: Properties): (d: real)
    ensures d >= 1.0 && d >= 2.0 * p.padding + (n as real - 1.0)
    ensures d == 1.0 || d == 2.0 * p.padding + (n as real - 1.0)
  {
    Max(1.0, 2.0 * p.padding + (n as real - 1.0))
  }

  /** The distance between neighbouring points for a codomain of the given length. */
  function StepFor(width: real, n: nat, p: Properties): (step: real)
    requires width >= 0.0
    ensures 0.0 <= step <= width
    ensures step * Denominator(n, p) == width
  {
    var d := Denominator(n, p);
    ShareWithin(width, d);
    width / d
  }

  datatype PointScale<K> = PointScale(domain: seq<K>, start: real, stop: real, props: Properties, step: real)

  /**
   * The constructor: keys and codomain ends are kept as given; the step
   * divides the codomain's length (the ends swapped when descending) into
   * the denominator's number of parts, so it is between zero and that length.
   */
  function Make<K>(domain: seq<K>, start: real, stop: real, p: Properties): (s: PointScale<K>)
    ensures s.domain == domain && s.start == start && s.stop == stop && s.props == p
    ensures s.step == StepFor(Abs(stop - start), |domain|, p)
    ensures 0.0 <= s.step <= Abs(stop - start)
    ensures s.step * Denominator(|s.domain|, s.props) == Abs(s.stop - s.start)
  {
    PointScale(domain, start, stop, p, StepFor(Abs(stop - start), |domain|, p))
  }

  /** With no padding, up to two points put the step at the codomain's whole length. */
  lemma FewPointsTakeWholeWidth<K>(domain: seq<K>, start: real, stop: real, alignment: real)
    requires |domain| <= 2
    ensures Make(domain, start, stop, Properties(0.0, alignment)).step == Abs(stop - start)
  {
    assert Denominator(|domain|, Properties(0.0, alignment)) == 1.0;
  }

  /** The share of the two end paddings placed before the first point. */
  function InitialPadding(p: Properties): real
  {
    p.padding * 2.0 * p.alignmentFactor
  }

  /** The point at position i, counted in steps from the codomain's front. */
  function Position<K>(s: PointScale<K>, i: nat): real
  {
    s.start + s.step * (InitialPadding(s.props) + i as real)
  }

  /**
   * point_scale::operator(): the point of the key's first occurrence; a key
   * not in the domain is a domain error.
   */
  function Apply<K(==)>(s: PointScale<K>, x: K): (r: Result<real>)
    ensures r.Err? <==> x !in s.domain
    ensures r.Err? ==> r.error == DomainError
    ensures r.Ok? ==> r.value == Position(s, Find(s.domain, x))
  {
    var i := Find(s.domain, x);
    if i < |s.domain| then Ok(Position(s, i)) else Err(DomainError)
  }

  /** Points are whole steps apart: positions i and j are (j - i) steps from each other. */
  lemma PositionsStep<K>(s: PointScale<K>, i: nat, j: nat)
    ensures Position(s, j) - Position(s, i) == s.step * (j as real - i as real)
  {
    OffsetsApart(s.start, s.step, InitialPadding(s.props), i as real, j as real);
  }

  /** The next position is one step further on. */
  lemma NextPosition<K>(s: PointScale<K>, i: nat)
    ensures Position(s, i + 1) == Position(s, i) + s.step
  {
    PositionsStep(s, i, i + 1);
    assert (i + 1) as real - i as real == 1.0;
  }

  /** A key that does not repeat an earlier one maps to the point of its own position. */
  lemma ApplyAtPosition<K>(s: PointScale<K>, i: nat)
    requires i < |s.domain| && s.domain[i] !in s.domain[..i]
    ensures Apply(s, s.domain[i]) == Ok(Position(s, i))
  {
    FindFirst(s.domain, s.domain[i], i);
  }

  /** Consecutive keys of a domain without repeats are exactly one step apart. */
  lemma ConsecutivePoints<K>(s: PointScale<K>, i: nat)
    requires i + 1 < |s.domain| && s.domain[i] !in s.domain[..i] && s.domain[i + 1] !in s.domain[..i + 1]
    ensures Apply(s, s.domain[i]) == Ok(Position(s, i))
    ensures Apply(s, s.domain[i + 1]) == Ok(Position(s, i) + s.step)
  {
    ApplyAtPosition(s, i);
    ApplyAtPosition(s, i + 1);
    NextPosition(s, i);
  }

  /** Without padding the first point sits at the front and the last n - 1 steps on. */
  lemma UnpaddedPositions<K>(s: PointScale<K>, n: nat)
    requires s.props.padding == 0.0 && n >= 2 && |s.domain| == n
    requires s.step * Denominator(|s.domain|, s.props) == Abs(s.stop - s.start)
    ensures Position(s, 0) == s.start
    ensures Position(s, n - 1) == s.start + Abs(s.stop - s.start)
  {
    assert InitialPadding(s.props) == 0.0;
    assert Denominator(|s.domain|, s.props) == n as real - 1.0;
  }

  /**
   * With no padding and at least two keys, the first key maps to the
   * codomain's front and the last (when it does not repeat an earlier key)
   * to the front plus the codomain's length: to the back when ascending,
   * beyond the front when descending.
   */
  lemma EndsWithoutPadding<K>(domain: seq<K>, start: real, stop: real, alignment: real)
    requires |domain| >= 2 && domain[|domain| - 1] !in domain[..|domain| - 1]
    ensures var s := Make(domain, start, stop, Properties(0.0, alignment));
            Apply(s, domain[0]) == Ok(start)
            && Apply(s, domain[|domain| - 1]) == Ok(start + Abs(stop - start))
    ensures start <= stop ==>
              Apply(Make(domain, start, stop, Properties(0.0, alignment)), domain[|domain| - 1]) == Ok(stop)
  {
    var s := Make(domain, start, stop, Properties(0.0, alignment));
    var n := |domain|;
    ApplyAtPosition(s, 0);
    ApplyAtPosition(s, n - 1);
    UnpaddedPositions(s, n);
  }

  /** The alignment factor places a share of the two end paddings before the first point. */
  lemma InitialPaddingBounds(p: Properties)
    requires p.padding >= 0.0 && 0.0 <= p.alignmentFactor <= 1.0
    ensures 0.0 <= InitialPadding(p) <= 2.0 * p.padding
  {
    MulWeak(0.0, p.alignmentFactor, p.padding * 2.0);
    MulWeak(p.alignmentFactor, 1.0, p.padding * 2.0);
  }

  /**
   * With non-negative padding and an alignment in [0, 1], the point at any
   * position of the domain lies between the front and the denominator's
   * number of steps from it.
   */
  lemma PositionWithinSteps<K>(s: PointScale<K>, i: nat)
    requires s.props.padding >= 0.0 && 0.0 <= s.props.alignmentFactor <= 1.0
    requires s.step >= 0.0 && i < |s.domain|
    ensures s.start <= Position(s, i) <= s.start + s.step * Denominator(|s.domain|, s.props)
  {
    InitialPaddingBounds(s.props);
    var count := InitialPadding(s.props) + i as real;
    assert 0.0 <= count <= Denominator(|s.domain|, s.props);
    assert Position(s, i) == s.start + s.step * count;
    MulLeftWeak(s.step, 0.0, count);
    assert s.step * 0.0 == 0.0;
    MulLeftWeak(s.step, count, Denominator(|s.domain|, s.props));
  }

  /**
   * On an ascending codomain, with non-negative padding and an alignment in
   * [0, 1], every key maps inside the codomain.
   */
  lemma PointsWithinCodomain<K>(domain: seq<K>, start: real, stop: real, p: Properties, x: K)
    requires start <= stop && x in domain
    requires p.padding >= 0.0 && 0.0 <= p.alignmentFactor <= 1.0
    ensures var s := Make(domain, start, stop, p);
            start <= Apply(s, x).value <= stop
  {
    var s := Make(domain, start, stop, p);
    PositionWithinSteps(s, Find(s.domain, x));
  }

  /** Two keys over [100, 200] with padding one third: the step is 60. */
  lemma PaddedPointsScale()
    ensures Make([3, 7], 100.0, 200.0, Properties(1.0 / 3.0, 0.5))
         == PointScale([3, 7], 100.0, 200.0, Properties(1.0 / 3.0, 0.5), 60.0)
    ensures Make([3, 7], 100.0, 200.0, Properties(1.0 / 3.0, 0.1))
         == PointScale([3, 7], 100.0, 200.0, Properties(1.0 / 3.0, 0.1), 60.0)
  {
    assert Denominator(2, Properties(1.0 / 3.0, 0.5)) == 5.0 / 3.0;
    assert Denominator(2, Properties(1.0 / 3.0, 0.1)) == 5.0 / 3.0;
  }

  /** Positions of the keys of the example domain. */
  lemma FindInExample()
    ensures Find([3, 7], 3) == 0 && Find([3, 7], 7) == 1
  {
    assert [3, 7][1..] == [7];
  }

  /**
   * With the scales above the points are at 120 and 180 when centred, and at
   * 104 and 164 with alignment 0.1: a fifth of the width is padding at the
   * ends, shared out by the alignment.
   */
  lemma PaddedPointsExample(centred: PointScale<int>, left: PointScale<int>)
    requires centred == PointScale([3, 7], 100.0, 200.0, Properties(1.0 / 3.0, 0.5), 60.0)
    requires left == PointScale([3, 7], 100.0, 200.0, Properties(1.0 / 3.0, 0.1), 60.0)
    ensures Apply(centred, 3) == Ok(120.0) && Apply(centred, 7) == Ok(180.0)
    ensures Apply(left, 3) == Ok(104.0) && Apply(left, 7) == Ok(164.0)
  {
    FindInExample();
    assert InitialPadding(centred.props) == 1.0 / 3.0;
    assert InitialPadding(left.props) == 1.0 / 15.0;
  }

  /** point_scale::ticks: the keys themselves, whatever the hint. */
  function Ticks<K>(s: PointScale<K>, hint: nat): (r: seq<K>)
    ensures r == s.domain
  {
    s.domain
  }

  /** point_scale::codomain: the two ends as constructed, not reordered. */
  function Codomain<K>(s: PointScale<K>): (r: seq<real>)
    ensures |r| == 2 && r[0] == s.start && r[1] == s.stop
  {
    [s.start, s.stop]
  }
}
