/**
 * The band scale of include/cdv/scl/band_scale.hpp: a list of keys laid out
 * as equal bands along a codomain interval, with padding between the bands
 * (inner) and at the two ends (outer), and an alignment factor that shares
 * the outer padding between the two ends.
 */
module BandScale {
  import opened Wrappers
  import opened RealMath
  import opened Seqs

  datatype Properties = Properties(innerPadding: real, outerPadding: real, alignmentFactor: real)

  /** The defaults of band_scale_properties. */
  const DefaultProperties := Properties(0.0, 0.0, 0.5)

  /**
   * The number of steps the codomain is divided into: one per band, the outer
   * padding at both ends, less the inner padding the last band does not have;
   * never below one.
   */
  function Denominator(n: nat, p: Properties): (d: real)
    ensures d >= 1.0 && d >= 2.0 * p.outerPadding + n as real - p.innerPadding
    ensures d == 1.0 || d == 2.0 * p.outerPadding + n as real - p.innerPadding
  {
    Max(1.0, 2.0 * p.outerPadding + n as real - p.innerPadding)
  }

  /** The distance from one band's start to the next. */
  function StepFor(width: real, n: nat, p: Properties): (step: real)
    requires width >= 0.0
    ensures 0.0 <= step <= width
    ensures step * Denominator(n, p) == width
  {
    var d := Denominator(n, p);
    ShareWithin(width, d);
    width / d
  }

  datatype BandScale<K> = BandScale(domain: seq<K>, start: real, stop: real, props: Properties, bandWidth: real)

  /**
   * The constructor: the keys and the codomain ends are kept as given, and the
   * band width is one step less its inner padding, where the step divides
   * the codomain's length (the ends swapped when descending).
   */
  function Make<K>(domain: seq<K>, start: real, stop: real, p: Properties): (s: BandScale<K>)
    ensures s.domain == domain && s.start == start && s.stop == stop && s.props == p
    ensures s.bandWidth == StepFor(Abs(stop - start), |domain|, p) * (1.0 - p.innerPadding)
    ensures 0.0 <= p.innerPadding <= 1.0 ==> 0.0 <= s.bandWidth <= Abs(stop - start)
  {
    var step := StepFor(Abs(stop - start), |domain|, p);
    PaddedWithin(step, p.innerPadding);
    BandScale(domain, start, stop, p, step * (1.0 - p.innerPadding))
  }

  /** A step less a padding fraction in [0, 1] is between zero and the step. */
  lemma PaddedWithin(step: real, padding: real)
    requires step >= 0.0
    ensures 0.0 <= padding <= 1.0 ==> 0.0 <= step * (1.0 - padding) <= step
  {
    if 0.0 <= padding <= 1.0 {
      MulWeak(0.0, 1.0 - padding, step);
      MulWeak(1.0 - padding, 1.0, step);
    }
  }

  /**
   * The total width decomposes as the source's comment says: the initial
   * outer padding, one step per band, and the final outer padding in place of
   * the last band's inner padding.
   */
  lemma WidthDecomposition(n: nat, width: real, p: Properties)
    requires width >= 0.0 && 2.0 * p.outerPadding + n as real - p.innerPadding >= 1.0
    ensures var step := StepFor(width, n, p);
            p.outerPadding * step + n as real * step + (p.outerPadding - p.innerPadding) * step == width
  {
    var step := StepFor(width, n, p);
    assert Denominator(n, p) == 2.0 * p.outerPadding + n as real - p.innerPadding;
    assert p.outerPadding * step + n as real * step + (p.outerPadding - p.innerPadding) * step
        == step * (2.0 * p.outerPadding + n as real - p.innerPadding);
  }

  /** Without padding, zero or one band takes the whole codomain. */
  lemma FullWidthWithoutPadding<K>(domain: seq<K>, start: real, stop: real)
    requires |domain| <= 1
    ensures Make(domain, start, stop, DefaultProperties).bandWidth == Abs(stop - start)
  {
    assert Denominator(|domain|, DefaultProperties) == 1.0;
  }

  /** The step recovered from the band width, as band_scale::min does. */
  function Step<K>(s: BandScale<K>): real
    requires s.props.innerPadding != 1.0
  {
    s.bandWidth / (1.0 - s.props.innerPadding)
  }

  /** The step recovered from the band width is the constructor's step. */
  lemma StepOfMake<K>(domain: seq<K>, start: real, stop: real, p: Properties)
    requires p.innerPadding != 1.0
    ensures var s := Make(domain, start, stop, p);
            Step(s) == StepFor(Abs(stop - start), |domain|, p)
            && Step(s) >= 0.0
            && Step(s) * Denominator(|s.domain|, s.props) == Abs(s.stop - s.start)
  {
    var step := StepFor(Abs(stop - start), |domain|, p);
    var s := Make(domain, start, stop, p);
    assert s.bandWidth == step * (1.0 - p.innerPadding);
    FractionOf(s.bandWidth, 1.0 - p.innerPadding, step);
  }

  /** The band width is one step less its inner padding, for any scale. */
  lemma BandWidthOfStep<K>(s: BandScale<K>)
    requires s.props.innerPadding != 1.0
    ensures s.bandWidth == Step(s) * (1.0 - s.props.innerPadding)
  {
    DivMul(s.bandWidth, 1.0 - s.props.innerPadding);
  }

  /** The share of the outer padding placed before the first band. */
  function InitialPadding(p: Properties): real
  {
    p.outerPadding * 2.0 * p.alignmentFactor
  }

  /** The start of the band at position i, counted in steps from the codomain's front. */
  function BandStart<K>(s: BandScale<K>, i: nat): real
    requires s.props.innerPadding != 1.0
  {
    s.start + Step(s) * (InitialPadding(s.props) + i as real)
  }

  /**
   * band_scale::min: the start of the key's band, found at the key's first
   * occurrence; a key not in the domain is a domain error.
   */
  function Min<K(==)>(s: BandScale<K>, x: K): (r: Result<real>)
    requires s.props.innerPadding != 1.0
    ensures r.Err? <==> x !in s.domain
    ensures r.Err? ==> r.error == DomainError
    ensures r.Ok? ==> r.value == BandStart(s, Find(s.domain, x))
  {
    var i := Find(s.domain, x);
    if i < |s.domain| then Ok(BandStart(s, i)) else Err(DomainError)
  }

  /** band_scale::operator(): the middle of the key's band. */
  function Apply<K(==)>(s: BandScale<K>, x: K): (r: Result<real>)
    requires s.props.innerPadding != 1.0
    ensures r.Err? <==> x !in s.domain
    ensures r.Err? ==> r.error == DomainError
    ensures r.Ok? ==> r.value == Min(s, x).value + s.bandWidth * 0.5
  {
    match Min(s, x)
    case Ok(m) => Ok(m + s.bandWidth * 0.5)
    case Err(e) => Err(e)
  }

  /** band_scale::max: the end of the key's band. */
  function MaxOf<K(==)>(s: BandScale<K>, x: K): (r: Result<real>)
    requires s.props.innerPadding != 1.0
    ensures r.Err? <==> x !in s.domain
    ensures r.Err? ==> r.error == DomainError
    ensures r.Ok? ==> r.value == Min(s, x).value + s.bandWidth
  {
    match Min(s, x)
    case Ok(m) => Ok(m + s.bandWidth)
    case Err(e) => Err(e)
  }

  /** A band's middle lies halfway between its start and its end. */
  lemma ApplyIsMidpoint<K>(s: BandScale<K>, x: K)
    requires s.props.innerPadding != 1.0 && x in s.domain
    ensures Apply(s, x).value == (Min(s, x).value + MaxOf(s, x).value) / 2.0
  {
  }

  /**
   * Band starts are whole steps apart: the bands at positions i and j start
   * (j - i) steps from each other, so consecutive keys' minima differ by
   * exactly one step.
   */
  lemma BandStartsStep<K>(s: BandScale<K>, i: nat, j: nat)
    requires s.props.innerPadding != 1.0
    ensures BandStart(s, j) - BandStart(s, i) == Step(s) * (j as real - i as real)
  {
    OffsetsApart(s.start, Step(s), InitialPadding(s.props), i as real, j as real);
  }

  /** A band one padded step wide ends before a band further on starts. */
  lemma EndsBeforeNext<K>(s: BandScale<K>, i: nat, j: nat)
    requires 0.0 <= s.props.innerPadding < 1.0 && Step(s) >= 0.0 && i < j
    ensures BandStart(s, i) + Step(s) * (1.0 - s.props.innerPadding) <= BandStart(s, j)
  {
    BandStartsStep(s, i, j);
    MulLeftWeak(Step(s), 1.0 - s.props.innerPadding, j as real - i as real);
  }

  /**
   * With an inner padding in [0, 1), a band ends no later than the next
   * band starts, on a codomain of either direction.
   */
  lemma BandsDoNotOverlap<K>(domain: seq<K>, start: real, stop: real, p: Properties, x: K, y: K)
    requires 0.0 <= p.innerPadding < 1.0
    requires x in domain && y in domain && Find(domain, x) < Find(domain, y)
    ensures var s := Make(domain, start, stop, p);
            MaxOf(s, x).value <= Min(s, y).value
  {
    var s := Make(domain, start, stop, p);
    StepOfMake(domain, start, stop, p);
    BandWidthOfStep(s);
    EndsBeforeNext(s, Find(s.domain, x), Find(s.domain, y));
  }

  /** The alignment factor places a share of the two outer paddings before the first band. */
  lemma InitialPaddingBounds(p: Properties)
    requires p.outerPadding >= 0.0 && 0.0 <= p.alignmentFactor <= 1.0
    ensures 0.0 <= InitialPadding(p) <= 2.0 * p.outerPadding
  {
    MulWeak(0.0, p.alignmentFactor, p.outerPadding * 2.0);
    MulWeak(p.alignmentFactor, 1.0, p.outerPadding * 2.0);
  }

  /**
   * With non-negative padding and an alignment in [0, 1], the band at any
   * position of the domain starts after the codomain's front and ends
   * within the constructor's denominator of steps from it.
   */
  lemma BandWithinSteps<K>(s: BandScale<K>, i: nat)
    requires 0.0 <= s.props.innerPadding < 1.0 && s.props.outerPadding >= 0.0
    requires 0.0 <= s.props.alignmentFactor <= 1.0
    requires Step(s) >= 0.0 && i < |s.domain|
    ensures s.start <= BandStart(s, i)
    ensures BandStart(s, i) + Step(s) * (1.0 - s.props.innerPadding)
         <= s.start + Step(s) * Denominator(|s.domain|, s.props)
  {
    InitialPaddingBounds(s.props);
    var count := InitialPadding(s.props) + i as real;
    MulWeak(0.0, count, Step(s));
    MulWeak(count + (1.0 - s.props.innerPadding), Denominator(|s.domain|, s.props), Step(s));
    MulDifference(Step(s), count + (1.0 - s.props.innerPadding), count);
  }

  /**
   * On an ascending codomain, with non-negative padding, an inner padding
   * below one and an alignment in [0, 1], every band lies inside the codomain.
   */
  lemma BandsWithinCodomain<K>(domain: seq<K>, start: real, stop: real, p: Properties, x: K)
    requires start <= stop && x in domain
    requires 0.0 <= p.innerPadding < 1.0 && p.outerPadding >= 0.0 && 0.0 <= p.alignmentFactor <= 1.0
    ensures var s := Make(domain, start, stop, p);
            start <= Min(s, x).value && MaxOf(s, x).value <= stop
  {
    var s := Make(domain, start, stop, p);
    StepOfMake(domain, start, stop, p);
    BandWidthOfStep(s);
    BandWithinSteps(s, Find(s.domain, x));
  }

  /** Positions of the keys in a two-key example domain. */
  lemma FindInTwo()
    ensures Find(['a', 'b'], 'a') == 0 && Find(['a', 'b'], 'b') == 1
  {
    assert ['a', 'b'][1..] == ['b'];
  }

  /** Positions of the keys in a three-key example domain. */
  lemma FindInThree()
    ensures Find(['a', 'b', 'c'], 'a') == 0 && Find(['a', 'b', 'c'], 'b') == 1
    ensures Find(['a', 'b', 'c'], 'c') == 2 && 'd' !in ['a', 'b', 'c']
  {
    assert ['a', 'b', 'c'][1..] == ['b', 'c'];
    assert ['b', 'c'][1..] == ['c'];
  }

  /** Two keys over [40, 10] with the default properties get bands 15 wide. */
  lemma DescendingCodomainScale()
    ensures Make(['a', 'b'], 40.0, 10.0, DefaultProperties)
         == BandScale(['a', 'b'], 40.0, 10.0, DefaultProperties, 15.0)
  {
    assert Denominator(2, DefaultProperties) == 2.0;
  }

  /** Without padding, bands 15 wide from 40 start at 40 and 55. */
  lemma DescendingBandStarts(s: BandScale<char>)
    requires s.start == 40.0 && s.props == DefaultProperties && s.bandWidth == 15.0
    ensures BandStart(s, 0) == 40.0 && BandStart(s, 1) == 55.0
  {
  }

  /**
   * On a descending codomain the bands are still laid out upwards from its
   * front: two keys over [40, 10] put the second band's middle at 62.5,
   * beyond both ends.
   */
  lemma DescendingCodomainExample(s: BandScale<char>)
    requires s == BandScale(['a', 'b'], 40.0, 10.0, DefaultProperties, 15.0)
    ensures Apply(s, 'a') == Ok(47.5) && Apply(s, 'b') == Ok(62.5)
  {
    FindInTwo();
    DescendingBandStarts(s);
  }

  /** Three keys over [10, 40] with the default properties get bands ten wide. */
  lemma ThreeBandsScale()
    ensures Make(['a', 'b', 'c'], 10.0, 40.0, DefaultProperties)
         == BandScale(['a', 'b', 'c'], 10.0, 40.0, DefaultProperties, 10.0)
  {
    assert Denominator(3, DefaultProperties) == 3.0;
  }

  /** Without padding, bands ten wide from 10 start at 10, 20 and 30. */
  lemma ThreeBandStarts(s: BandScale<char>)
    requires s.start == 10.0 && s.props == DefaultProperties && s.bandWidth == 10.0
    ensures BandStart(s, 0) == 10.0 && BandStart(s, 1) == 20.0 && BandStart(s, 2) == 30.0
  {
  }

  /**
   * Three keys over [10, 40] without padding: the k-th key's band is centred
   * at 15 + 10 k, that is at 15, 25 and 35.
   */
  lemma ThreeBandsExample(s: BandScale<char>, k: nat)
    requires s == BandScale(['a', 'b', 'c'], 10.0, 40.0, DefaultProperties, 10.0) && k < 3
    ensures Apply(s, s.domain[k]) == Ok(15.0 + 10.0 * k as real)
  {
    FindInThree();
    ThreeBandStarts(s);
    if k == 0 {
      assert Find(s.domain, s.domain[k]) == 0;
    } else if k == 1 {
      assert Find(s.domain, s.domain[k]) == 1;
    } else {
      assert Find(s.domain, s.domain[k]) == 2;
    }
  }

  /** A key outside the domain is a domain error. */
  lemma MissingKeyExample(s: BandScale<char>)
    requires s == Make(['a', 'b', 'c'], 10.0, 40.0, DefaultProperties)
    ensures Apply(s, 'd') == Err(DomainError)
  {
    FindInThree();
  }

  /** Inner padding 0.2 and outer padding 0.1 over [0, 600] give bands 160 wide. */
  lemma AlignedBandsScale()
    ensures Make(['a', 'b', 'c'], 0.0, 600.0, Properties(0.2, 0.1, 0.25))
         == BandScale(['a', 'b', 'c'], 0.0, 600.0, Properties(0.2, 0.1, 0.25), 160.0)
  {
    assert Denominator(3, Properties(0.2, 0.1, 0.25)) == 3.0;
  }

  /** A step of 200 with a quarter of the 0.2 outer padding first: starts at 10, 210 and 410. */
  lemma AlignedBandStarts(s: BandScale<char>)
    requires s.start == 0.0 && s.props == Properties(0.2, 0.1, 0.25) && s.bandWidth == 160.0
    ensures BandStart(s, 0) == 10.0 && BandStart(s, 1) == 210.0 && BandStart(s, 2) == 410.0
  {
  }

  /**
   * Inner padding 0.2, outer padding 0.1 and alignment 0.25 over [0, 600]:
   * the k-th band is centred at 90 + 200 k, that is at 90, 290 and 490.
   */
  lemma AlignedBandsExample(s: BandScale<char>, k: nat)
    requires s == BandScale(['a', 'b', 'c'], 0.0, 600.0, Properties(0.2, 0.1, 0.25), 160.0) && k < 3
    ensures Apply(s, s.domain[k]) == Ok(90.0 + 200.0 * k as real)
  {
    FindInThree();
    AlignedBandStarts(s);
    if k == 0 {
      assert Find(s.domain, s.domain[k]) == 0;
    } else if k == 1 {
      assert Find(s.domain, s.domain[k]) == 1;
    } else {
      assert Find(s.domain, s.domain[k]) == 2;
    }
  }

  /** band_scale::ticks: the keys themselves, whatever the hint. */
  function Ticks<K>(s: BandScale<K>, hint: nat): (r: seq<K>)
    ensures r == s.domain
  {
    s.domain
  }

  /** band_scale::codomain: the two ends as constructed, not reordered. */
  function Codomain<K>(s: BandScale<K>): (r: seq<real>)
    ensures |r| == 2 && r[0] == s.start && r[1] == s.stop
  {
    [s.start, s.stop]
  }
}
