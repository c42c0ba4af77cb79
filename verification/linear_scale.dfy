/**
 * The piecewise-linear scale of include/cdv/scl/linear_scale.hpp: a domain of
 * two or more control points mapped onto a codomain of the same length, the
 * bracketing segment found by a direction-aware lower_bound, optional
 * clamping, and snapping of the outer domain points to a tick grid.
 */
module LinearScale {
  import opened RealMath
  import opened Seqs
  import NiceTicks

  /**
   * The comparator lower_bound searches with: std::less on an ascending
   * range, std::greater on a descending one.
   */
  predicate Precedes(a: real, b: real, ascending: bool)
  {
    if ascending then a < b else a > b
  }

  /**
   * Sorted in the direction `ascending`, repeats allowed: no element
   * precedes one before it, as lower_bound with that comparator requires.
   */
  predicate Sorted(p: seq<real>, ascending: bool)
  {
    forall i, j :: 0 <= i < j < |p| ==> !Precedes(p[j], p[i], ascending)
  }

  /** The direction the source tests: front() < back(). */
  predicate Ascending(p: seq<real>)
    requires |p| > 0
  {
    p[0] < p[|p| - 1]
  }

  /**
   * At least two control points, sorted in the direction of front and back,
   * with the first two and the last two distinct. The clamped lower_bound
   * position picks an inner segment only for an `x` strictly past its start
   * and not past its end, so only the outer segments can be of zero length
   * when divided by; an inner point may repeat, which makes a step.
   */
  predicate Monotone(p: seq<real>)
  {
    |p| >= 2 && Sorted(p, Ascending(p)) && p[0] != p[1] && p[|p| - 2] != p[|p| - 1]
  }

  /** In a monotone range the outer segments, and so the whole range, run strictly in its direction. */
  lemma OuterSegmentsStrict(p: seq<real>)
    requires Monotone(p)
    ensures Precedes(p[0], p[1], Ascending(p))
    ensures Precedes(p[|p| - 2], p[|p| - 1], Ascending(p))
    ensures Precedes(p[0], p[|p| - 1], Ascending(p))
  {
    var n := |p|;
    if n > 2 {
      assert !Precedes(p[1], p[0], Ascending(p)) && !Precedes(p[n - 1], p[1], Ascending(p));
    }
  }

  /**
   * ranges::lower_bound: the first position whose element does not precede
   * `x`, or |p| when every element precedes it.
   */
  function LowerBound(p: seq<real>, x: real, ascending: bool): (i: nat)
    ensures i <= |p|
    ensures forall j :: 0 <= j < i ==> Precedes(p[j], x, ascending)
    ensures i < |p| ==> !Precedes(p[i], x, ascending)
  {
    if |p| == 0 || !Precedes(p[0], x, ascending) then 0
    else 1 + LowerBound(p[1..], x, ascending)
  }

  /** std::clamp(v, lo, hi), whose precondition is lo <= hi. */
  function Clamp(v: real, lo: real, hi: real): (r: real)
    requires lo <= hi
    ensures lo <= r <= hi
    ensures lo <= v <= hi ==> r == v
    ensures v < lo ==> r == lo
    ensures v > hi ==> r == hi
  {
    if v < lo then lo else if hi < v then hi else v
  }

  /** std::lerp on exact numbers: a + t * (b - a). */
  function Lerp(a: real, b: real, t: real): real
  {
    a + t * (b - a)
  }

  /** std::lerp is exact at both ends. */
  lemma LerpEnds(a: real, b: real)
    ensures Lerp(a, b, 0.0) == a && Lerp(a, b, 1.0) == b
  {
  }

  /**
   * detail::interpolation_parameters: the index n of the segment
   * [p[n], p[n+1]] that holds `x` and the fraction t of the way along it.
   * The lower_bound position is clamped to [1, |p| - 1], so a point before
   * the first control point uses the first segment and one past the last
   * uses the last segment.
   */
  function InterpolationParameters(p: seq<real>, x: real): (r: (nat, real))
    requires Monotone(p)
    ensures r.0 + 1 < |p|
    ensures r.0 > 0 ==> Precedes(p[r.0], x, Ascending(p))
    ensures r.0 + 2 < |p| ==> !Precedes(p[r.0 + 1], x, Ascending(p))
    ensures p[r.0] != p[r.0 + 1]
    ensures (x - p[r.0]) == r.1 * (p[r.0 + 1] - p[r.0])
  {
    var ascending := Ascending(p);
    var upper := LowerBound(p, x, ascending);
    var i1 := if upper < 1 then 1 else if upper > |p| - 1 then |p| - 1 else upper;
    var i0 := i1 - 1;
    assert p[i1] != p[i0] by {
      if 1 < i1 < |p| - 1 {
        assert Precedes(p[i0], x, ascending) && !Precedes(p[i1], x, ascending);
      }
    }
    (i0, (x - p[i0]) / (p[i1] - p[i0]))
  }

  /** In a sorted range, whatever precedes `x` has only predecessors of `x` before it. */
  lemma PrecedesBefore(p: seq<real>, i: nat, j: nat, x: real)
    requires Monotone(p) && i < |p| && j < |p|
    ensures i <= j && Precedes(p[j], x, Ascending(p)) ==> Precedes(p[i], x, Ascending(p))
  {
    if i < j {
      assert !Precedes(p[j], p[i], Ascending(p));
    }
  }

  /** The segment picked for `x` is the only one that satisfies the bracketing conditions. */
  lemma SegmentUnique(p: seq<real>, x: real, k: nat)
    requires Monotone(p) && k + 1 < |p|
    requires k > 0 ==> Precedes(p[k], x, Ascending(p))
    requires k + 2 < |p| ==> !Precedes(p[k + 1], x, Ascending(p))
    ensures InterpolationParameters(p, x).0 == k
  {
    var n := InterpolationParameters(p, x).0;
    PrecedesBefore(p, n + 1, k, x);
    PrecedesBefore(p, k + 1, n, x);
  }

  /**
   * A linear scale: control points `domain` mapped to `codomain`, with
   * clamping of the result when `clamp` is set.
   */
  datatype LinearScale = LinearScale(domain: seq<real>, codomain: seq<real>, clamp: bool)

  /** What the constructor asserts: at least two points, as many as the codomain has. */
  predicate WellFormed(s: LinearScale)
  {
    |s.domain| > 1 && |s.domain| == |s.codomain|
  }

  /**
   * What applying the scale needs beyond that: a monotone domain, and for
   * clamping an ascending codomain (std::clamp's precondition).
   */
  predicate Valid(s: LinearScale)
  {
    WellFormed(s) && Monotone(s.domain) &&
    (s.clamp ==> s.codomain[0] <= s.codomain[|s.codomain| - 1])
  }

  /** The range-based constructor. */
  function Make(domain: seq<real>, codomain: seq<real>, clamp: bool): (s: LinearScale)
    requires |domain| > 1 && |domain| == |codomain|
    ensures WellFormed(s) && s.domain == domain && s.codomain == codomain
  {
    LinearScale(domain, codomain, clamp)
  }

  /** The two-point constructor, which asserts nothing. */
  function FromPoints(x0: real, x1: real, y0: real, y1: real, clamp: bool): (s: LinearScale)
    ensures WellFormed(s)
    ensures x0 != x1 && (clamp ==> y0 <= y1) ==> Valid(s)
  {
    LinearScale([x0, x1], [y0, y1], clamp)
  }

  /**
   * detail::apply_continuous_scaling before clamping: std::lerp on the
   * codomain values of the bracketing segment, by the fraction of the way
   * along it.
   */
  function Interpolated(s: LinearScale, x: real): (y: real)
    requires Valid(s)
    ensures var (n, t) := InterpolationParameters(s.domain, x);
            y - s.codomain[n] == t * (s.codomain[n + 1] - s.codomain[n])
  {
    var (n, t) := InterpolationParameters(s.domain, x);
    Lerp(s.codomain[n], s.codomain[n + 1], t)
  }

  /**
   * linear_scale::operator(): the interpolated value, clamped to the
   * codomain's ends when `clamp` is set; the ends are reached exactly when
   * the interpolated value lies beyond them.
   */
  function Apply(s: LinearScale, x: real): (y: real)
    requires Valid(s)
    ensures s.clamp ==> s.codomain[0] <= y <= s.codomain[|s.codomain| - 1]
    ensures var lo, hi, v := s.codomain[0], s.codomain[|s.codomain| - 1], Interpolated(s, x);
            && (!s.clamp || lo <= v <= hi ==> y == v)
            && (s.clamp && v < lo ==> y == lo)
            && (s.clamp && hi < v ==> y == hi)
  {
    var result := Interpolated(s, x);
    if s.clamp then Clamp(result, s.codomain[0], s.codomain[|s.codomain| - 1]) else result
  }

  /**
   * On segment k (which for the first and last segment extends beyond the
   * outer control points) the scale interpolates linearly between
   * codomain[k] and codomain[k + 1].
   */
  lemma InterpolatedOnSegment(s: LinearScale, k: nat, x: real)
    requires Valid(s) && k + 1 < |s.domain|
    requires k > 0 ==> Precedes(s.domain[k], x, Ascending(s.domain))
    requires k + 2 < |s.domain| ==> !Precedes(s.domain[k + 1], x, Ascending(s.domain))
    ensures var d := s.domain;
            d[k] != d[k + 1] &&
            var t := (x - d[k]) / (d[k + 1] - d[k]);
            Interpolated(s, x) == Lerp(s.codomain[k], s.codomain[k + 1], t)
  {
    SegmentUnique(s.domain, x, k);
    var d := s.domain;
    var r := InterpolationParameters(d, x);
    FractionOf(x - d[k], d[k + 1] - d[k], r.1);
  }

  /**
   * lower_bound finds, for a control point, the first control point equal
   * to it: the point itself unless it repeats the one before it.
   */
  lemma FirstEqualPoint(p: seq<real>, i: nat)
    requires Monotone(p) && i < |p|
    ensures var j := LowerBound(p, p[i], Ascending(p));
            j <= i && p[j] == p[i] && (j == 0 || Precedes(p[j - 1], p[j], Ascending(p)))
    ensures i == 0 || p[i - 1] != p[i] ==> LowerBound(p, p[i], Ascending(p)) == i
  {
    var asc := Ascending(p);
    var j := LowerBound(p, p[i], asc);
    assert !Precedes(p[i], p[i], asc);
    if j < i {
      assert !Precedes(p[i], p[j], asc);
      assert p[j] == p[i];
      if 0 < i {
        if j < i - 1 {
          assert !Precedes(p[i - 1], p[j], asc);
        }
        assert !Precedes(p[i], p[i - 1], asc);
        assert p[i - 1] == p[i];
      }
    }
  }

  /** A control point strictly past the one before it maps to its own codomain value. */
  lemma InterpolatedAtFirstEqual(s: LinearScale, j: nat)
    requires Valid(s) && j < |s.domain|
    requires j == 0 || Precedes(s.domain[j - 1], s.domain[j], Ascending(s.domain))
    ensures Interpolated(s, s.domain[j]) == s.codomain[j]
  {
    var d := s.domain;
    var c := s.codomain;
    if j == 0 {
      if 2 < |d| {
        OuterSegmentsStrict(d);
      }
      InterpolatedOnSegment(s, 0, d[0]);
      assert (d[0] - d[0]) / (d[1] - d[0]) == 0.0;
      LerpEnds(c[0], c[1]);
    } else {
      InterpolatedOnSegment(s, j - 1, d[j]);
      FractionOf(d[j] - d[j - 1], d[j] - d[j - 1], 1.0);
      LerpEnds(c[j - 1], c[j]);
    }
  }

  /**
   * At a control point the scale takes the codomain value of the first
   * control point equal to it, the one lower_bound finds: its own value
   * unless the point repeats the one before it.
   */
  lemma InterpolatedAtControlPoint(s: LinearScale, i: nat)
    requires Valid(s) && i < |s.domain|
    ensures var j := LowerBound(s.domain, s.domain[i], Ascending(s.domain));
            j <= i && s.domain[j] == s.domain[i] && Interpolated(s, s.domain[i]) == s.codomain[j]
    ensures i == 0 || s.domain[i - 1] != s.domain[i] ==>
              LowerBound(s.domain, s.domain[i], Ascending(s.domain)) == i
  {
    FirstEqualPoint(s.domain, i);
    InterpolatedAtFirstEqual(s, LowerBound(s.domain, s.domain[i], Ascending(s.domain)));
  }

  /** Applying the scale to a control point that does not repeat the one before it yields its codomain value. */
  lemma ApplyAtControlPoint(s: LinearScale, i: nat)
    requires Valid(s) && i < |s.domain| && (i == 0 || s.domain[i - 1] != s.domain[i])
    requires s.clamp ==> s.codomain[0] <= s.codomain[i] <= s.codomain[|s.codomain| - 1]
    ensures Apply(s, s.domain[i]) == s.codomain[i]
  {
    InterpolatedAtControlPoint(s, i);
  }

  /**
   * The lower_bound position is clamped to [1, |p| - 1]: a point at or before
   * the first control point, or past the last, extrapolates along the
   * outermost segment.
   */
  lemma InterpolatedBeyondEnds(s: LinearScale, x: real)
    requires Valid(s)
    ensures var d := s.domain;
            var c := s.codomain;
            !Precedes(d[0], x, Ascending(d)) ==>
              Interpolated(s, x) == Lerp(c[0], c[1], (x - d[0]) / (d[1] - d[0]))
    ensures var d := s.domain;
            var c := s.codomain;
            var n := |d|;
            Precedes(d[n - 1], x, Ascending(d)) ==>
              Interpolated(s, x) == Lerp(c[n - 2], c[n - 1], (x - d[n - 2]) / (d[n - 1] - d[n - 2]))
  {
    var d := s.domain;
    var n := |d|;
    if !Precedes(d[0], x, Ascending(d)) {
      PrecedesBefore(d, 0, 1, x);
      InterpolatedOnSegment(s, 0, x);
    }
    if Precedes(d[n - 1], x, Ascending(d)) {
      PrecedesBefore(d, n - 2, n - 1, x);
      InterpolatedOnSegment(s, n - 2, x);
    }
  }

  /** The descending three-point scale of the tests: 5, 0, -10 onto 0, 10, 60, at 10, 2.5, -2 and -20. */
  lemma DescendingThreePointExample(domain: seq<real>, codomain: seq<real>, x: real, y: real)
    requires domain == [5.0, 0.0, -10.0] && codomain == [0.0, 10.0, 60.0]
    requires (x == 10.0 && y == -10.0) || (x == 2.5 && y == 5.0) || (x == -2.0 && y == 20.0) || (x == -20.0 && y == 110.0)
    ensures var s := Make(domain, codomain, false);
            Valid(s) && Apply(s, x) == y
  {
    var s := Make(domain, codomain, false);
    assert Precedes(domain[0], domain[1], false) && Precedes(domain[1], domain[2], false);
    assert Valid(s);
    if x == 10.0 {
      InterpolatedOnSegment(s, 0, x);
      FractionOf(x - 5.0, 0.0 - 5.0, -1.0);
      assert Lerp(0.0, 10.0, -1.0) == y;
    } else if x == 2.5 {
      InterpolatedOnSegment(s, 0, x);
      FractionOf(x - 5.0, 0.0 - 5.0, 0.5);
      assert Lerp(0.0, 10.0, 0.5) == y;
    } else if x == -2.0 {
      InterpolatedOnSegment(s, 1, x);
      FractionOf(x - 0.0, -10.0 - 0.0, 0.2);
      assert Lerp(10.0, 60.0, 0.2) == y;
    } else {
      InterpolatedOnSegment(s, 1, x);
      FractionOf(x - 0.0, -10.0 - 0.0, 2.0);
      assert Lerp(10.0, 60.0, 2.0) == y;
    }
  }

  /**
   * A repeated inner point makes a step: over 0, 5, 5, 10 onto 0, 1, 2, 3,
   * lower_bound sends 5 to the first segment, where it is its end, and 7 to
   * the third.
   */
  lemma RepeatedInnerPointExample(domain: seq<real>, codomain: seq<real>, x: real, y: real)
    requires domain == [0.0, 5.0, 5.0, 10.0] && codomain == [0.0, 1.0, 2.0, 3.0]
    requires (x == 2.5 && y == 0.5) || (x == 5.0 && y == 1.0) || (x == 7.0 && y == 2.4)
    ensures var s := Make(domain, codomain, false);
            Valid(s) && Apply(s, x) == y
  {
    var s := Make(domain, codomain, false);
    assert Valid(s);
    if x == 7.0 {
      InterpolatedOnSegment(s, 2, x);
      FractionOf(x - 5.0, 10.0 - 5.0, 0.4);
      assert Lerp(2.0, 3.0, 0.4) == y;
    } else {
      InterpolatedOnSegment(s, 0, x);
      FractionOf(x - 0.0, 5.0 - 0.0, x / 5.0);
      assert Lerp(0.0, 1.0, x / 5.0) == y;
    }
  }

  /** The clamped three-point scale of the tests: -1, 0, 1 onto 0, 1, 2, at -2, 0.5 and 2. */
  lemma ClampedThreePointExample(domain: seq<real>, codomain: seq<real>, x: real, y: real)
    requires domain == [-1.0, 0.0, 1.0] && codomain == [0.0, 1.0, 2.0]
    requires (x == -2.0 && y == 0.0) || (x == 0.5 && y == 1.5) || (x == 2.0 && y == 2.0)
    ensures var s := Make(domain, codomain, true);
            Valid(s) && Apply(s, x) == y
  {
    var s := Make(domain, codomain, true);
    assert Valid(s);
    if x == -2.0 {
      InterpolatedOnSegment(s, 0, x);
      FractionOf(x + 1.0, 0.0 + 1.0, -1.0);
      assert Interpolated(s, x) == -1.0;
    } else {
      InterpolatedOnSegment(s, 1, x);
      FractionOf(x - 0.0, 1.0 - 0.0, x);
      assert Interpolated(s, x) == 1.0 + x;
    }
  }

  /** detail::replaced_front_and_back: the range with its first and last element replaced. */
  function ReplacedFrontAndBack(front: real, p: seq<real>, back: real): (r: seq<real>)
    requires |p| >= 2
    ensures |r| == |p|
    ensures r[0] == front && r[|r| - 1] == back
    ensures forall i :: 0 < i < |p| - 1 ==> r[i] == p[i]
  {
    [front] + p[1..|p| - 1] + [back]
  }

  /**
   * linear_scale::snapped_to_grid: the outer domain points are rounded
   * outward to the grid of snapped_tick_increment on the ascending limits,
   * swapped back for a descending domain; the codomain and the interior
   * points are kept.
   */
  function SnappedToGrid(s: LinearScale, hint: nat): (r: LinearScale)
    requires Valid(s)
    ensures Valid(r)
    ensures |r.domain| == |s.domain| && r.codomain == s.codomain && r.clamp == s.clamp
    ensures forall i :: 0 < i < |s.domain| - 1 ==> r.domain[i] == s.domain[i]
  {
    var d := s.domain;
    var (start, stop) := NiceTicks.AscendingLimits(d);
    OuterSegmentsStrict(d);
    var inc := NiceTicks.SnappedTickIncrement(start, stop, hint).value;
    NiceTicks.SnapEnclosing(start, inc);
    NiceTicks.SnapEnclosing(stop, inc);
    var x0 := NiceTicks.SnapDown(start, inc);
    var x1 := NiceTicks.SnapUp(stop, inc);
    var (front, back) := if d[0] > d[|d| - 1] then (x1, x0) else (x0, x1);
    var snapped := ReplacedFrontAndBack(front, d, back);
    SnappedStaysMonotone(d, snapped);
    LinearScale(snapped, s.codomain, s.clamp)
  }

  /** Moving the outer points outward keeps a monotone domain monotone, in the same direction. */
  lemma SnappedStaysMonotone(d: seq<real>, snapped: seq<real>)
    requires Monotone(d) && |snapped| == |d|
    requires forall i :: 0 < i < |d| - 1 ==> snapped[i] == d[i]
    requires !Precedes(d[0], snapped[0], Ascending(d))
    requires !Precedes(snapped[|d| - 1], d[|d| - 1], Ascending(d))
    ensures Monotone(snapped) && Ascending(snapped) == Ascending(d)
  {
    var ascending := Ascending(d);
    var n := |d|;
    OuterSegmentsStrict(d);
    assert Ascending(snapped) == ascending;
    forall i, j | 0 <= i < j < n ensures !Precedes(snapped[j], snapped[i], ascending) {
      assert !Precedes(d[j], d[i], ascending);
    }
  }

  /**
   * The snapped outer points enclose the old ones and lie on the grid of the
   * snapped increment: the low end is floor(lo / s) * s and the high end
   * ceil(hi / s) * s for the spacing s, whichever end of the domain they sit at.
   */
  lemma SnappedToGridEnds(s: LinearScale, hint: nat)
    requires Valid(s)
    ensures var d := s.domain;
            var r := SnappedToGrid(s, hint).domain;
            var n := |d|;
            var lo := Min(d[0], d[n - 1]);
            var hi := Max(d[0], d[n - 1]);
            var inc := NiceTicks.SnappedTickIncrement(lo, hi, hint).value;
            var sp := NiceTicks.Spacing(inc);
            var low := NiceTicks.GridPoint(Floor(lo / sp), sp);
            var high := NiceTicks.GridPoint(Ceil(hi / sp), sp);
            && low <= lo && hi <= high
            && (Ascending(d) ==> r[0] == low && r[n - 1] == high)
            && (!Ascending(d) ==> r[0] == high && r[n - 1] == low)
  {
    var d := s.domain;
    var n := |d|;
    OuterSegmentsStrict(d);
    var lo := Min(d[0], d[n - 1]);
    var hi := Max(d[0], d[n - 1]);
    assert NiceTicks.AscendingLimits(d) == (lo, hi);
    var inc := NiceTicks.SnappedTickIncrement(lo, hi, hint).value;
    NiceTicks.SnapEnclosing(lo, inc);
    NiceTicks.SnapEnclosing(hi, inc);
  }

  /** linear_scale::ticks: linear_ticks between the first and last domain points, all within them. */
  function Ticks(s: LinearScale, hint: nat): (r: seq<real>)
    requires WellFormed(s)
    ensures var a := s.domain[0];
            var b := s.domain[|s.domain| - 1];
            forall x :: x in r ==> Min(a, b) <= x <= Max(a, b)
  {
    NiceTicks.LinearTicksWithinBounds(s.domain[0], s.domain[|s.domain| - 1], hint);
    NiceTicks.LinearTicks(s.domain[0], s.domain[|s.domain| - 1], hint)
  }
}
