/**
 * The pie layout of include/cdv/elem/pie_slices.hpp: the angle range of a
 * pie is shared out between the inputs in proportion to their values, the
 * slices following each other from the start angle.
 */
module PieSlices {
  import opened RealMath

  /** The full turn in radians, as the source's literal (the library rounds it to a double). */
  const Tau: real := 6.283185307179586476925286766559005768

  datatype PieGeometry = PieGeometry(startAngle: real, endAngle: real, padAngle: real)

  /** The default geometry: a full turn from angle zero, without padding. */
  const DefaultGeometry := PieGeometry(0.0, Tau, 0.0)

  /** An input together with the value the caller's get_value gives it. */
  datatype PieInput<D> = PieInput(data: D, value: real)

  datatype PieSlice<D> = PieSlice(data: D, startAngle: real, endAngle: real, padAngle: real)

  /** The sum of the first i inputs' values, accumulated from the front. */
  function PrefixSum<D>(inputs: seq<PieInput<D>>, i: nat): real
    requires i <= |inputs|
  {
    if i == 0 then 0.0 else PrefixSum(inputs, i - 1) + inputs[i - 1].value
  }

  /** The sum of all the inputs' values. */
  function Sum<D>(inputs: seq<PieInput<D>>): real
  {
    PrefixSum(inputs, |inputs|)
  }

  /** The angle range to share out: end minus start, clamped to one turn either way. */
  function TotalRange(g: PieGeometry): (t: real)
    ensures -Tau <= t <= Tau
    ensures -Tau <= g.endAngle - g.startAngle <= Tau ==> t == g.endAngle - g.startAngle
    ensures g.endAngle - g.startAngle > Tau ==> t == Tau
    ensures g.endAngle - g.startAngle < -Tau ==> t == -Tau
  {
    var d := g.endAngle - g.startAngle;
    if d < -Tau then -Tau else if Tau < d then Tau else d
  }

  /** The pad angle of every slice: the requested one, at most the range's size shared by n. */
  function Padding(g: PieGeometry, n: nat): (p: real)
    requires n > 0
    ensures p <= g.padAngle && p <= Abs(TotalRange(g)) / n as real
    ensures p == g.padAngle || p == Abs(TotalRange(g)) / n as real
  {
    Min(Abs(TotalRange(g)) / n as real, g.padAngle)
  }

  /** The angle per unit of value: the range over the sum of the values. */
  function UnitRange(g: PieGeometry, sum: real): real
    requires sum != 0.0
  {
    TotalRange(g) / sum
  }

  /**
   * Slice i for a start angle, a unit angle per value and a pad angle:
   * input i's data, from the start plus the share of the values before it
   * to the start plus the share of the values up to and including it.
   */
  function SliceAt<D>(inputs: seq<PieInput<D>>, start: real, unit: real, pad: real, i: nat): PieSlice<D>
    requires i < |inputs|
  {
    PieSlice(inputs[i].data, start + PrefixSum(inputs, i) * unit, start + PrefixSum(inputs, i + 1) * unit, pad)
  }

  /**
   * The slices pie_slices yields: none for no inputs; otherwise one slice
   * per input, in order, from the geometry's start angle with its unit
   * angle and pad angle.
   */
  function Slices<D>(inputs: seq<PieInput<D>>, g: PieGeometry): (r: seq<PieSlice<D>>)
    requires |inputs| > 0 ==> Sum(inputs) != 0.0
    ensures |r| == |inputs|
  {
    if |inputs| == 0 then []
    else
      var u := UnitRange(g, Sum(inputs));
      var pad := Padding(g, |inputs|);
      seq(|inputs|, i requires 0 <= i < |inputs| => SliceAt(inputs, g.startAngle, u, pad, i))
  }

  /** Slice i of the layout is the slice at i for the geometry's start, unit and pad angle. */
  lemma {:induction false} SliceIs<D>(inputs: seq<PieInput<D>>, g: PieGeometry, i: nat)
    requires i < |inputs| && Sum(inputs) != 0.0
    ensures Slices(inputs, g)[i] == SliceAt(inputs, g.startAngle, UnitRange(g, Sum(inputs)), Padding(g, |inputs|), i)
  {
  }

  /** Moving the running angle on by one value's units keeps it at the start plus the share so far. */
  lemma {:induction false} NextAngle<D>(inputs: seq<PieInput<D>>, start: real, unit: real, angle: real, i: nat)
    requires i < |inputs| && angle == start + PrefixSum(inputs, i) * unit
    ensures angle + inputs[i].value * unit == start + PrefixSum(inputs, i + 1) * unit
  {
    AdvanceBy(start, PrefixSum(inputs, i), PrefixSum(inputs, i + 1), inputs[i].value, unit);
  }

  /**
   * pie_slices: a total range clamped to one turn, a pad angle and a unit
   * angle per value computed once; then each input in turn gets the slice
   * from the running start angle on by its value in units, and the next
   * slice starts where it ends. The values must not sum to zero, since the
   * unit divides by their sum.
   */
  method PieSlicesOf<D>(inputs: seq<PieInput<D>>, g: PieGeometry) returns (slices: seq<PieSlice<D>>)
    requires |inputs| > 0 ==> Sum(inputs) != 0.0
    ensures slices == Slices(inputs, g)
  {
    slices := [];
    if |inputs| > 0 {
      var sum := 0.0;
      for k := 0 to |inputs|
        invariant sum == PrefixSum(inputs, k)
      {
        sum := sum + inputs[k].value;
      }
      var totalRange := TotalRange(g);
      var padding := Min(Abs(totalRange) / |inputs| as real, g.padAngle);
      var unitRange := totalRange / sum;
      var startAngle := g.startAngle;
      ZeroProduct(PrefixSum(inputs, 0), unitRange);
      for i := 0 to |inputs|
        invariant |slices| == i
        invariant startAngle == g.startAngle + PrefixSum(inputs, i) * unitRange
        invariant forall j :: 0 <= j < i ==> slices[j] == SliceAt(inputs, g.startAngle, unitRange, padding, j)
      {
        var endAngle := startAngle + inputs[i].value * unitRange;
        NextAngle(inputs, g.startAngle, unitRange, startAngle, i);
        slices := slices + [PieSlice(inputs[i].data, startAngle, endAngle, padding)];
        startAngle := endAngle;
      }
    }
  }

  /** A product with a zero factor is zero. */
  lemma ZeroProduct(a: real, u: real)
    requires a == 0.0
    ensures a * u == 0.0
  {
  }

  /** The first slice starts at the start angle; each later one starts where the previous one ends. */
  lemma {:induction false} SlicesContiguous<D>(inputs: seq<PieInput<D>>, g: PieGeometry, i: nat)
    requires i < |inputs| && Sum(inputs) != 0.0
    ensures i == 0 ==> Slices(inputs, g)[0].startAngle == g.startAngle
    ensures i > 0 ==> Slices(inputs, g)[i].startAngle == Slices(inputs, g)[i - 1].endAngle
  {
    SliceIs(inputs, g, i);
    if i == 0 {
      ZeroProduct(PrefixSum(inputs, 0), UnitRange(g, Sum(inputs)));
    } else {
      SliceIs(inputs, g, i - 1);
    }
  }

  /** Each slice spans its value's share of the total range: value times range over sum. */
  lemma {:induction false} SliceSpan<D>(inputs: seq<PieInput<D>>, g: PieGeometry, i: nat)
    requires i < |inputs| && Sum(inputs) != 0.0
    ensures Slices(inputs, g)[i].endAngle - Slices(inputs, g)[i].startAngle
         == inputs[i].value * UnitRange(g, Sum(inputs))
  {
    SliceIs(inputs, g, i);
    SliceAtSpan(inputs, g.startAngle, UnitRange(g, Sum(inputs)), Padding(g, |inputs|), i);
  }

  /** The slice at i turns by exactly its value in units. */
  lemma {:induction false} SliceAtSpan<D>(inputs: seq<PieInput<D>>, start: real, unit: real, pad: real, i: nat)
    requires i < |inputs|
    ensures SliceAt(inputs, start, unit, pad, i).endAngle - SliceAt(inputs, start, unit, pad, i).startAngle
         == inputs[i].value * unit
  {
    NextAngle(inputs, start, unit, start + PrefixSum(inputs, i) * unit, i);
  }

  /** The last slice ends at the start angle plus the whole (clamped) range. */
  lemma {:induction false} LastSliceEndsAtRange<D>(inputs: seq<PieInput<D>>, g: PieGeometry)
    requires |inputs| > 0 && Sum(inputs) != 0.0
    ensures Slices(inputs, g)[|inputs| - 1].endAngle == g.startAngle + TotalRange(g)
  {
    var sum := Sum(inputs);
    SliceIs(inputs, g, |inputs| - 1);
    DivMul(TotalRange(g), sum);
    assert sum * UnitRange(g, sum) == (TotalRange(g) / sum) * sum;
  }

  /**
   * With positive values and a negative range (a positive sum), every
   * slice turns backwards: it ends before it starts.
   */
  lemma {:induction false} NegativeRangeReverses<D>(inputs: seq<PieInput<D>>, g: PieGeometry, i: nat)
    requires |inputs| > 0 ==> Sum(inputs) > 0.0
    requires i < |inputs| && inputs[i].value > 0.0 && TotalRange(g) < 0.0
    ensures Slices(inputs, g)[i].endAngle < Slices(inputs, g)[i].startAngle
  {
    var u := UnitRange(g, Sum(inputs));
    SliceSpan(inputs, g, i);
    assert u < 0.0;
    MulStrict(u, 0.0, inputs[i].value);
    assert inputs[i].value * u == u * inputs[i].value;
  }

  /** Four values 3, 3, 6 and 12 over four radians: slices end at 0.5, 1, 2 and 4. */
  lemma {:induction false} FourRadiansExample(inputs: seq<PieInput<real>>, g: PieGeometry, k: nat)
    requires inputs == [PieInput(3.0, 3.0), PieInput(3.0, 3.0), PieInput(6.0, 6.0), PieInput(12.0, 12.0)]
    requires g == PieGeometry(0.0, 4.0, 0.0) && k < 4
    ensures Sum(inputs) == 24.0
    ensures Slices(inputs, g)[k].endAngle == [0.5, 1.0, 2.0, 4.0][k]
  {
    assert PrefixSum(inputs, 1) == 3.0;
    assert PrefixSum(inputs, 2) == 6.0;
    assert PrefixSum(inputs, 3) == 12.0;
    assert Sum(inputs) == 24.0;
    assert UnitRange(g, 24.0) == 1.0 / 6.0;
    SliceIs(inputs, g, k);
  }

  /** Two equal values with an end angle of 7, beyond a full turn: each gets half a turn. */
  lemma {:induction false} ClampedExample(inputs: seq<PieInput<real>>, g: PieGeometry)
    requires inputs == [PieInput(3.0, 3.0), PieInput(3.0, 3.0)] && g == PieGeometry(0.0, 7.0, 0.0)
    ensures Sum(inputs) == 6.0
    ensures var s := Slices(inputs, g);
            s[0].endAngle == Tau / 2.0 && s[1].startAngle == Tau / 2.0 && s[1].endAngle == Tau
  {
    assert PrefixSum(inputs, 1) == 3.0;
    assert Sum(inputs) == 6.0;
    SliceIs(inputs, g, 0);
    SliceIs(inputs, g, 1);
    assert TotalRange(g) == Tau;
  }

  /** Two equal values from angle 4 back to 0: the slices run 4 to 2 and 2 to 0. */
  lemma {:induction false} ReversedExample(inputs: seq<PieInput<real>>, g: PieGeometry)
    requires inputs == [PieInput(3.0, 3.0), PieInput(3.0, 3.0)] && g == PieGeometry(4.0, 0.0, 0.0)
    ensures Sum(inputs) == 6.0
    ensures var s := Slices(inputs, g);
            s[0].startAngle == 4.0 && s[0].endAngle == 2.0 && s[1].startAngle == 2.0 && s[1].endAngle == 0.0
  {
    assert PrefixSum(inputs, 1) == 3.0;
    assert Sum(inputs) == 6.0;
    SliceIs(inputs, g, 0);
    SliceIs(inputs, g, 1);
    assert TotalRange(g) == -4.0;
  }
}
