/**
 * The filled area of include/cdv/elem/area.hpp: a closed polygon given by
 * its x and y coordinates, and the two fill_between helpers that build the
 * polygon under a line, down to a constant base or to a second line.
 * Coordinates are pixels; the fill properties are carried along unread.
 */
module Area {
  import opened Wrappers
  import opened Seqs

  datatype Area<F> = Area(xs: seq<real>, ys: seq<real>, fill: F)

  /** The area constructor: as many x as y coordinates, or an invalid argument. */
  function MakeArea<F>(xs: seq<real>, ys: seq<real>, fill: F): (r: Result<Area<F>>)
    ensures r.Err? <==> |xs| != |ys|
    ensures r.Err? ==> r.error == InvalidArgument
    ensures r.Ok? ==> r.value.xs == xs && r.value.ys == ys && r.value.fill == fill
  {
    if |xs| != |ys| then Err(InvalidArgument) else Ok(Area(xs, ys, fill))
  }

  /**
   * fill_between down to the constant y: the line is closed by the points
   * (last x, y) and (first x, y). The source reads the first and last x,
   * so xs must not be empty.
   */
  method FillBetweenBase<F>(xs: seq<real>, ys: seq<real>, y: real, fill: F) returns (r: Result<Area<F>>)
    requires |xs| > 0
    ensures r.Err? <==> |xs| != |ys|
    ensures r.Err? ==> r.error == InvalidArgument
    ensures r.Ok? ==> r.value.xs == xs + [xs[|xs| - 1], xs[0]] && r.value.ys == ys + [y, y]
    ensures r.Ok? ==> r.value.fill == fill
  {
    var allXs := xs;
    allXs := allXs + [allXs[|allXs| - 1], allXs[0]];
    var allYs := ys;
    allYs := allYs + [y, y];
    r := MakeArea(allXs, allYs, fill);
  }

  /**
   * With the constant base, the polygon runs along the line and back along
   * the base: n + 2 points, the first n those of the line, the last two on
   * the base below the line's two ends.
   */
  lemma BaseClosesPolygon(xs: seq<real>, ys: seq<real>, y: real)
    requires |xs| == |ys| > 0
    ensures var ax := xs + [xs[|xs| - 1], xs[0]];
            var ay := ys + [y, y];
            && |ax| == |ay| == |xs| + 2
            && ax[..|xs|] == xs && ay[..|ys|] == ys
            && (ax[|xs|], ay[|xs|]) == (xs[|xs| - 1], y)
            && (ax[|xs| + 1], ay[|xs| + 1]) == (xs[0], y)
  {
    var ax := xs + [xs[|xs| - 1], xs[0]];
    var ay := ys + [y, y];
    assert ax[..|xs|] == xs && ay[..|ys|] == ys;
  }

  /**
   * fill_between down to a second line, as written: the xs followed by
   * themselves reversed, and the top line followed by the base line
   * reversed; the area constructor rejects only a total length mismatch.
   */
  function FilledBetweenLines<F>(xs: seq<real>, top: seq<real>, base: seq<real>, fill: F): (r: Result<Area<F>>)
    ensures r.Err? <==> 2 * |xs| != |top| + |base|
    ensures r.Err? ==> r.error == InvalidArgument
    ensures r.Ok? ==> |r.value.xs| == 2 * |xs| && r.value.xs[..|xs|] == xs
    ensures r.Ok? ==> forall j :: |xs| <= j < 2 * |xs| ==> r.value.xs[j] == xs[2 * |xs| - 1 - j]
    ensures r.Ok? ==> |r.value.ys| == |top| + |base| && r.value.ys[..|top|] == top
    ensures r.Ok? ==> forall j :: |top| <= j < |top| + |base| ==> r.value.ys[j] == base[|top| + |base| - 1 - j]
    ensures r.Ok? ==> r.value.fill == fill
  {
    var ax := xs + Reverse(xs);
    var ay := top + Reverse(base);
    assert ax[..|xs|] == xs && ay[..|top|] == top;
    MakeArea(ax, ay, fill)
  }

  /** fill_between with a base line: the coordinate vectors grow by the reversed xs and base line. */
  method FillBetweenLines<F>(xs: seq<real>, top: seq<real>, base: seq<real>, fill: F) returns (r: Result<Area<F>>)
    ensures r == FilledBetweenLines(xs, top, base, fill)
  {
    var allXs := xs;
    allXs := allXs + Reverse(xs);
    var allYs := top;
    allYs := allYs + Reverse(base);
    r := MakeArea(allXs, allYs, fill);
  }

  /**
   * When the lines and the xs have the same length n, the polygon has 2n
   * points: the top line left to right, then the base line right to left.
   */
  lemma LinesClosePolygon<F>(xs: seq<real>, top: seq<real>, base: seq<real>, fill: F, i: nat)
    requires |top| == |xs| && |base| == |xs| && i < |xs|
    ensures FilledBetweenLines(xs, top, base, fill).Ok?
    ensures var a := FilledBetweenLines(xs, top, base, fill).value;
            && |a.xs| == |a.ys| == 2 * |xs|
            && (a.xs[i], a.ys[i]) == (xs[i], top[i])
            && (a.xs[|xs| + i], a.ys[|xs| + i]) == (xs[|xs| - 1 - i], base[|xs| - 1 - i])
  {
  }

  /**
   * The length check of the line overload compares only the totals: two xs
   * with a three-point top line and a one-point base line are accepted.
   */
  lemma AsWrittenAcceptsUnevenLines<F>(fill: F)
    ensures FilledBetweenLines([1.0, 2.0], [3.0, 4.0, 5.0], [6.0], fill).Ok?
  {
  }

  /**
   * fill_between with a base line, checked: the top and base lines must each
   * have as many points as there are xs, otherwise an invalid argument.
   */
  function FilledBetweenLinesChecked<F>(xs: seq<real>, top: seq<real>, base: seq<real>, fill: F): (r: Result<Area<F>>)
    ensures r.Err? <==> |top| != |xs| || |base| != |xs|
    ensures r.Err? ==> r.error == InvalidArgument
    ensures r.Ok? ==> |r.value.xs| == |r.value.ys| == 2 * |xs|
    ensures r.Ok? ==> forall i :: 0 <= i < |xs| ==> r.value.xs[i] == xs[i] && r.value.ys[i] == top[i]
    ensures r.Ok? ==> forall j :: |xs| <= j < 2 * |xs| ==>
              r.value.xs[j] == xs[2 * |xs| - 1 - j] && r.value.ys[j] == base[2 * |xs| - 1 - j]
  {
    if |top| != |xs| || |base| != |xs| then Err(InvalidArgument)
    else FilledBetweenLines(xs, top, base, fill)
  }

  /** The three-point example: xs 3 2 1 and base 9 8 7 follow the line 1 2 3 / 4 5 6. */
  lemma LinesExample<F>(xs: seq<real>, top: seq<real>, base: seq<real>, fill: F)
    requires xs == [1.0, 2.0, 3.0] && top == [4.0, 5.0, 6.0] && base == [7.0, 8.0, 9.0]
    ensures FilledBetweenLinesChecked(xs, top, base, fill)
         == Ok(Area([1.0, 2.0, 3.0, 3.0, 2.0, 1.0], [4.0, 5.0, 6.0, 9.0, 8.0, 7.0], fill))
  {
    assert Reverse(xs) == [3.0, 2.0, 1.0];
    assert Reverse(base) == [9.0, 8.0, 7.0];
    assert xs + Reverse(xs) == [1.0, 2.0, 3.0, 3.0, 2.0, 1.0];
    assert top + Reverse(base) == [4.0, 5.0, 6.0, 9.0, 8.0, 7.0];
  }
}
