# cdv scales, layouts and colours in Dafny

This project models the computational core of cdv, a C++ library for drawing
charts: the scales that map data to positions, the "nice" tick
generators they share, the layouts that turn data into stacked ranges, pie
slices and filled areas, line styles, and the packed RGBA colour type with
its string parser. The graphics back end is not modelled: drawing
surfaces, text, fonts and figures are out of scope.

Each module follows one source header:

- `NiceTicks` (`ticks.dfy`) covers `scl/ticks.hpp`: the error factor and
  the tick increment, which encodes a step below one as a negative
  reciprocal. It also covers the tick step, snapped increments and the tick
  vector, which is filled in place in an array.
- `LinearScale`, `SequentialScale`, `BandScale`, `PointScale`,
  `OrdinalScale` and `TimeScale` cover the scale headers.
  - `OrdinalScale` is a class, because the non-const `operator()` appends
    unknown keys to the domain.
  - `TimeScale` works on seconds since 1970-01-01.
  - `CivilCalendar` (`civil_calendar.dfy`) models the date library's
    proleptic Gregorian `year_month_day` that the time scale uses. That
    library (`stdx/date.hpp`) is not part of this model. Its day-count
    conversion is written out and proved a round trip.
- `RangeStack` covers `elem/range_stack.hpp`. It is a class whose
  `AddLayers` appends stacked layers one by one.
- `Area`, `PieSlices` and `LineProperties` cover `elem/area.hpp`,
  `elem/pie_slices.hpp` and `elem/line_properties.hpp`.
- `RgbaColor` and `ColorStrings` cover `core/rgba_color.hpp` and
  `src/core/rgba_color.cpp`.
- `Seqs`, `RealMath` and `Wrappers` are shared helpers:
  - `ranges::find` as an index;
  - `floor`, `ceil`, powers of ten and `floor(log10 x)` on exact reals;
  - `Result` and `Option`.

Some conventions run through all modules:

- Numbers in the source that are `double` are `real` here. The model
  computes exactly, with no rounding.
- `std::uint32_t` is an integer subset type below 2^32. Masks and shifts
  on it are written as division and remainder.
- An exception becomes an `Err` value of a `Result`. Its kind is kept:
  `DomainError`, `InvalidArgument` or `OutOfRange`.
- Input ranges are sequences.

## Model

| member | source | states |
|---|---|---|
| NiceTicks.ErrorFactor | include/cdv/scl/ticks.hpp:19-27 | the factor picked for a step error is one of 1, 2, 5, 10 |
| NiceTicks.ErrorFactorMonotone | include/cdv/scl/ticks.hpp:19-27 | a larger error never gets a smaller factor |
| NiceTicks.ErrorFactorNear | include/cdv/scl/ticks.hpp:19-27 | for an error in [1, 10) the factor lies in (0.6 e, 1.6 e]: the nice step stays near the naive one |
| NiceTicks.AscendingValues | include/cdv/scl/ticks.hpp:29-33 | the result is the two values, in ascending order |
| NiceTicks.AscendingLimits | include/cdv/scl/ticks.hpp:35-38 | the result is the minimum and maximum of the first and last element |
| NiceTicks.Spacing | include/cdv/scl/ticks.hpp:113-116 | the spacing an increment stands for (itself, or 1 / -increment when negative) is positive |
| NiceTicks.HintDivisor | include/cdv/scl/ticks.hpp:70 | a hint of zero divides as one, any other hint as itself |
| NiceTicks.NaiveStep | include/cdv/scl/ticks.hpp:70 | the naive step of an increasing range is positive |
| NiceTicks.EncodeSpacing | include/cdv/scl/ticks.hpp:74-75 | the encoded increment is non-zero, positive exactly when the exponent is not negative, and decodes to factor times ten to the exponent |
| NiceTicks.NiceStep | include/cdv/scl/ticks.hpp:71-74 | the nice step (factor times power of ten) is positive |
| NiceTicks.IncrementFor | include/cdv/scl/ticks.hpp:71-75 | the increment is non-zero and positive exactly when the naive step is at least one |
| NiceTicks.IncrementForSpacing | include/cdv/scl/ticks.hpp:71-75 | the spacing the increment encodes is the nice step |
| NiceTicks.TickIncrement | include/cdv/scl/ticks.hpp:65-76 | an empty range gives minus infinity; otherwise a non-zero increment, positive exactly when the naive step is at least one |
| NiceTicks.TickIncrementNice | include/cdv/scl/ticks.hpp:65-76 | the increment's spacing is 1, 2, 5 or 10 times the power of ten below the naive step |
| NiceTicks.IncrementForNice | include/cdv/scl/ticks.hpp:71-75 | the same, for the increment of any positive naive step |
| NiceTicks.IncrementForNear | include/cdv/scl/ticks.hpp:71-75 | the spacing lies in (0.6, 1.6] times the naive step |
| NiceTicks.TickIncrementNearNaive | include/cdv/scl/ticks.hpp:65-76 | the increment's spacing lies in (0.6, 1.6] times the range over the hint |
| NiceTicks.TickIncrementOfUnitRange | include/cdv/scl/ticks.hpp:65-76 | 0 to 10 with hint 10 gives increment 1 |
| NiceTicks.TickIncrementOfSmallRange | include/cdv/scl/ticks.hpp:65-76 | -1 to 1 with hint 10 gives -5 (a spacing of 0.2) |
| NiceTicks.TickIncrementOfTinyRange | include/cdv/scl/ticks.hpp:65-76 | 0.0001 to 0.01 with hint 10 gives -1000 (a spacing of 0.001) |
| NiceTicks.TickIncrementOfEmptyRange | include/cdv/scl/ticks.hpp:65-76 | an empty range gives minus infinity |
| NiceTicks.TickStep | include/cdv/scl/ticks.hpp:94-101 | the step is positive exactly for an increasing range and negative exactly for a decreasing one |
| NiceTicks.TickStepAntisymmetric | include/cdv/scl/ticks.hpp:94-101 | swapping start and stop negates the step |
| NiceTicks.TickStepIsSpacing | include/cdv/scl/ticks.hpp:94-101 | for an increasing range the step is the spacing of the tick increment |
| NiceTicks.FillTickValues | include/cdv/scl/ticks.hpp:40-45 | the array is filled in place with (first + i) times the increment, in reverse order when asked |
| NiceTicks.MakeTickVector | include/cdv/scl/ticks.hpp:47-62 | last - first + 1 values, consecutive ones one increment apart (minus one when reversed) |
| NiceTicks.TickVectorReverse | include/cdv/scl/ticks.hpp:47-62 | the reversed tick vector is the forward one reversed |
| NiceTicks.ScaledBySpacing | include/cdv/scl/ticks.hpp:113-116 | dividing by the spacing is the source's x / inc for a positive increment and x * -inc for a negative one |
| NiceTicks.FirstMultiplier | include/cdv/scl/ticks.hpp:113-116 | the first multiplier is the ceiling of the lower limit over the spacing |
| NiceTicks.LastMultiplier | include/cdv/scl/ticks.hpp:113-116 | the last multiplier is the floor of the upper limit over the spacing |
| NiceTicks.MultiplierRange | include/cdv/scl/ticks.hpp:113-116 | the first multiplier is at most one past the last, so the tick vector is well formed |
| NiceTicks.SourceMultiplierRange | include/cdv/scl/ticks.hpp:113-116 | the same for the source's own expressions in both branches |
| NiceTicks.GridTicks | include/cdv/scl/ticks.hpp:113-116 | one tick per multiplier between the first and the last |
| NiceTicks.SourceGrid | include/cdv/scl/ticks.hpp:113-116 | both branches of linear_ticks build the same grid |
| NiceTicks.TicksOfIncrement | include/cdv/scl/ticks.hpp:110-116 | a finite non-zero increment gives the grid ticks |
| NiceTicks.LinearTicksEdgeCases | include/cdv/scl/ticks.hpp:106-107 | hint 0 gives no ticks; an empty range gives just its value |
| NiceTicks.LinearTicks | include/cdv/scl/ticks.hpp:103-117 | linear_ticks itself; its value is stated by LinearTicksEdgeCases and LinearTicksIsGrid and its bounds by LinearTicksWithinBounds |
| NiceTicks.LinearTicksIsGrid | include/cdv/scl/ticks.hpp:103-117 | otherwise the ticks are the grid of the tick increment over the ascending limits, reversed for a decreasing range |
| NiceTicks.LinearTicksReversed | include/cdv/scl/ticks.hpp:103-117 | swapping start and stop reverses the ticks |
| NiceTicks.GridTicksOnGrid | include/cdv/scl/ticks.hpp:47-62 | every grid tick is a multiple of the spacing within the limits, and the multiples just outside fall outside: the grid is complete |
| NiceTicks.GridTicksWithinBounds | include/cdv/scl/ticks.hpp:113-116 | every grid tick lies within the limits |
| NiceTicks.LinearTicksWithinBounds | include/cdv/scl/ticks.hpp:103-117 | every tick lies between start and stop |
| NiceTicks.SnapDown | include/cdv/scl/ticks.hpp:84 | a value snapped down is the floor multiple of the spacing |
| NiceTicks.SnapUp | include/cdv/scl/ticks.hpp:85 | a value snapped up is the ceiling multiple of the spacing |
| NiceTicks.SnapEnclosing | include/cdv/scl/ticks.hpp:84-90 | the snapped values enclose the value within one spacing |
| NiceTicks.SnappedTickIncrement | include/cdv/scl/ticks.hpp:78-92 | the tick increment of the range widened outward to its first increment's grid: finite, non-zero, and a nice multiple of the decade below the widened range's naive step |
| NiceTicks.SnappedBoundsEnclose | include/cdv/scl/ticks.hpp:78-92 | the snapped start and stop enclose the range within one spacing at each end |
| LinearScale.LowerBound | include/cdv/scl/linear_scale.hpp:33-34 | the index of the first control point that does not precede x, in either direction |
| LinearScale.Clamp | include/cdv/scl/linear_scale.hpp:51 | std::clamp: the value inside the bounds, otherwise the nearer bound |
| LinearScale.LerpEnds | include/cdv/scl/linear_scale.hpp:63-67 | linear interpolation gives a at t = 0 and b at t = 1 |
| LinearScale.InterpolationParameters | include/cdv/scl/linear_scale.hpp:30-39 | for a sorted domain whose outer segments have non-zero length, the segment index is clamped to an inner segment, brackets x, has non-zero length, and t is x's fraction of that segment |
| LinearScale.OuterSegmentsStrict | include/cdv/scl/linear_scale.hpp:33-36 | in a valid domain the first and last segments, and the whole domain, run strictly in the direction front() < back() tests |
| LinearScale.SegmentUnique | include/cdv/scl/linear_scale.hpp:30-39 | any index that brackets x that way is the one chosen |
| LinearScale.Make | include/cdv/scl/linear_scale.hpp:94-100 | the scale keeps the domain and codomain it is given (at least two points, equal lengths) |
| LinearScale.FromPoints | include/cdv/scl/linear_scale.hpp:102-106 | the two-point scale is well formed, and valid when its points differ |
| LinearScale.Interpolated | include/cdv/scl/linear_scale.hpp:41-54 | the value before clamping lies on the line through the chosen segment's two codomain values, at fraction t |
| LinearScale.Apply | include/cdv/scl/linear_scale.hpp:108-112 | unclamped, the interpolated value; clamped, the interpolated value when it lies between the first and last codomain values, otherwise the one it passes |
| LinearScale.InterpolatedOnSegment | include/cdv/scl/linear_scale.hpp:41-54 | on the bracketing segment the result interpolates its two codomain values |
| LinearScale.InterpolatedAtControlPoint | include/cdv/scl/linear_scale.hpp:41-54 | a domain point maps to the codomain value of the first domain point equal to it, which is its own unless it repeats the point before it |
| LinearScale.FirstEqualPoint | include/cdv/scl/linear_scale.hpp:33-34 | lower_bound of a domain point finds the first point equal to it, with a strictly earlier point before it |
| LinearScale.InterpolatedAtFirstEqual | include/cdv/scl/linear_scale.hpp:41-54 | a domain point strictly past the one before it maps to its own codomain value |
| LinearScale.ApplyAtControlPoint | include/cdv/scl/linear_scale.hpp:108-112 | the scale maps each domain point that does not repeat the one before it to its codomain point |
| LinearScale.InterpolatedBeyondEnds | include/cdv/scl/linear_scale.hpp:30-54 | beyond either end the first or last segment extrapolates |
| LinearScale.DescendingThreePointExample | include/cdv/scl/linear_scale.hpp:108-112 | a descending three-point domain maps 10, 2.5, -2, -20 to -10, 5, 20, 110 |
| LinearScale.RepeatedInnerPointExample | include/cdv/scl/linear_scale.hpp:30-39 | a repeated inner point makes a step: over 0, 5, 5, 10 onto 0, 1, 2, 3 the scale maps 2.5, 5 and 7 to 0.5, 1 and 2.4 |
| LinearScale.ClampedThreePointExample | include/cdv/scl/linear_scale.hpp:51 | the clamped scale over -1, 0, 1 onto 0, 1, 2 maps -2, 0.5 and 2 to 0, 1.5 and 2 |
| LinearScale.ReplacedFrontAndBack | include/cdv/scl/linear_scale.hpp:21-28 | same length, new first and last element, the inner elements kept |
| LinearScale.SnappedToGrid | include/cdv/scl/linear_scale.hpp:114-125 | the snapped scale is valid and keeps the codomain, clamping and inner domain points |
| LinearScale.SnappedStaysMonotone | include/cdv/scl/linear_scale.hpp:114-125 | widening both ends keeps the domain monotone in the same direction |
| LinearScale.SnappedToGridEnds | include/cdv/scl/linear_scale.hpp:114-125 | the new ends are the grid points enclosing the limits, swapped for a descending domain |
| LinearScale.Ticks | include/cdv/scl/linear_scale.hpp:127-130 | every tick lies between the first and last domain value |
| SequentialScale.Normalised | include/cdv/scl/sequential_scale.hpp:24-27 | t is x's fraction of the domain: 0 exactly at the start, 1 exactly at the stop |
| SequentialScale.Apply | include/cdv/scl/sequential_scale.hpp:24-27 | the result is the interpolator applied to the normalised value |
| SequentialScale.ApplyAtEnds | include/cdv/scl/sequential_scale.hpp:24-27 | the domain ends map to the interpolator at 0 and 1 |
| SequentialScale.ApplyUnclampedExample | include/cdv/scl/sequential_scale.hpp:24-27 | values outside the domain are not clamped |
| SequentialScale.Ticks | include/cdv/scl/sequential_scale.hpp:29-32 | an empty domain gives its one value; every tick lies within the domain |
| SequentialScale.Domain | include/cdv/scl/sequential_scale.hpp:40 | the domain is start and stop |
| BandScale.Denominator | include/cdv/scl/band_scale.hpp:44-46 | the denominator is the larger of 1 and 2 outer + n - inner |
| BandScale.StepFor | include/cdv/scl/band_scale.hpp:44-47 | the step is between 0 and the width, and step times denominator is the width |
| BandScale.Make | include/cdv/scl/band_scale.hpp:28-49 | the scale keeps its inputs; the band width is the step times (1 - inner), within the width when inner is in [0, 1] |
| BandScale.WidthDecomposition | include/cdv/scl/band_scale.hpp:38-47 | outer padding, n bands and the final correction add up to the total width |
| BandScale.FullWidthWithoutPadding | include/cdv/scl/band_scale.hpp:28-49 | one band without padding spans the whole codomain |
| BandScale.StepOfMake | include/cdv/scl/band_scale.hpp:44-56 | the step recovered from the band width is the step of the construction |
| BandScale.BandWidthOfStep | include/cdv/scl/band_scale.hpp:48-56 | the band width is the step times (1 - inner padding) |
| BandScale.Min | include/cdv/scl/band_scale.hpp:51-62 | a key outside the domain is a domain error; otherwise the start of its band at its first index |
| BandScale.Apply | include/cdv/scl/band_scale.hpp:64-67 | the band's start plus half the band width, with the same error |
| BandScale.MaxOf | include/cdv/scl/band_scale.hpp:69-72 | the band's start plus the band width, with the same error |
| BandScale.ApplyIsMidpoint | include/cdv/scl/band_scale.hpp:64-72 | the value is the midpoint of min and max |
| BandScale.BandStartsStep | include/cdv/scl/band_scale.hpp:51-59 | band starts are one step apart per index |
| BandScale.EndsBeforeNext | include/cdv/scl/band_scale.hpp:51-72 | a band ends no later than any later band starts |
| BandScale.BandsDoNotOverlap | include/cdv/scl/band_scale.hpp:51-72 | the max of an earlier key is at most the min of a later key |
| BandScale.InitialPaddingBounds | include/cdv/scl/band_scale.hpp:57 | the initial padding lies between 0 and twice the outer padding |
| BandScale.BandWithinSteps | include/cdv/scl/band_scale.hpp:51-59 | each band lies between the start and start + step times denominator |
| BandScale.BandsWithinCodomain | include/cdv/scl/band_scale.hpp:28-72 | with an ascending codomain every band lies inside it |
| BandScale.DescendingCodomainScale | include/cdv/scl/band_scale.hpp:28-49 | two bands from 40 to 10 have width 15 |
| BandScale.DescendingBandStarts | include/cdv/scl/band_scale.hpp:51-59 | those bands start at 40 and 55 |
| BandScale.DescendingCodomainExample | include/cdv/scl/band_scale.hpp:64-67 | their centres are 47.5 and 62.5 |
| BandScale.ThreeBandsScale | include/cdv/scl/band_scale.hpp:28-49 | three bands over 10 to 40 have width 10 |
| BandScale.ThreeBandStarts | include/cdv/scl/band_scale.hpp:51-59 | they start at 10, 20 and 30 |
| BandScale.ThreeBandsExample | include/cdv/scl/band_scale.hpp:64-67 | their centres are 15, 25 and 35 |
| BandScale.MissingKeyExample | include/cdv/scl/band_scale.hpp:51-62 | a key outside the domain is a domain error |
| BandScale.AlignedBandsScale | include/cdv/scl/band_scale.hpp:28-49 | inner 0.2, outer 0.1 over 0 to 600 gives band width 160 |
| BandScale.AlignedBandStarts | include/cdv/scl/band_scale.hpp:51-59 | with alignment 0.25 the bands start at 10, 210 and 410 |
| BandScale.AlignedBandsExample | include/cdv/scl/band_scale.hpp:64-67 | their centres are 90, 290 and 490 |
| BandScale.Ticks | include/cdv/scl/band_scale.hpp:79 | the ticks are the domain |
| BandScale.Codomain | include/cdv/scl/band_scale.hpp:77 | the codomain is start and stop |
| PointScale.Denominator | include/cdv/scl/point_scale.hpp:39-41 | the denominator is the larger of 1 and 2 padding + n - 1 |
| PointScale.StepFor | include/cdv/scl/point_scale.hpp:39-42 | the step is between 0 and the width, and step times denominator is the width |
| PointScale.Make | include/cdv/scl/point_scale.hpp:27-43 | the scale keeps its inputs and its step fills the width exactly |
| PointScale.FewPointsTakeWholeWidth | include/cdv/scl/point_scale.hpp:27-43 | up to two points without padding are a whole width apart |
| PointScale.Apply | include/cdv/scl/point_scale.hpp:45-55 | a key outside the domain is a domain error; otherwise the position of its first index |
| PointScale.PositionsStep | include/cdv/scl/point_scale.hpp:45-52 | positions are one step apart per index |
| PointScale.NextPosition | include/cdv/scl/point_scale.hpp:45-52 | the next position is one step further |
| PointScale.ApplyAtPosition | include/cdv/scl/point_scale.hpp:45-52 | a key first seen at index i maps to position i |
| PointScale.ConsecutivePoints | include/cdv/scl/point_scale.hpp:45-52 | consecutive distinct keys map one step apart |
| PointScale.UnpaddedPositions | include/cdv/scl/point_scale.hpp:35-52 | without padding the first point is at the start and the last a whole width further |
| PointScale.EndsWithoutPadding | include/cdv/scl/point_scale.hpp:27-55 | without padding the first and last keys map to the codomain's ends |
| PointScale.InitialPaddingBounds | include/cdv/scl/point_scale.hpp:50 | the initial padding lies between 0 and twice the padding |
| PointScale.PositionWithinSteps | include/cdv/scl/point_scale.hpp:45-52 | each position lies between the start and start + step times denominator |
| PointScale.PointsWithinCodomain | include/cdv/scl/point_scale.hpp:27-55 | with an ascending codomain every point lies inside it |
| PointScale.PaddedPointsScale | include/cdv/scl/point_scale.hpp:27-43 | padding 1/3 over 100 to 200 with two points gives step 60 |
| PointScale.PaddedPointsExample | include/cdv/scl/point_scale.hpp:45-55 | centred they map to 120 and 180; aligned at 0.1 to 104 and 164 |
| PointScale.Ticks | include/cdv/scl/point_scale.hpp:62 | the ticks are the domain |
| PointScale.Codomain | include/cdv/scl/point_scale.hpp:60 | the codomain is start and stop |
| OrdinalScale.Cyclic | include/cdv/scl/ordinal_scale.hpp:47-48 | the index is taken modulo the codomain's size, so the result is in the codomain |
| OrdinalScale.Map | include/cdv/scl/ordinal_scale.hpp:36-49 | a known key maps to the codomain at its index, cyclically; an unknown key gives the default or an invalid-argument error |
| OrdinalScale.MapInCodomain | include/cdv/scl/ordinal_scale.hpp:36-49 | every result is in the codomain or is the default |
| OrdinalScale.AppendKeepsMapping | include/cdv/scl/ordinal_scale.hpp:51-64 | appending a new key changes no existing key's value, and the new key gets the next codomain entry |
| OrdinalScale.AppendKeepsDistinct | include/cdv/scl/ordinal_scale.hpp:59 | appending an unknown key keeps the domain free of duplicates |
| OrdinalScale.ApplyToDomain | include/cdv/scl/ordinal_scale.hpp:51-64 | the domain grows only by an unknown key without a default, and the result is the new domain's mapping of the key |
| OrdinalScale.ApplyAppendsUnknown | include/cdv/scl/ordinal_scale.hpp:51-64 | an unknown key without a default is appended and gets the entry at the old domain size |
| OrdinalScale.ApplyKeepsMapping | include/cdv/scl/ordinal_scale.hpp:51-64 | applying the scale never changes a known key's value |
| OrdinalScale.ApplyIdempotent | include/cdv/scl/ordinal_scale.hpp:51-64 | applying the scale twice to a key changes nothing more |
| OrdinalScale.ApplyKeepsDistinct | include/cdv/scl/ordinal_scale.hpp:51-64 | a domain without duplicates stays so |
| OrdinalScale.OrdinalScale.constructor | include/cdv/scl/ordinal_scale.hpp:27-34 | the scale holds the given domain, codomain and default |
| OrdinalScale.OrdinalScale.Lookup | include/cdv/scl/ordinal_scale.hpp:36-49 | the const call: an unknown key without a default is an invalid-argument error; otherwise a codomain entry or the default |
| OrdinalScale.OrdinalScale.Apply | include/cdv/scl/ordinal_scale.hpp:51-64 | the non-const call: the new domain and the result are those of ApplyToDomain |
| OrdinalScale.OrdinalScale.MakeOrdinalScale | include/cdv/scl/ordinal_scale.hpp:80-86 | an empty codomain is an invalid-argument error; otherwise a scale with an empty domain |
| OrdinalScale.OrdinalScale.New | include/cdv/scl/ordinal_scale.hpp:27-34 | an empty codomain is an invalid-argument error; otherwise a scale with the given domain |
| OrdinalScale.KnownKeysExample | include/cdv/scl/ordinal_scale.hpp:36-49 | keys 1, 2, 3 over A, B map to A, B, A |
| OrdinalScale.InsertionOrderExample | include/cdv/scl/ordinal_scale.hpp:51-64 | new keys 6, 5, 4 are appended in call order and map to B, A, B |
| OrdinalScale.RetainedMappingExample | include/cdv/scl/ordinal_scale.hpp:51-64 | keys keep their values across later calls |
| OrdinalScale.DefaultResultExample | include/cdv/scl/ordinal_scale.hpp:51-64 | with a default, unknown keys map to it and the domain does not grow |
| TimeScale.Midnight | include/cdv/scl/time_scale.hpp:70-72 | the time point of a date is its day count times 86400 |
| TimeScale.FromDates | include/cdv/scl/time_scale.hpp:70-73 | a scale from dates starts and ends at the dates' midnights and keeps the codomain |
| TimeScale.FractionComplement | include/cdv/scl/time_scale.hpp:79-86 | swapping the ends gives the complementary fraction, so the swap in the call changes nothing |
| TimeScale.Apply | include/cdv/scl/time_scale.hpp:75-87 | the result interpolates the codomain by x's fraction of the domain |
| TimeScale.ApplyAtEnds | include/cdv/scl/time_scale.hpp:75-87 | the domain ends map to the codomain ends |
| TimeScale.ApplyHourExample | include/cdv/scl/time_scale.hpp:75-87 | over one hour 900 s maps to 0.25, -900 s to -0.25, and reversed 900 s to 0.75 |
| TimeScale.TableRowsAgree | include/cdv/scl/time_scale.hpp:36-55 | every row of the interval table has positive length and count, and its seconds match its kind and count |
| TimeScale.Gap | include/cdv/scl/time_scale.hpp:153 | the absolute difference |
| TimeScale.FirstClosest | include/cdv/scl/time_scale.hpp:152-154 | the first row whose seconds are closest to the naive interval |
| TimeScale.NaiveInterval | include/cdv/scl/time_scale.hpp:149-151 | the domain's length divided by the hint less one (at least one), truncated |
| TimeScale.Interval | include/cdv/scl/time_scale.hpp:147-155 | a table row no farther from the naive interval than any other |
| TimeScale.TieGoesToShorterInterval | include/cdv/scl/time_scale.hpp:152-154 | on a tie the earlier, shorter row wins: 10 s picks 5 s over 15 s |
| TimeScale.HourIntervalExample | include/cdv/scl/time_scale.hpp:147-155 | one hour with hint 4 gives 15 minutes |
| TimeScale.FixedTicks | include/cdv/scl/time_scale.hpp:228-240 | the fixed-step ticks; their shape is stated by FixedTicksShape and their bounds by FixedTicksWithin |
| TimeScale.FixedTicksShape | include/cdv/scl/time_scale.hpp:228-240 | the ticks are the start plus i steps, none past the end, and the next step would be |
| TimeScale.DefaultTicks | include/cdv/scl/time_scale.hpp:228-240 | the loop yields exactly the fixed-step ticks |
| TimeScale.StepDate | include/cdv/scl/time_scale.hpp:214 | adding years is adding twelve times as many months |
| TimeScale.NextTickDate | include/cdv/scl/time_scale.hpp:214 | the next tick date has a valid month and the same day |
| TimeScale.NextTickDateMoves | include/cdv/scl/time_scale.hpp:214 | each step moves at least 28 days in the tick direction |
| TimeScale.LexicographicTicks | include/cdv/scl/time_scale.hpp:205-218 | the month ticks as written, compared date by date; LexicographicTickPastEnd shows them passing the end |
| TimeScale.LexicographicTickPastEnd | include/cdv/scl/time_scale.hpp:205-218 | from 31 January to 1 March monthly, the date comparison lets 31 February (3 March) through |
| TimeScale.FebruaryThirtyFirst | include/cdv/scl/time_scale.hpp:213 | 31 February 2021 is 3 March 2021 as a day count |
| TimeScale.CalendarTicks | include/cdv/scl/time_scale.hpp:205-218 | the month ticks compared by day count; CalendarTicksOrdered and CalendarTicksStop state their order and end |
| TimeScale.CalendarTicksUnfold | include/cdv/scl/time_scale.hpp:211-215 | a tick date not past the end is emitted and the next one follows |
| TimeScale.CalendarTicksAppend | include/cdv/scl/time_scale.hpp:211-215 | the same, after ticks already emitted |
| TimeScale.NthTickDate | include/cdv/scl/time_scale.hpp:214 | the n-th tick date keeps the day |
| TimeScale.NthTickDateShift | include/cdv/scl/time_scale.hpp:214 | n tick dates after the next one are n + 1 after the first |
| TimeScale.NthTickDateMonth | include/cdv/scl/time_scale.hpp:214 | the n-th tick date is n steps of months from the first |
| TimeScale.CalendarTickDate | include/cdv/scl/time_scale.hpp:205-218 | tick i is the midnight of the i-th tick date |
| TimeScale.CalendarTicksStop | include/cdv/scl/time_scale.hpp:211 | the tick date after the last lies past the end |
| TimeScale.PrependTick | include/cdv/scl/time_scale.hpp:211-215 | a tick before an ordered run keeps the run ordered and within the end |
| TimeScale.CalendarTicksOrdered | include/cdv/scl/time_scale.hpp:205-218 | the calendar ticks run strictly in the tick direction from the first date to the end day |
| TimeScale.CalendarTicksAgree | include/cdv/scl/time_scale.hpp:205-218 | for a start day of at most 28 the date comparison and the day comparison give the same ticks |
| TimeScale.StepCalendarTicks | include/cdv/scl/time_scale.hpp:205-218 | the loop yields the calendar ticks |
| TimeScale.YearMonthTicks | include/cdv/scl/time_scale.hpp:220-226 | year and month ticks start at the first domain day, step up or down by the count, and stop at the last domain day |
| TimeScale.TickValues | include/cdv/scl/time_scale.hpp:110-121 | the corrected ticks; TicksWithinDomain states their bounds and order |
| TimeScale.AsWrittenTickValues | include/cdv/scl/time_scale.hpp:110-121 | the ticks as written; AsWrittenTickValuesAgree and AsWrittenTickPastDomain relate them to the corrected ones |
| TimeScale.AsWrittenTickValuesAgree | include/cdv/scl/time_scale.hpp:110-121 | the source's ticks equal the corrected ticks when the first day is at most 28 |
| TimeScale.CalendarTicksAgreeOnDays | include/cdv/scl/time_scale.hpp:205-218 | the same agreement for dates from day counts |
| TimeScale.JanuaryToMarchInterval | include/cdv/scl/time_scale.hpp:147-155 | 31 January to 1 March 2021 with hint 2 picks one month |
| TimeScale.DayOfJanuaryThirtyFirst | include/cdv/scl/time_scale.hpp:208 | 31 January 2021 is day 18658 and back |
| TimeScale.DayOfMarchFirst | include/cdv/scl/time_scale.hpp:209 | 1 March 2021 is day 18687 and back |
| TimeScale.AsWrittenTickPastDomain | include/cdv/scl/time_scale.hpp:110-121 | as written, those two dates give a second tick after the domain's end |
| TimeScale.Ticks | include/cdv/scl/time_scale.hpp:110-121 | the ticks are the corrected tick values |
| TimeScale.TicksWithinDomain | include/cdv/scl/time_scale.hpp:110-121 | the corrected ticks lie within the domain, from the first day's midnight, strictly ordered in the domain's direction |
| TimeScale.CalendarTicksWithin | include/cdv/scl/time_scale.hpp:220-226 | the same for year and month ticks |
| TimeScale.FixedTicksWithin | include/cdv/scl/time_scale.hpp:119-120 | the same for fixed-length ticks |
| TimeScale.StepOrder | include/cdv/scl/time_scale.hpp:233-236 | more steps are later ascending and earlier descending |
| TimeScale.HourTicksExample | include/cdv/scl/time_scale.hpp:110-121 | one hour with hint 4 gives ticks every 15 minutes, 0 to 3600 |
| TimeScale.Rnd | include/cdv/scl/time_scale.hpp:242-251 | a multiple of the interval, the least not below or the greatest not above the value |
| TimeScale.QuarterStart | include/cdv/scl/time_scale.hpp:177 | the month moved back to the start of its quarter |
| TimeScale.MonthSnap | include/cdv/scl/time_scale.hpp:157-169 | snap_months from the days of the two ends |
| TimeScale.QuarterSnap | include/cdv/scl/time_scale.hpp:171-189 | snap_quarters from the days of the two ends |
| TimeScale.YearSnap | include/cdv/scl/time_scale.hpp:191-203 | snap_years from the days of the two ends |
| TimeScale.QuarterSnapIsYearSnap | include/cdv/scl/time_scale.hpp:171-203 | snapping to quarters gives the same domain as snapping to years, since both reset the month to January |
| TimeScale.TruncatedSnapMonths | include/cdv/scl/time_scale.hpp:157-169 | snap_months as written, with the days cut toward zero |
| TimeScale.TruncatedSnapMonthsMissesStart | include/cdv/scl/time_scale.hpp:157-169 | as written, a start at noon on 30 November 1969 snaps forward to 1 December |
| TimeScale.TruncatedSnapYears | include/cdv/scl/time_scale.hpp:191-203 | snap_years as written, with the days cut toward zero |
| TimeScale.TruncatedSnapQuarters | include/cdv/scl/time_scale.hpp:171-189 | snap_quarters as written, with the days cut toward zero |
| TimeScale.TruncatedSnapYearsMissesStart | include/cdv/scl/time_scale.hpp:171-203 | as written, a start at noon on 31 December 1969 snaps forward to 1 January 1970, for years and quarters alike |
| TimeScale.EpochDate | include/cdv/scl/time_scale.hpp:193-194 | day zero is 1970-01-01, whose midnight is time zero |
| TimeScale.SnapMonths | include/cdv/scl/time_scale.hpp:157-169 | the corrected month snapping, with the days floored |
| TimeScale.SnapQuarters | include/cdv/scl/time_scale.hpp:171-189 | the corrected quarter snapping, with the days floored |
| TimeScale.SnapYears | include/cdv/scl/time_scale.hpp:191-203 | the corrected year snapping, with the days floored |
| TimeScale.MonthStartNotAfter | include/cdv/scl/time_scale.hpp:166 | the first of a day's month is not after it |
| TimeScale.NextMonthStartAfter | include/cdv/scl/time_scale.hpp:162-167 | the first of the next month is after it |
| TimeScale.YearStartNotAfter | include/cdv/scl/time_scale.hpp:200 | the first of a day's year is not after it |
| TimeScale.NextYearStartAfter | include/cdv/scl/time_scale.hpp:196-201 | the first of the next year is after it |
| TimeScale.SnapMonthsEncloses | include/cdv/scl/time_scale.hpp:157-169 | the month-snapped domain encloses the original |
| TimeScale.SnapYearsEncloses | include/cdv/scl/time_scale.hpp:191-203 | the year-snapped domain encloses the original |
| TimeScale.InOwnMonth | include/cdv/scl/time_scale.hpp:157-169 | a time point lies from the start of its month up to the start of the next, so those are the nearest month starts around it |
| TimeScale.InOwnYear | include/cdv/scl/time_scale.hpp:191-203 | a time point lies from 1 January of its year up to 1 January of the next |
| TimeScale.MidnightOfMonthStart | include/cdv/scl/time_scale.hpp:166-167 | the first of a date's month, at midnight, is the start of its month index |
| TimeScale.YearStartMidnight | include/cdv/scl/time_scale.hpp:200 | 1 January of a date's year, at midnight, is the start of month index 12 y |
| TimeScale.NextYearStartMidnight | include/cdv/scl/time_scale.hpp:196-201 | 1 January of the year after a date's is the start of month index 12 (y + 1) |
| TimeScale.SnapMonthsAligned | include/cdv/scl/time_scale.hpp:157-169 | month snapping moves the earlier end to the start of its month and the later end to the start of the month after its own |
| TimeScale.SnapYearsAligned | include/cdv/scl/time_scale.hpp:191-203 | year snapping moves the earlier end to 1 January of its year and the later end to 1 January of the next year |
| TimeScale.MonthSnapOfDates | include/cdv/scl/time_scale.hpp:157-169 | from the dates of the ends, month snapping gives the start of the earlier end's month and of the month after the later end's |
| TimeScale.YearSnapOfDates | include/cdv/scl/time_scale.hpp:191-203 | from the dates of the ends, year snapping gives 1 January of the earlier end's year and of the year after the later end's |
| TimeScale.SnapToDuration | include/cdv/scl/time_scale.hpp:103-107 | fixed-length snapping keeps the codomain and encloses the domain with multiples of the step, less than one step away |
| TimeScale.SnappedToGrid | include/cdv/scl/time_scale.hpp:92-108 | the corrected snapping of the Findings row for lines 157-203: the codomain is kept and the domain enclosed; years and quarters put the ends on 1 January of the earlier end's year and the year after the later end's, months on the corresponding month starts; below months it is fixed-length snapping |
| TimeScale.AsWrittenSnappedToGrid | include/cdv/scl/time_scale.hpp:92-108 | snapped_to_grid as written, with the calendar branches cutting days toward zero |
| TimeScale.AsWrittenSnappedToGridAgrees | include/cdv/scl/time_scale.hpp:92-108 | from 1970 on the written snapping is the corrected one |
| TimeScale.Domain | include/cdv/scl/time_scale.hpp:89 | the domain is the two time points |
| TimeScale.Codomain | include/cdv/scl/time_scale.hpp:90 | the codomain is the two values |
| CivilCalendar.CivilFromDays | include/cdv/scl/time_scale.hpp:159-160 | a day count converts to a date with a valid month and day |
| CivilCalendar.DaysFromCivil | include/cdv/scl/time_scale.hpp:70-72 | the day count of a date, sys_days; DaysFromCivilOfCivilFromDays and DaysFromCivilLinear state its properties |
| CivilCalendar.CivilFromDaysOk | include/cdv/scl/time_scale.hpp:159-160 | the converted date's day lies within its month |
| CivilCalendar.DaysFromCivilOfCivilFromDays | include/cdv/scl/time_scale.hpp:166-168 | converting a day count to a date and back gives the same count |
| CivilCalendar.DaysFromCivilLinear | include/cdv/scl/time_scale.hpp:71 | a date's day count is the first of its month's count plus day - 1, also for days past the month's end |
| CivilCalendar.LessEqByMonthIndex | include/cdv/scl/time_scale.hpp:211 | dates compare by year, then month, then day |
| CivilCalendar.OkOrder | include/cdv/scl/time_scale.hpp:211 | for valid dates that order agrees with the day counts |
| CivilCalendar.AddMonths | include/cdv/scl/time_scale.hpp:162-164 | adding months keeps the day and moves the month index by n |
| CivilCalendar.AddYears | include/cdv/scl/time_scale.hpp:196-198 | adding years keeps the month and the day |
| CivilCalendar.AddYearsIsAddMonths | include/cdv/scl/time_scale.hpp:196-198 | adding n years is adding 12 n months |
| CivilCalendar.AddMonthsAdd | include/cdv/scl/time_scale.hpp:214 | adding a then b months is adding a + b |
| CivilCalendar.AddMonthsMoves | include/cdv/scl/time_scale.hpp:214 | adding n months moves at least 28 n days |
| CivilCalendar.NextMonthStart | include/cdv/scl/time_scale.hpp:162-167 | the next month starts its month's length after this one |
| CivilCalendar.DayPastMonthEnd | include/cdv/scl/time_scale.hpp:213 | a day past its month's end is that many days into the next month |
| CivilCalendar.FloorDays | include/cdv/scl/time_scale.hpp:208-209 | date::floor to days: the day whose midnight is at or before the time point |
| CivilCalendar.TruncDays | include/cdv/scl/time_scale.hpp:159-160 | time_point_cast to days: floor for times after the epoch, rounding toward the epoch before it |
| RangeStack.Next | include/cdv/elem/range_stack.hpp:27-30 | the layer on top of another runs from its upper values to those plus the new values, as long as the shorter input |
| RangeStack.Stack | include/cdv/elem/range_stack.hpp:22-32 | one layer per input |
| RangeStack.StackChain | include/cdv/elem/range_stack.hpp:22-32 | each layer is stacked on the one before it |
| RangeStack.StackSnoc | include/cdv/elem/range_stack.hpp:22-32 | one more input appends one layer on top |
| RangeStack.StackWidth | include/cdv/elem/range_stack.hpp:27-30 | a layer is as wide as the narrowest input up to it |
| RangeStack.StackColumn | include/cdv/elem/range_stack.hpp:22-32 | each pair runs between column sums of the inputs |
| RangeStack.BaseLayer | include/cdv/elem/range_stack.hpp:75-77 | the first layer pairs the base value with each value of the first range |
| RangeStack.FirstLayer | include/cdv/elem/range_stack.hpp:54-57 | without a base the first layer runs from the first range to the sum of the first two |
| RangeStack.LayersWithBase | include/cdv/elem/range_stack.hpp:61-79 | one layer per range |
| RangeStack.LayersWithoutBase | include/cdv/elem/range_stack.hpp:41-59 | one layer fewer than the ranges |
| RangeStack.LayersWithBaseAreSums | include/cdv/elem/range_stack.hpp:61-79 | layer k runs from the sum of the first k ranges (the base for k = 0) to the sum of the first k + 1, over the narrowest width |
| RangeStack.LayerWithBaseAt | include/cdv/elem/range_stack.hpp:61-79 | the same, one pair at a time |
| RangeStack.WithoutBaseDropsBaseLayer | include/cdv/elem/range_stack.hpp:41-79 | the stack without a base is the stack with any base minus its first layer |
| RangeStack.RangeStack.constructor | include/cdv/elem/range_stack.hpp:43-57 | the stack starts with its keys and its first layer |
| RangeStack.RangeStack.AddLayers | include/cdv/elem/range_stack.hpp:22-32 | the stacked layers are appended to the existing ones |
| RangeStack.RangeStack.WithoutBase | include/cdv/elem/range_stack.hpp:41-59 | fewer than two ranges, or keys not one fewer than ranges, is an invalid-argument error; otherwise the stacked layers |
| RangeStack.RangeStack.WithBase | include/cdv/elem/range_stack.hpp:61-79 | no ranges, or keys not as many as ranges, is an invalid-argument error; otherwise the stacked layers on the base |
| RangeStack.RangeStack.Layer | include/cdv/elem/range_stack.hpp:81-88 | an unknown key is an invalid-argument error; otherwise the layer at the key's first index |
| RangeStack.StackWithoutBaseExample | include/cdv/elem/range_stack.hpp:41-59 | three ranges stack into two layers of running sums |
| RangeStack.StackWithBaseExample | include/cdv/elem/range_stack.hpp:61-79 | with base 0 they stack into three layers |
| Area.MakeArea | include/cdv/elem/area.hpp:17-22 | different numbers of x and y coordinates are an invalid-argument error; otherwise the area keeps them |
| Area.FillBetweenBase | include/cdv/elem/area.hpp:57-65 | the line closed by the last and first x at the constant y |
| Area.BaseClosesPolygon | include/cdv/elem/area.hpp:57-65 | the outline is the line, then down to y at the last x, then back to the first x |
| Area.FilledBetweenLines | include/cdv/elem/area.hpp:45-55 | as written: xs then xs reversed, top then base reversed, accepted whenever the totals match |
| Area.FillBetweenLines | include/cdv/elem/area.hpp:45-55 | the insertion code yields that area |
| Area.LinesClosePolygon | include/cdv/elem/area.hpp:45-55 | with lines as long as xs, point i is on the top line and point n + i on the base line, traversed backwards |
| Area.AsWrittenAcceptsUnevenLines | include/cdv/elem/area.hpp:45-55 | as written, two xs with three top values and one base value are accepted |
| Area.FilledBetweenLinesChecked | include/cdv/elem/area.hpp:45-55 | lines not as long as xs are an invalid-argument error; otherwise top forwards and base backwards, each paired with its x |
| Area.LinesExample | include/cdv/elem/area.hpp:45-55 | three points each give the six-point outline |
| PieSlices.TotalRange | include/cdv/elem/pie_slices.hpp:54 | end minus start, clamped to one turn either way |
| PieSlices.Padding | include/cdv/elem/pie_slices.hpp:55 | the smaller of the pad angle and the range's size over the slice count |
| PieSlices.Slices | include/cdv/elem/pie_slices.hpp:37-67 | one slice per input |
| PieSlices.SliceIs | include/cdv/elem/pie_slices.hpp:56-65 | slice i runs from the start plus the values before it in units to the start plus the values up to it, with the common pad angle |
| PieSlices.NextAngle | include/cdv/elem/pie_slices.hpp:59-65 | moving on by one value keeps the running angle at the start plus the values so far |
| PieSlices.PieSlicesOf | include/cdv/elem/pie_slices.hpp:37-67 | the two loops yield exactly that layout |
| PieSlices.SlicesContiguous | include/cdv/elem/pie_slices.hpp:59-65 | the first slice starts at the start angle; each later one starts where the previous one ends |
| PieSlices.SliceSpan | include/cdv/elem/pie_slices.hpp:56-65 | each slice spans its value times range over sum |
| PieSlices.SliceAtSpan | include/cdv/elem/pie_slices.hpp:61 | a slice turns by its value in units |
| PieSlices.LastSliceEndsAtRange | include/cdv/elem/pie_slices.hpp:50-65 | the last slice ends at the start angle plus the clamped range |
| PieSlices.NegativeRangeReverses | include/cdv/elem/pie_slices.hpp:54-65 | with a negative range and a positive sum, a slice with a positive value ends before it starts |
| PieSlices.FourRadiansExample | include/cdv/elem/pie_slices.hpp:37-67 | 3, 3, 6, 12 over four radians end at 0.5, 1, 2 and 4 |
| PieSlices.ClampedExample | include/cdv/elem/pie_slices.hpp:54 | an end angle of 7 is clamped to one turn and two equal values get half a turn each |
| PieSlices.ReversedExample | include/cdv/elem/pie_slices.hpp:54-65 | from 4 back to 0 the slices run 4 to 2 and 2 to 0 |
| LineProperties.LineTypeOf | include/cdv/elem/line_properties.hpp:28-43 | dashed, dash-dot and dotted names give their dash sequences; any other string is solid |
| LineProperties.CodesMatchWords | include/cdv/elem/line_properties.hpp:30-42 | each short code means the same as its word |
| LineProperties.UnknownIsSolid | include/cdv/elem/line_properties.hpp:28-43 | an unknown name gives a solid line |
| LineProperties.DefaultsAreSolidBlack | include/cdv/elem/line_properties.hpp:50-57 | default properties are a solid, opaque black line |
| RgbaColor.ToByte | include/cdv/core/rgba_color.hpp:43-45 | the byte is x * 255 truncated, and 1 gives 0xff |
| RgbaColor.UnpackPack | include/cdv/core/rgba_color.hpp:44-45 | unpacking a packed word gives back the four bytes |
| RgbaColor.Pack | include/cdv/core/rgba_color.hpp:44-45 | the four bytes shifted into one word; UnpackPack and PackUnpack show it is a bijection |
| RgbaColor.Red | include/cdv/core/rgba_color.hpp:107 | the red byte of a word; see UnpackPack |
| RgbaColor.Green | include/cdv/core/rgba_color.hpp:108 | the green byte of a word; see UnpackPack |
| RgbaColor.Blue | include/cdv/core/rgba_color.hpp:109 | the blue byte of a word; see UnpackPack |
| RgbaColor.PackUnpack | include/cdv/core/rgba_color.hpp:107-116 | packing a word's four bytes gives back the word |
| RgbaColor.ToUint32 | include/cdv/core/rgba_color.hpp:37-46 | a component outside [0, 1] is a domain error; otherwise each byte is its component's byte |
| RgbaColor.DefaultIsOpaqueBlack | include/cdv/core/rgba_color.hpp:124 | the default colour is opaque black |
| RgbaColor.FromRgb | include/cdv/core/rgba_color.hpp:86-88 | the same with an opaque alpha |
| RgbaColor.FromRgba | include/cdv/core/rgba_color.hpp:89-92 | the same with the given alpha |
| RgbaColor.WithAlpha | include/cdv/core/rgba_color.hpp:95-101 | an alpha outside [0, 1] is a domain error; otherwise the colour keeps its red, green and blue bytes and gets the new alpha |
| RgbaColor.WithAlphaMatchesConstructor | include/cdv/core/rgba_color.hpp:86-101 | with_alpha on an rgb colour is the rgba constructor |
| RgbaColor.Alpha | include/cdv/core/rgba_color.hpp:114-117 | the alpha is in [0, 1] and is the alpha byte over 255 |
| RgbaColor.AsDoubles | include/cdv/core/rgba_color.hpp:105-112 | four components in [0, 1], each its byte over 255 |
| RgbaColor.FromAsDoubles | include/cdv/core/rgba_color.hpp:89-112 | building a colour from its components gives the colour back |
| RgbaColor.AsDoublesWithinTruncation | include/cdv/core/rgba_color.hpp:89-112 | the components read back are at most 1/255 below those given |
| RgbaColor.Equal | include/cdv/core/rgba_color.hpp:119-120 | equal exactly when the words are, and unequal exactly when some byte differs |
| RgbaColor.CharToUint32 | include/cdv/core/rgba_color.hpp:48-73 | the ten colour letters give opaque colours with each channel 0 or 0xff as named; any other character is an invalid-argument error |
| RgbaColor.ConstructorsPack | include/cdv/core/rgba_color.hpp:37-46 | the constructors pack the truncated component bytes |
| RgbaColor.WhiteExample | include/cdv/core/rgba_color.hpp:86-92 | ones give 0xffffffff |
| RgbaColor.OpaqueBlackExample | include/cdv/core/rgba_color.hpp:86-88 | rgb zeros give 0x000000ff |
| RgbaColor.TransparentBlackExample | include/cdv/core/rgba_color.hpp:89-92 | rgba zeros give 0 |
| RgbaColor.OrangeExample | include/cdv/core/rgba_color.hpp:86-92 | (1, 0.5, 0) gives 0xff7f00ff, and with alpha 0.25 gives 0xff7f003f |
| RgbaColor.OutOfRangeExamples | include/cdv/core/rgba_color.hpp:40-41 | components or an alpha outside [0, 1] are domain errors |
| ColorStrings.LowerChar | src/core/rgba_color.cpp:11 | upper-case ASCII letters become lower case; every other character is kept |
| ColorStrings.AsciiLower | src/core/rgba_color.cpp:9-15 | every character lowered, the length kept |
| ColorStrings.AsciiToLower | src/core/rgba_color.cpp:9-15 | the in-place loop yields the lowered string |
| ColorStrings.AsciiLowerIdempotent | src/core/rgba_color.cpp:9-15 | the lowered string has no upper case, and lowering it again changes nothing |
| ColorStrings.HexValue | src/core/rgba_color.cpp:45 | the value of n hex digits is below 16^n |
| ColorStrings.LeadingHexDigits | src/core/rgba_color.cpp:45 | the longest prefix of hex digits |
| ColorStrings.FromChars | src/core/rgba_color.cpp:45 | from_chars in base 16: consumes the leading digits; no digits is invalid_argument; a value that fits is theirs; one that does not is out of range |
| ColorStrings.HexStringToUint32 | src/core/rgba_color.cpp:36-56 | wrong length or any non-hex digit is an invalid-argument error; eight digits are the value; six digits get an opaque alpha |
| ColorStrings.HexChar | src/core/rgba_color.cpp:78 | a digit value as a lower-case hex character |
| ColorStrings.FormatHex | src/core/rgba_color.cpp:78 | a value as n hex digits |
| ColorStrings.HexValueFormatHex | src/core/rgba_color.cpp:78 | reading back n formatted digits gives the value |
| ColorStrings.EightDigitRoundTrip | src/core/rgba_color.cpp:36-56 | any word written as # and eight hex digits parses back to itself |
| ColorStrings.SixDigitRoundTrip | src/core/rgba_color.cpp:55 | six digits parse to the value shifted left by eight with alpha 0xff |
| ColorStrings.HexCaseInsensitive | src/core/rgba_color.cpp:36-56 | lower-casing a hex string does not change its parse |
| ColorStrings.Lookup | src/core/rgba_color.cpp:18-34 | a table lookup succeeds exactly when some entry's name, with the prefix, is the key |
| ColorStrings.LookupFirst | src/core/rgba_color.cpp:20-21 | the first matching entry wins |
| ColorStrings.Css4StringToUint32 | src/core/rgba_color.cpp:18-25 | the css4 lookup of the lower-cased name; its outcome is stated by Lookup and LookupFirst |
| ColorStrings.TableauStringToUint32 | src/core/rgba_color.cpp:27-34 | the tableau lookup of the lower-cased name behind "tab:"; see Lookup and LookupFirst |
| ColorStrings.StringToUint32 | src/core/rgba_color.cpp:58-71 | empty is an error; # parses hex; one character is a colour letter; longer names succeed exactly when a css4 or tab: name matches case-insensitively, css4 first |
| ColorStrings.StringCaseInsensitive | src/core/rgba_color.cpp:58-71 | apart from single letters, lower-casing a colour string does not change its parse |
| ColorStrings.FromString | include/cdv/core/rgba_color.hpp:93 | the string constructor fails exactly when the parse does, and holds the parsed word otherwise |
| ColorStrings.SixDigitExample | src/core/rgba_color.cpp:36-56 | "#ff7f00" parses to 0xff7f00ff |
| ColorStrings.EightDigitExample | src/core/rgba_color.cpp:36-56 | "#FF7F003F" parses to 0xff7f003f |
| ColorStrings.BadHexExamples | src/core/rgba_color.cpp:38-47 | five or nine digits, a non-hex letter and leading spaces are invalid-argument errors |
| ColorStrings.Css4NameExample | src/core/rgba_color.cpp:18-25 | "PowderBlue" finds the css4 entry |
| ColorStrings.TableauNameExample | src/core/rgba_color.cpp:27-34 | "tab:Blue" finds the tableau entry |
| ColorStrings.WrongTableExample | src/core/rgba_color.cpp:58-71 | a tableau name without its prefix, and a css4 name with one, are errors |
| Seqs.Find | include/cdv/scl/band_scale.hpp:53-55 | ranges::find as an index: the first occurrence, or the length when absent |
| RealMath.Log10Floor | include/cdv/scl/ticks.hpp:71-72 | floor(log10 x): the power of ten at or below x |

## Left out

- Formatting is not modelled. This covers every `tick_formatter` and `linear_tick_format_precision`, which call fmt, and `operator<<` on colours, which writes to a stream. The eight-digit hex round trip stands in for `operator<<`.
- `draw` for areas, the pie slice `centroid`, and everything that draws on a surface are left out, because they only call the back end.
- Floating point is not modelled: `double` is an exact `real`.
  - NaN, infinities other than the increment's minus infinity, and rounding do not occur.
  - `std::lerp`, `std::pow`, `std::log10`, `std::floor` and `std::ceil` are exact.
  - Tau is the exact decimal the source writes.
- RgbaColor.ToByte: the truncating cast of x * 255 is exact, with no rounding in the product.
- The css4 and tableau colour tables (`core/color/css4.hpp`, `core/color/tableau.hpp`) are not part of this model.
  - Their lookups take the table as a parameter.
  - `css4::black` is the opaque black word.
  - `cdv_blue` is the constant `RgbaColor.CdvBlue`.
- ColorStrings.HexStringToUint32: the range_error and runtime_error branches (`src/core/rgba_color.cpp:49-53`) cannot be reached. Eight hex digits always fit in 32 bits. The contract shows this: every error is an invalid-argument error.
- `std::isspace(s[1])` needs no separate branch. A leading space is not a hex digit, so it is already an error.
- Bitwise masks and shifts on the colour word are written as division and remainder.
- Colour equality is datatype equality.
- RangeStack: values are unbounded integers, so integer overflow in the sums is not modelled.
- RangeStack: the input range of ranges is a sequence of sequences, so the source's lazy views are not modelled.
- The ordinal scale's append is not synchronised in the source. Concurrent calls are not modelled.
- `log_scale` and the other scale headers that are not listed above are not part of this model.
- BandScale.Min, BandScale.Apply, BandScale.MaxOf: they require an inner padding other than 1. For that padding the source divides by zero.
- PieSlices.Slices, PieSlices.PieSlicesOf: they require the values not to sum to zero. For such values the source divides by zero.
- PieSlices: the caller's `get_value` accessor is applied up front. Each input carries its value with its data.
- Area.FillBetweenBase: it requires at least one x. The source reads `back()` and `front()` of the x range, which is undefined when the range is empty.
- LinearScale.Apply: a clamped scale requires its first codomain value to be at most its last. For a descending codomain, `std::clamp` is undefined.
- LinearScale.InterpolationParameters, LinearScale.Apply, LinearScale.SnappedToGrid: they require a domain sorted in the direction of its ends, which `lower_bound` requires, and first two and last two points that differ. With equal outer points an x on that segment divides by zero, which gives an infinity or NaN in the source. A repeated inner point is allowed and makes a step.
- SequentialScale.Apply, TimeScale.Apply: they require the two domain ends to differ. For equal ends the source divides zero by zero.
- LinearScale.Make: it requires at least two points and equal lengths, which the source only asserts.
- LinearScale: only the identity transform and the linear interpolator are modelled, and the codomain is `real`. The pixel overload is the same computation on the wrapped value.
- TimeScale: time points are whole seconds since 1970-01-01. Durations finer than a second are not modelled, and the clock is not modelled.
- TimeScale.NaiveInterval: it truncates the duration divided by the hint less one, as `duration_cast` does.
- The `year_month_day` overflow of days past a month's end is modelled: such a date counts on into the next month.
- The date library (`stdx/date.hpp`) is not part of this model. Its proleptic Gregorian conversion is written out in `CivilCalendar` and proved a round trip.
- The ordinal scale's constructors throw for an empty codomain. This is modelled by the `New` and `MakeOrdinalScale` factories, which return a `Result`. The class constructor requires a non-empty codomain.

## Findings

| source | as written | input that shows it | evidently intended | confidence | as-written member | corrected member |
|---|---|---|---|---|---|---|
| include/cdv/scl/time_scale.hpp:205-218 | month ticks step the `year_month_day` and compare dates field by field; a start on day 29-31 reaches dates such as 31 February that the comparison ranks before 1 March, but that convert to a later day | domain 2021-01-31 to 2021-03-01, hint 2: the interval is one month and the second tick is 2021-03-03, after the domain's end | ticks only at days up to the domain's end | high, not executed | TimeScale.AsWrittenTickValues, TimeScale.AsWrittenTickPastDomain | TimeScale.TickValues, TimeScale.TicksWithinDomain |
| include/cdv/scl/time_scale.hpp:157-203 | snapping to months, quarters and years casts the time points to days with `time_point_cast`, which rounds toward the epoch; before 1970 a time after midnight rounds up to the next day | months: start 1969-11-30 12:00 (-2721600 s) snaps to 1969-12-01; years and quarters: start 1969-12-31 12:00 (-43200 s) snaps to 1970-01-01; both after the original start | snap with `date::floor`, as the tick code does, so the snapped domain encloses the original | medium, not executed | TimeScale.TruncatedSnapMonths, TimeScale.TruncatedSnapMonthsMissesStart, TimeScale.TruncatedSnapYears, TimeScale.TruncatedSnapQuarters, TimeScale.TruncatedSnapYearsMissesStart, TimeScale.AsWrittenSnappedToGrid | TimeScale.SnapMonths, TimeScale.SnapMonthsEncloses, TimeScale.SnapYears, TimeScale.SnapYearsEncloses, TimeScale.SnappedToGrid |
| include/cdv/elem/area.hpp:45-55 | fill_between with two lines only checks, through the area constructor, that all x and y values add up; top and base lines of the wrong lengths pass, and points pair with the wrong x | xs = [1, 2], top = [3, 4, 5], base = [6]: accepted, with top value 5 paired with the reversed x 2 | reject lines not as long as xs | medium, not executed | Area.FilledBetweenLines, Area.AsWrittenAcceptsUnevenLines | Area.FilledBetweenLinesChecked, Area.LinesClosePolygon |
