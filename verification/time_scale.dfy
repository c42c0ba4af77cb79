/**
 * The time scale of include/cdv/scl/time_scale.hpp. Time points are whole
 * seconds since 1970-01-01T00:00:00Z; the scale maps them linearly onto a
 * numeric codomain, picks a tick interval from a fixed table, lays ticks out
 * either by a fixed number of seconds or by calendar months and years, and
 * snaps its domain outward to the chosen interval.
 */
module TimeScale {
  import opened CivilCalendar

  datatype TimeScale = TimeScale(d0: int, d1: int, c0: real, c1: real)

  /** The time point at the start (midnight UTC) of a calendar date: date::sys_days. */
  function Midnight(d: Date): (t: int)
    requires ValidMonth(d)
    ensures FloorDays(t) == DaysFromCivil(d) && t % 86400 == 0
  {
    DaysFromCivil(d) * 86400
  }

  /** The scale built from two dates, each taken at its midnight. */
  function FromDates(x0: Date, x1: Date, y0: real, y1: real): (s: TimeScale)
    requires ValidMonth(x0) && ValidMonth(x1)
    ensures FloorDays(s.d0) == DaysFromCivil(x0) && FloorDays(s.d1) == DaysFromCivil(x1)
    ensures s.d0 % 86400 == 0 && s.d1 % 86400 == 0
    ensures s.c0 == y0 && s.c1 == y1
  {
    TimeScale(Midnight(x0), Midnight(x1), y0, y1)
  }

  // ---------------------------------------------------------------------
  // Mapping a time point
  // ---------------------------------------------------------------------

  /** The elapsed fraction a / b of two second counts, as a double division. */
  function Fraction(a: int, b: int): real
    requires b != 0
  {
    a as real / b as real
  }

  /** Measured from the other end, the elapsed fraction is its complement. */
  lemma FractionComplement(a: int, b: int, x: int)
    requires a != b
    ensures Fraction(x - b, a - b) == 1.0 - Fraction(x - a, b - a)
  {
    var f := Fraction(x - a, b - a);
    assert (x - a) as real == f * (b - a) as real;
    assert (x - b) as real == (1.0 - f) * (a - b) as real;
    RealFraction((x - b) as real, (a - b) as real, 1.0 - f);
  }

  lemma RealFraction(a: real, b: real, t: real)
    requires b != 0.0 && a == t * b
    ensures t == a / b
  {
  }

  /**
   * time_scale::operator(): with the ends put in ascending order (the
   * codomain ends swapped with them), y0 + t * (y1 - y0) for the elapsed
   * fraction t. Either orientation gives the same straight line through
   * (d0, c0) and (d1, c1), unclamped.
   */
  function Apply(s: TimeScale, x: int): (y: real)
    requires s.d0 != s.d1
    ensures y == s.c0 + Fraction(x - s.d0, s.d1 - s.d0) * (s.c1 - s.c0)
  {
    var swap := s.d0 > s.d1;
    var x0 := if swap then s.d1 else s.d0;
    var x1 := if swap then s.d0 else s.d1;
    var y0 := if swap then s.c1 else s.c0;
    var y1 := if swap then s.c0 else s.c1;
    FractionComplement(s.d0, s.d1, x);
    y0 + Fraction(x - x0, x1 - x0) * (y1 - y0)
  }

  /** The domain ends map to the codomain ends. */
  lemma ApplyAtEnds(s: TimeScale)
    requires s.d0 != s.d1
    ensures Apply(s, s.d0) == s.c0 && Apply(s, s.d1) == s.c1
  {
    RealFraction((s.d1 - s.d0) as real, (s.d1 - s.d0) as real, 1.0);
  }

  /**
   * An hour mapped onto [0, 1]: a quarter past maps to 0.25, a quarter
   * before to -0.25; with the ends given the other way round, a quarter past
   * the later end maps to 0.75.
   */
  lemma ApplyHourExample()
    ensures Apply(TimeScale(0, 3600, 0.0, 1.0), 900) == 0.25
    ensures Apply(TimeScale(0, 3600, 0.0, 1.0), -900) == -0.25
    ensures Apply(TimeScale(3600, 0, 0.0, 1.0), 900) == 0.75
  {
    assert Fraction(900, 3600) == 0.25;
    assert Fraction(-900, 3600) == -0.25;
    assert Fraction(900 - 3600, -3600) == 0.75;
  }

  // ---------------------------------------------------------------------
  // Choosing the tick interval
  // ---------------------------------------------------------------------

  datatype IntervalKind = Seconds | Minutes | Hours | Days | Weeks | Months | Years

  /** A row of the tick interval table: its kind, its count and its length in seconds. */
  datatype TickInterval = TickInterval(kind: IntervalKind, number: nat, seconds: int)

  /**
   * The table of candidate intervals. Months and years use the date
   * library's average lengths (2629746 s and 31556952 s).
   */
  const TickIntervals: seq<TickInterval> := [
    TickInterval(Seconds, 1, 1),
    TickInterval(Seconds, 5, 5),
    TickInterval(Seconds, 15, 15),
    TickInterval(Seconds, 30, 30),
    TickInterval(Minutes, 1, 60),
    TickInterval(Minutes, 5, 300),
    TickInterval(Minutes, 15, 900),
    TickInterval(Minutes, 30, 1800),
    TickInterval(Hours, 1, 3600),
    TickInterval(Hours, 3, 10800),
    TickInterval(Hours, 6, 21600),
    TickInterval(Hours, 12, 43200),
    TickInterval(Days, 1, 86400),
    TickInterval(Days, 2, 172800),
    TickInterval(Weeks, 1, 604800),
    TickInterval(Months, 1, 2629746),
    TickInterval(Months, 3, 7889238),
    TickInterval(Years, 1, 31556952)
  ]

  /** Every fixed-length row is its count of whole units of its kind. */
  predicate UnitsAgree(iv: TickInterval)
  {
    match iv.kind
    case Seconds => iv.seconds == iv.number
    case Minutes => iv.seconds == 60 * iv.number
    case Hours => iv.seconds == 3600 * iv.number
    case Days => iv.seconds == 86400 * iv.number
    case Weeks => iv.seconds == 7 * 86400 * iv.number
    case Months => iv.seconds == 2629746 * iv.number
    case Years => iv.seconds == 31556952 * iv.number
  }

  /** Every row of the table is a positive number of whole units of its kind. */
  lemma TableRowsAgree(j: int)
    requires 0 <= j < |TickIntervals|
    ensures TickIntervals[j].seconds > 0 && TickIntervals[j].number > 0 && UnitsAgree(TickIntervals[j])
  {
  }

  /** |a - b| on durations: std::chrono::abs of their difference. */
  function Gap(a: int, b: int): (g: int)
    ensures g >= 0 && (g == a - b || g == b - a)
  {
    if a >= b then a - b else b - a
  }

  /**
   * ranges::min_element over the table with the comparison "closer to
   * naive": the scan keeps the earliest of equally close rows, so the result
   * is the first index of minimal distance.
   */
  function FirstClosest(t: seq<TickInterval>, naive: int): (k: nat)
    requires |t| > 0
    ensures k < |t|
    ensures forall j :: 0 <= j < |t| ==> Gap(t[k].seconds, naive) <= Gap(t[j].seconds, naive)
    ensures forall j :: 0 <= j < k ==> Gap(t[j].seconds, naive) > Gap(t[k].seconds, naive)
  {
    if |t| == 1 then 0
    else
      var k := FirstClosest(t[..|t| - 1], naive);
      if Gap(t[|t| - 1].seconds, naive) < Gap(t[k].seconds, naive) then |t| - 1 else k
  }

  /** The domain length divided, truncating, by one less than the hint (at least 1). */
  function NaiveInterval(s: TimeScale, hint: nat): (n: int)
    ensures var parts := if hint < 2 then 1 else hint - 1;
            n >= 0 && n * parts <= Gap(s.d1, s.d0) < (n + 1) * parts
  {
    var parts := if hint < 2 then 1 else hint - 1;
    Gap(s.d1, s.d0) / parts
  }

  /** time_scale::tick_interval: the table row closest to the naive interval. */
  function Interval(s: TimeScale, hint: nat): (iv: TickInterval)
    ensures iv in TickIntervals && iv.seconds > 0 && iv.number > 0 && UnitsAgree(iv)
    ensures forall j :: 0 <= j < |TickIntervals| ==>
              Gap(iv.seconds, NaiveInterval(s, hint)) <= Gap(TickIntervals[j].seconds, NaiveInterval(s, hint))
  {
    var k := FirstClosest(TickIntervals, NaiveInterval(s, hint));
    TableRowsAgree(k);
    TickIntervals[k]
  }

  /** A naive interval of 10 s is as close to 5 s as to 15 s; the earlier row, 5 s, wins. */
  lemma TieGoesToShorterInterval()
    ensures FirstClosest(TickIntervals, 10) == 1
  {
    assert Gap(TickIntervals[1].seconds, 10) == Gap(TickIntervals[2].seconds, 10) == 5;
  }

  /** One hour with a hint of 4 asks for 20 minutes and gets 15 minutes. */
  lemma HourIntervalExample()
    ensures Interval(TimeScale(0, 3600, 0.0, 1.0), 4) == TickInterval(Minutes, 15, 900)
  {
    var s := TimeScale(0, 3600, 0.0, 1.0);
    assert NaiveInterval(s, 4) == 1200;
    var k := FirstClosest(TickIntervals, 1200);
    assert Gap(TickIntervals[6].seconds, 1200) == 300;
    assert Gap(TickIntervals[7].seconds, 1200) == 600;
    assert Gap(TickIntervals[5].seconds, 1200) == 900;
    assert k == 6;
  }

  // ---------------------------------------------------------------------
  // Ticks
  // ---------------------------------------------------------------------

  /** The loop test: <= towards an ascending end, >= towards a descending one. */
  predicate NotPast(a: int, b: int, ascending: bool)
  {
    if ascending then a <= b else a >= b
  }

  /** The time point k steps from d in the direction of travel. */
  function Stepped(d: int, k: int, step: int, ascending: bool): int
  {
    if ascending then d + k * step else d - k * step
  }

  /** The fixed-duration ticks from d up (or down) to end, one step apart. */
  function FixedTicks(d: int, end: int, step: int, ascending: bool): seq<int>
    requires step > 0
    decreases if ascending then end - d else d - end
  {
    if NotPast(d, end, ascending) then [d] + FixedTicks(Stepped(d, 1, step, ascending), end, step, ascending)
    else []
  }

  /**
   * Fixed-duration ticks are d, d ± step, d ± 2 step, ..., all of them not
   * past the end, and the next one would be past it.
   */
  lemma {:induction false} FixedTicksShape(d: int, end: int, step: int, ascending: bool)
    requires step > 0
    ensures var r := FixedTicks(d, end, step, ascending);
            && (forall i :: 0 <= i < |r| ==> r[i] == Stepped(d, i, step, ascending))
            && (forall i :: 0 <= i < |r| ==> NotPast(r[i], end, ascending))
            && !NotPast(Stepped(d, |r|, step, ascending), end, ascending)
    decreases if ascending then end - d else d - end
  {
    var r := FixedTicks(d, end, step, ascending);
    if NotPast(d, end, ascending) {
      var next := Stepped(d, 1, step, ascending);
      FixedTicksShape(next, end, step, ascending);
      var rest := FixedTicks(next, end, step, ascending);
      assert r == [d] + rest;
      forall i | 1 <= i <= |r|
        ensures Stepped(next, i - 1, step, ascending) == Stepped(d, i, step, ascending)
      {
        StepDistributes(i, step);
      }
    }
  }

  lemma StepDistributes(i: int, step: int)
    ensures step + (i - 1) * step == i * step
  {
  }

  /** time_scale::default_ticks: from domain[0], push and step while not past domain[1]. */
  method DefaultTicks(d0: int, d1: int, step: int, ascending: bool) returns (r: seq<int>)
    requires step > 0
    ensures r == FixedTicks(d0, d1, step, ascending)
  {
    r := [];
    var d := d0;
    while NotPast(d, d1, ascending)
      invariant r + FixedTicks(d, d1, step, ascending) == FixedTicks(d0, d1, step, ascending)
      decreases if ascending then d1 - d else d - d1
    {
      assert FixedTicks(d, d1, step, ascending) == [d] + FixedTicks(Stepped(d, 1, step, ascending), d1, step, ascending);
      r := r + [d];
      d := Stepped(d, 1, step, ascending);
    }
  }

  /** date + years or date + months with the day kept. */
  function StepDate(d: Date, count: int, years: bool): (r: Date)
    requires ValidMonth(d)
    ensures r == AddMonths(d, if years then 12 * count else count)
  {
    if years then (AddYearsIsAddMonths(d, count); AddYears(d, count)) else AddMonths(d, count)
  }

  /** The next calendar tick date: count months or years forward, or back for a descending domain. */
  function NextTickDate(d: Date, count: int, years: bool, ascending: bool): (r: Date)
    requires ValidMonth(d)
    ensures ValidMonth(r) && r.day == d.day
  {
    StepDate(d, if ascending then count else -count, years)
  }

  /** Each calendar step moves the day number at least 28 days in the direction of travel. */
  lemma NextTickDateMoves(d: Date, count: int, years: bool, ascending: bool)
    requires ValidMonth(d) && count > 0
    ensures var n := DaysFromCivil(NextTickDate(d, count, years, ascending));
            if ascending then n >= DaysFromCivil(d) + 28 else n <= DaysFromCivil(d) - 28
  {
    var step := if ascending then count else -count;
    AddMonthsMoves(d, if years then 12 * step else step);
  }

  /**
   * The calendar ticks as year_month_ticks writes them: from date d, while d
   * is not past the end date in year/month/day order, push d's midnight and
   * step by count months or years.
   */
  function LexicographicTicks(d: Date, end: Date, count: int, years: bool, ascending: bool): seq<int>
    requires ValidMonth(d) && ValidMonth(end) && count > 0
    decreases if ascending then MonthIndex(end) - MonthIndex(d) else MonthIndex(d) - MonthIndex(end)
  {
    LessEqByMonthIndex(d, end);
    LessEqByMonthIndex(end, d);
    if (if ascending then LessEq(d, end) else LessEq(end, d)) then
      [Midnight(d)] + LexicographicTicks(NextTickDate(d, count, years, ascending), end, count, years, ascending)
    else []
  }

  /**
   * A month tick starting on the 31st of January, with the domain ending on
   * 1 March 2021: "31 February" still precedes 1 March in year/month/day
   * order, so it is pushed, and its midnight is 3 March, past the end.
   */
  lemma LexicographicTickPastEnd()
    ensures var r := LexicographicTicks(Date(2021, 1, 31), Date(2021, 3, 1), 1, false, true);
            |r| == 2 && r[1] == Midnight(Date(2021, 3, 3)) && r[1] > Midnight(Date(2021, 3, 1))
  {
    var r := LexicographicTicks(Date(2021, 1, 31), Date(2021, 3, 1), 1, false, true);
    assert NextTickDate(Date(2021, 1, 31), 1, false, true) == Date(2021, 2, 31);
    assert NextTickDate(Date(2021, 2, 31), 1, false, true) == Date(2021, 3, 31);
    assert LexicographicTicks(Date(2021, 3, 31), Date(2021, 3, 1), 1, false, true) == [];
    assert r == [Midnight(Date(2021, 1, 31)), Midnight(Date(2021, 2, 31))];
    FebruaryThirtyFirst();
  }

  /** "31 February 2021" has the day number of 3 March 2021. */
  lemma FebruaryThirtyFirst()
    ensures DaysFromCivil(Date(2021, 2, 31)) == DaysFromCivil(Date(2021, 3, 3))
  {
    assert AddMonths(Date(2021, 2, 31), 1) == Date(2021, 3, 31);
    assert DaysInMonth(2021, 2) == 28;
    DayPastMonthEnd(Date(2021, 2, 31));
  }

  /**
   * The calendar ticks with the loop test made on day numbers: from date d,
   * while d's day is not past the end day, push d's midnight and step by
   * count months or years.
   */
  function CalendarTicks(d: Date, endDay: int, count: int, years: bool, ascending: bool): seq<int>
    requires ValidMonth(d) && count > 0
    decreases if ascending then endDay - DaysFromCivil(d) else DaysFromCivil(d) - endDay
  {
    if NotPast(DaysFromCivil(d), endDay, ascending) then
      NextTickDateMoves(d, count, years, ascending);
      [Midnight(d)] + CalendarTicks(NextTickDate(d, count, years, ascending), endDay, count, years, ascending)
    else []
  }

  /** While d's day is not past the end, the calendar ticks are d's midnight followed by the ticks from the next date. */
  lemma CalendarTicksUnfold(d: Date, endDay: int, count: int, years: bool, ascending: bool)
    requires ValidMonth(d) && count > 0 && NotPast(DaysFromCivil(d), endDay, ascending)
    ensures CalendarTicks(d, endDay, count, years, ascending) ==
            [Midnight(d)] + CalendarTicks(NextTickDate(d, count, years, ascending), endDay, count, years, ascending)
  {
  }

  /** Moving one tick from the pending ticks to the ticks already pushed keeps their concatenation. */
  lemma CalendarTicksAppend(r: seq<int>, d: Date, endDay: int, count: int, years: bool, ascending: bool)
    requires ValidMonth(d) && count > 0 && NotPast(DaysFromCivil(d), endDay, ascending)
    ensures r + CalendarTicks(d, endDay, count, years, ascending) ==
            (r + [Midnight(d)]) + CalendarTicks(NextTickDate(d, count, years, ascending), endDay, count, years, ascending)
  {
    CalendarTicksUnfold(d, endDay, count, years, ascending);
  }

  /** The tick date k steps from d. */
  function NthTickDate(d: Date, k: nat, count: int, years: bool, ascending: bool): (r: Date)
    requires ValidMonth(d)
    ensures ValidMonth(r) && r.day == d.day
  {
    if k == 0 then d else NextTickDate(NthTickDate(d, k - 1, count, years, ascending), count, years, ascending)
  }

  /** Stepping once and then k times is stepping k + 1 times. */
  lemma {:induction false} NthTickDateShift(d: Date, k: nat, count: int, years: bool, ascending: bool)
    requires ValidMonth(d)
    ensures NthTickDate(NextTickDate(d, count, years, ascending), k, count, years, ascending) ==
            NthTickDate(d, k + 1, count, years, ascending)
  {
    if k > 0 {
      NthTickDateShift(d, k - 1, count, years, ascending);
    }
  }

  /** k steps move the month by k times count months (or years), forward or back. */
  lemma {:induction false} NthTickDateMonth(d: Date, k: nat, count: int, years: bool, ascending: bool)
    requires ValidMonth(d)
    ensures var months := if years then 12 * count else count;
            MonthIndex(NthTickDate(d, k, count, years, ascending)) ==
            MonthIndex(d) + (if ascending then k * months else -(k * months))
  {
    if k > 0 {
      NthTickDateMonth(d, k - 1, count, years, ascending);
      var months := if years then 12 * count else count;
      assert (k - 1) * months + months == k * months;
    }
  }

  /** The i-th calendar tick is the midnight of the date i steps from d. */
  lemma {:induction false} CalendarTickDate(d: Date, endDay: int, count: int, years: bool, ascending: bool, i: nat)
    requires ValidMonth(d) && count > 0
    requires i < |CalendarTicks(d, endDay, count, years, ascending)|
    ensures CalendarTicks(d, endDay, count, years, ascending)[i] == Midnight(NthTickDate(d, i, count, years, ascending))
    decreases i
  {
    var next := NextTickDate(d, count, years, ascending);
    var rest := CalendarTicks(next, endDay, count, years, ascending);
    CalendarTicksUnfold(d, endDay, count, years, ascending);
    if i > 0 {
      CalendarTickDate(next, endDay, count, years, ascending, i - 1);
      NthTickDateShift(d, i - 1, count, years, ascending);
      assert rest[i - 1] == Midnight(NthTickDate(d, i, count, years, ascending));
    }
  }

  /** The date one step after the last calendar tick has its day past the end. */
  lemma {:induction false} CalendarTicksStop(d: Date, endDay: int, count: int, years: bool, ascending: bool)
    requires ValidMonth(d) && count > 0
    ensures var n := |CalendarTicks(d, endDay, count, years, ascending)|;
            !NotPast(DaysFromCivil(NthTickDate(d, n, count, years, ascending)), endDay, ascending)
    decreases if ascending then endDay - DaysFromCivil(d) else DaysFromCivil(d) - endDay
  {
    if NotPast(DaysFromCivil(d), endDay, ascending) {
      NextTickDateMoves(d, count, years, ascending);
      var next := NextTickDate(d, count, years, ascending);
      CalendarTicksStop(next, endDay, count, years, ascending);
      var n := |CalendarTicks(next, endDay, count, years, ascending)|;
      assert |CalendarTicks(d, endDay, count, years, ascending)| == n + 1;
      NthTickDateShift(d, n, count, years, ascending);
    }
  }

  /** Every tick is not before `from` and not past `to`, in the direction of travel. */
  predicate Between(r: seq<int>, from: int, to: int, ascending: bool)
  {
    forall i :: 0 <= i < |r| ==> NotPast(from, r[i], ascending) && NotPast(r[i], to, ascending)
  }

  /** The ticks run strictly in the direction of travel. */
  predicate Strict(r: seq<int>, ascending: bool)
  {
    forall i, j :: 0 <= i < j < |r| ==> (if ascending then r[i] < r[j] else r[i] > r[j])
  }

  /** Putting a tick in front of later ones keeps them bounded and strictly ordered. */
  lemma PrependTick(x: int, y: int, rest: seq<int>, to: int, ascending: bool)
    requires NotPast(x, to, ascending) && (if ascending then x < y else x > y)
    requires Between(rest, y, to, ascending) && Strict(rest, ascending)
    ensures Between([x] + rest, x, to, ascending) && Strict([x] + rest, ascending)
  {
    var r := [x] + rest;
    forall i | 0 < i < |r|
      ensures r[i] == rest[i - 1]
    {
    }
  }

  /**
   * Calendar ticks are whole-day time points between d's midnight and the
   * end day's midnight, strictly in the direction of travel.
   */
  lemma {:induction false} CalendarTicksOrdered(d: Date, endDay: int, count: int, years: bool, ascending: bool)
    requires ValidMonth(d) && count > 0
    ensures var r := CalendarTicks(d, endDay, count, years, ascending);
            Between(r, Midnight(d), endDay * 86400, ascending) && Strict(r, ascending)
    decreases if ascending then endDay - DaysFromCivil(d) else DaysFromCivil(d) - endDay
  {
    if NotPast(DaysFromCivil(d), endDay, ascending) {
      NextTickDateMoves(d, count, years, ascending);
      var next := NextTickDate(d, count, years, ascending);
      CalendarTicksOrdered(next, endDay, count, years, ascending);
      PrependTick(Midnight(d), Midnight(next), CalendarTicks(next, endDay, count, years, ascending), endDay * 86400, ascending);
    }
  }

  /**
   * When the start day is at most 28 every stepped date is a real date, and
   * on real dates year/month/day order is day order: the two loop tests
   * agree and so do the ticks.
   */
  lemma {:induction false} CalendarTicksAgree(d: Date, end: Date, count: int, years: bool, ascending: bool)
    requires ValidMonth(d) && 1 <= d.day <= 28 && Ok(end) && count > 0
    ensures LexicographicTicks(d, end, count, years, ascending) == CalendarTicks(d, DaysFromCivil(end), count, years, ascending)
    decreases if ascending then MonthIndex(end) - MonthIndex(d) else MonthIndex(d) - MonthIndex(end)
  {
    OkOrder(d, end);
    OkOrder(end, d);
    LessEqByMonthIndex(d, end);
    LessEqByMonthIndex(end, d);
    if NotPast(DaysFromCivil(d), DaysFromCivil(end), ascending) {
      CalendarTicksAgree(NextTickDate(d, count, years, ascending), end, count, years, ascending);
    }
  }

  /** The first tick date of year_month_ticks: domain[0] floored to its day. */
  function FirstTickDate(s: TimeScale): Date
  {
    CivilFromDays(FloorDays(s.d0))
  }

  /**
   * year_month_ticks(step, compare), with the loop test on day numbers:
   * from date d, push its midnight and step by count months or years while
   * its day is not past the end day.
   */
  method StepCalendarTicks(d0: Date, end: int, count: int, years: bool, ascending: bool) returns (r: seq<int>)
    requires ValidMonth(d0) && count > 0
    ensures r == CalendarTicks(d0, end, count, years, ascending)
  {
    var d := d0;
    r := [];
    while NotPast(DaysFromCivil(d), end, ascending)
      invariant ValidMonth(d)
      invariant r + CalendarTicks(d, end, count, years, ascending) == CalendarTicks(d0, end, count, years, ascending)
      decreases if ascending then end - DaysFromCivil(d) else DaysFromCivil(d) - end
    {
      var next := NextTickDate(d, count, years, ascending);
      NextTickDateMoves(d, count, years, ascending);
      CalendarTicksAppend(r, d, end, count, years, ascending);
      r := r + [Midnight(d)];
      d := next;
    }
  }

  /**
   * time_scale::year_month_ticks(count): from domain[0]'s day, step towards
   * domain[1]'s day.
   */
  method YearMonthTicks(s: TimeScale, count: int, years: bool) returns (r: seq<int>)
    requires count > 0
    ensures r == CalendarTicks(FirstTickDate(s), FloorDays(s.d1), count, years, s.d0 < s.d1)
  {
    var d := CivilFromDays(FloorDays(s.d0));
    var dy1 := CivilFromDays(FloorDays(s.d1));
    DaysFromCivilOfCivilFromDays(FloorDays(s.d1));
    r := StepCalendarTicks(d, DaysFromCivil(dy1), count, years, s.d0 < s.d1);
  }

  /**
   * The ticks time_scale::ticks produces: calendar ticks for year and month
   * intervals, fixed-duration ticks otherwise, in the direction from
   * domain[0] to domain[1].
   */
  function TickValues(s: TimeScale, hint: nat): seq<int>
  {
    var iv := Interval(s, hint);
    if iv.kind == Years || iv.kind == Months then
      CalendarTicks(FirstTickDate(s), FloorDays(s.d1), iv.number, iv.kind == Years, s.d0 < s.d1)
    else
      FixedTicks(s.d0, s.d1, iv.seconds, s.d0 < s.d1)
  }

  /**
   * The ticks as time_scale::ticks writes them: calendar ticks stop on the
   * year/month/day order of the stepped date against domain[1]'s date.
   */
  function AsWrittenTickValues(s: TimeScale, hint: nat): seq<int>
  {
    var iv := Interval(s, hint);
    if iv.kind == Years || iv.kind == Months then
      LexicographicTicks(FirstTickDate(s), CivilFromDays(FloorDays(s.d1)), iv.number, iv.kind == Years, s.d0 < s.d1)
    else
      FixedTicks(s.d0, s.d1, iv.seconds, s.d0 < s.d1)
  }

  /** When domain[0]'s day of the month is at most 28, the ticks as written are the ticks of this model. */
  lemma AsWrittenTickValuesAgree(s: TimeScale, hint: nat)
    requires FirstTickDate(s).day <= 28
    ensures AsWrittenTickValues(s, hint) == TickValues(s, hint)
  {
    var iv := Interval(s, hint);
    if iv.kind == Years || iv.kind == Months {
      CalendarTicksAgreeOnDays(FloorDays(s.d0), FloorDays(s.d1), iv.number, iv.kind == Years, s.d0 < s.d1);
    }
  }

  /** From day z0 to day z1, with z0's day of the month at most 28, both loop tests push the same ticks. */
  lemma CalendarTicksAgreeOnDays(z0: int, z1: int, count: int, years: bool, ascending: bool)
    requires CivilFromDays(z0).day <= 28 && count > 0
    ensures LexicographicTicks(CivilFromDays(z0), CivilFromDays(z1), count, years, ascending)
         == CalendarTicks(CivilFromDays(z0), z1, count, years, ascending)
  {
    CivilFromDaysOk(z0);
    CivilFromDaysOk(z1);
    DaysFromCivilOfCivilFromDays(z1);
    CalendarTicksAgree(CivilFromDays(z0), CivilFromDays(z1), count, years, ascending);
  }

  /** 31 January to 1 March 2021: 29 days, which with a hint of 2 is closest to one month. */
  lemma JanuaryToMarchInterval(s: TimeScale)
    requires s.d0 == 18658 * 86400 && s.d1 == 18687 * 86400
    ensures Interval(s, 2) == TickInterval(Months, 1, 2629746)
  {
    assert NaiveInterval(s, 2) == 2505600;
    var k := FirstClosest(TickIntervals, 2505600);
    assert Gap(TickIntervals[15].seconds, 2505600) == 124146;
    assert Gap(TickIntervals[14].seconds, 2505600) == 1900800;
    assert Gap(TickIntervals[16].seconds, 2505600) == 5383638;
    assert k == 15;
  }

  /** Day 18658 is 31 January 2021. */
  lemma DayOfJanuaryThirtyFirst()
    ensures DaysFromCivil(Date(2021, 1, 31)) == 18658 && CivilFromDays(18658) == Date(2021, 1, 31)
  {
    assert (18658 + 719468) / 146097 == 5;
    assert YearOfEra(7641) == (20, 336);
    assert MonthOfYear(336) == (10, 31);
    assert CivilFromDays(18658) == DateOfEra(5, 20, 10, 31) == Date(2021, 1, 31);
    DaysFromCivilOfCivilFromDays(18658);
  }

  /** Day 18687 is 1 March 2021. */
  lemma DayOfMarchFirst()
    ensures DaysFromCivil(Date(2021, 3, 1)) == 18687 && CivilFromDays(18687) == Date(2021, 3, 1)
  {
    assert (18687 + 719468) / 146097 == 5;
    assert YearOfEra(7670) == (21, 0);
    assert MonthOfYear(0) == (0, 1);
    assert CivilFromDays(18687) == DateOfEra(5, 21, 0, 1) == Date(2021, 3, 1);
    DaysFromCivilOfCivilFromDays(18687);
  }

  /**
   * From 31 January to 1 March 2021 with a hint of 2 the interval is one
   * month, and time_scale::ticks as written puts its second tick on 3 March,
   * after domain[1].
   */
  lemma AsWrittenTickPastDomain()
    ensures var s := TimeScale(Midnight(Date(2021, 1, 31)), Midnight(Date(2021, 3, 1)), 0.0, 1.0);
            var r := AsWrittenTickValues(s, 2);
            |r| == 2 && r[1] > s.d1
  {
    var s := TimeScale(Midnight(Date(2021, 1, 31)), Midnight(Date(2021, 3, 1)), 0.0, 1.0);
    DayOfJanuaryThirtyFirst();
    DayOfMarchFirst();
    JanuaryToMarchInterval(s);
    assert FloorDays(s.d0) == 18658 && FloorDays(s.d1) == 18687;
    LexicographicTickPastEnd();
  }

  /** time_scale::ticks. */
  method Ticks(s: TimeScale, hint: nat) returns (r: seq<int>)
    ensures r == TickValues(s, hint)
  {
    var iv := Interval(s, hint);
    if iv.kind == Years {
      r := YearMonthTicks(s, iv.number, true);
    } else if iv.kind == Months {
      r := YearMonthTicks(s, iv.number, false);
    } else if s.d0 < s.d1 {
      r := DefaultTicks(s.d0, s.d1, iv.seconds, true);
    } else {
      r := DefaultTicks(s.d0, s.d1, iv.seconds, false);
    }
  }

  /**
   * Every tick lies between the lower domain end, floored to its day, and
   * the upper domain end; fixed-duration ticks lie within the domain itself.
   * Ticks run strictly from domain[0] towards domain[1].
   */
  lemma TicksWithinDomain(s: TimeScale, hint: nat)
    ensures var r := TickValues(s, hint);
            var lo := if s.d0 < s.d1 then s.d0 else s.d1;
            var hi := if s.d0 < s.d1 then s.d1 else s.d0;
            && (forall i :: 0 <= i < |r| ==> FloorDays(lo) * 86400 <= r[i] <= hi)
            && (forall i, j :: 0 <= i < j < |r| ==> (if s.d0 < s.d1 then r[i] < r[j] else r[i] > r[j]))
  {
    var iv := Interval(s, hint);
    if iv.kind == Years || iv.kind == Months {
      CalendarTicksWithin(s, iv.number, iv.kind == Years);
    } else {
      FixedTicksWithin(s.d0, s.d1, iv.seconds);
    }
  }

  /** Calendar ticks lie between the days of the two ends, strictly in the direction of travel. */
  lemma CalendarTicksWithin(s: TimeScale, count: int, years: bool)
    requires count > 0
    ensures var ascending := s.d0 < s.d1;
            var r := CalendarTicks(FirstTickDate(s), FloorDays(s.d1), count, years, ascending);
            var lo := if ascending then s.d0 else s.d1;
            var hi := if ascending then s.d1 else s.d0;
            && (forall i :: 0 <= i < |r| ==> FloorDays(lo) * 86400 <= r[i] <= hi)
            && Strict(r, ascending)
  {
    var ascending := s.d0 < s.d1;
    var first := FirstTickDate(s);
    DaysFromCivilOfCivilFromDays(FloorDays(s.d0));
    assert Midnight(first) == FloorDays(s.d0) * 86400;
    CalendarTicksOrdered(first, FloorDays(s.d1), count, years, ascending);
  }

  /** Fixed-duration ticks lie within the domain, strictly in the direction of travel. */
  lemma FixedTicksWithin(d0: int, d1: int, step: int)
    requires step > 0
    ensures var ascending := d0 < d1;
            var r := FixedTicks(d0, d1, step, ascending);
            var lo := if ascending then d0 else d1;
            var hi := if ascending then d1 else d0;
            && (forall i :: 0 <= i < |r| ==> FloorDays(lo) * 86400 <= r[i] <= hi)
            && Strict(r, ascending)
  {
    var ascending := d0 < d1;
    var r := FixedTicks(d0, d1, step, ascending);
    FixedTicksShape(d0, d1, step, ascending);
    forall i, j | 0 <= i < j < |r|
      ensures if ascending then r[i] < r[j] else r[i] > r[j]
    {
      StepOrder(d0, i, j, step);
    }
    forall i | 0 < i < |r|
      ensures if ascending then d0 < r[i] else d0 > r[i]
    {
      StepOrder(d0, 0, i, step);
    }
  }

  lemma StepOrder(d: int, i: int, j: int, step: int)
    requires i < j && step > 0
    ensures Stepped(d, i, step, true) < Stepped(d, j, step, true)
    ensures Stepped(d, i, step, false) > Stepped(d, j, step, false)
  {
    assert j * step - i * step == (j - i) * step;
  }

  /**
   * One hour with a hint of 4 gets ticks every 15 minutes, both ends
   * included.
   */
  lemma HourTicksExample()
    ensures TickValues(TimeScale(0, 3600, 0.0, 1.0), 4) == [0, 900, 1800, 2700, 3600]
  {
    HourIntervalExample();
    assert FixedTicks(4500, 3600, 900, true) == [];
  }

  // ---------------------------------------------------------------------
  // Snapping to the grid
  // ---------------------------------------------------------------------

  lemma MulAwayFromZero(x: int, step: int)
    requires step > 0
    ensures x >= 1 ==> x * step >= step
    ensures x <= -1 ==> x * step <= -step
  {
  }

  /** A whole number of intervals is a multiple of the interval. */
  lemma MultipleOf(q: int, step: int)
    requires step > 0
    ensures (q * step) % step == 0 && (q * step) / step == q
  {
    var r := q * step;
    var k := r / step;
    var m := r % step;
    assert r == k * step + m;
    assert (q - k) * step == m;
    MulAwayFromZero(q - k, step);
  }

  /**
   * time_scale::rnd: val divided by the interval, rounded down (or up) to
   * a whole number, times the interval: the nearest multiple of the
   * interval not above (or not below) val.
   */
  function Rnd(val: int, step: int, up: bool): (r: int)
    requires step > 0
    ensures r % step == 0
    ensures up ==> val <= r < val + step
    ensures !up ==> r <= val < r + step
  {
    var q := if up then -((-val) / step) else val / step;
    MultipleOf(q, step);
    assert (-val) == ((-val) / step) * step + (-val) % step;
    assert val == (val / step) * step + val % step;
    q * step
  }

  /** The first day of the month a date falls in. */
  function FirstOfMonth(d: Date): Date
  {
    Date(d.year, d.month, 1)
  }

  /** January 1 of a date's year. */
  function FirstOfYear(d: Date): Date
  {
    Date(d.year, 1, 1)
  }

  /**
   * snap_months from the days z0 and z1 of domain[0] and domain[1]: one
   * month is added to the later end's date, then both are set to day 1.
   */
  function MonthSnap(s: TimeScale, z0: int, z1: int): TimeScale
  {
    var ym0 := CivilFromDays(z0);
    var ym1 := CivilFromDays(z1);
    var ym0' := if s.d0 < s.d1 then ym0 else AddMonths(ym0, 1);
    var ym1' := if s.d0 < s.d1 then AddMonths(ym1, 1) else ym1;
    FromDates(FirstOfMonth(ym0'), FirstOfMonth(ym1'), s.c0, s.c1)
  }

  /** The date moved back to the first month of its quarter: month 1, 4, 7 or 10 of the same year. */
  function QuarterStart(d: Date): (r: Date)
    requires ValidMonth(d)
    ensures ValidMonth(r) && r.year == d.year && r.day == d.day
    ensures r.month <= d.month < r.month + 3 && (r.month - 1) % 3 == 0
  {
    var k := (d.month - 1) % 3;
    QuotientOf(MonthIndex(d) - k, 12, d.year, d.month - 1 - k);
    AddMonths(d, -k)
  }

  /**
   * snap_quarters from the days of the two ends: the earlier end's date goes
   * back to the first month of its quarter, one year is added to the later
   * end's date, then both are set to January 1.
   */
  function QuarterSnap(s: TimeScale, z0: int, z1: int): TimeScale
  {
    var ym0 := CivilFromDays(z0);
    var ym1 := CivilFromDays(z1);
    var ym0' := if s.d0 < s.d1 then QuarterStart(ym0) else AddYears(ym0, 1);
    var ym1' := if s.d0 < s.d1 then AddYears(ym1, 1) else QuarterStart(ym1);
    FromDates(FirstOfYear(ym0'), FirstOfYear(ym1'), s.c0, s.c1)
  }

  /**
   * snap_years from the days of the two ends: one year is added to the later
   * end's date, then both are set to January 1.
   */
  function YearSnap(s: TimeScale, z0: int, z1: int): TimeScale
  {
    var ym0 := CivilFromDays(z0);
    var ym1 := CivilFromDays(z1);
    var ym0' := if s.d0 < s.d1 then ym0 else AddYears(ym0, 1);
    var ym1' := if s.d0 < s.d1 then AddYears(ym1, 1) else ym1;
    FromDates(FirstOfYear(ym0'), FirstOfYear(ym1'), s.c0, s.c1)
  }

  /**
   * Moving back to the start of the quarter never leaves the year, and the
   * month is then overwritten: quarter snapping is year snapping.
   */
  lemma QuarterSnapIsYearSnap(s: TimeScale, z0: int, z1: int)
    ensures QuarterSnap(s, z0, z1) == YearSnap(s, z0, z1)
  {
  }

  /** snap_months as written: the days of the ends are cut toward zero (time_point_cast). */
  function TruncatedSnapMonths(s: TimeScale): TimeScale
  {
    MonthSnap(s, TruncDays(s.d0), TruncDays(s.d1))
  }

  /**
   * Before 1970 cutting toward zero moves a time point to the next day:
   * 1969-11-30T12:00Z (-2721600 s) is cut to 1969-12-01, so the snapped
   * ascending domain starts on 1969-12-01, after the old start.
   */
  lemma TruncatedSnapMonthsMissesStart()
    ensures var r := TruncatedSnapMonths(TimeScale(-2721600, 0, 0.0, 1.0));
            r.d0 == Midnight(Date(1969, 12, 1)) && r.d0 > -2721600
  {
    assert TruncDays(-2721600) == -31;
    assert YearOfEra(135049) == (369, 275);
    assert MonthOfYear(275) == (9, 1);
    assert CivilFromDays(-31) == Date(1969, 12, 1);
  }

  /** snap_months with the days of the ends floored, as year_month_ticks does. */
  function SnapMonths(s: TimeScale): TimeScale
  {
    MonthSnap(s, FloorDays(s.d0), FloorDays(s.d1))
  }

  /** snap_quarters with the days of the ends floored. */
  function SnapQuarters(s: TimeScale): TimeScale
  {
    QuarterSnap(s, FloorDays(s.d0), FloorDays(s.d1))
  }

  /** snap_years with the days of the ends floored. */
  function SnapYears(s: TimeScale): TimeScale
  {
    YearSnap(s, FloorDays(s.d0), FloorDays(s.d1))
  }

  /** The new domain contains the old one and keeps its orientation. */
  predicate Encloses(r: TimeScale, s: TimeScale)
  {
    if s.d0 < s.d1 then r.d0 <= s.d0 && s.d1 <= r.d1 else r.d1 <= s.d1 && s.d0 <= r.d0
  }

  /** The first of the month of a day is not after it. */
  lemma MonthStartNotAfter(z: int)
    ensures DaysFromCivil(FirstOfMonth(CivilFromDays(z))) <= z
  {
    var d := CivilFromDays(z);
    DaysFromCivilOfCivilFromDays(z);
    DaysFromCivilLinear(d);
  }

  /** The first of the next month of a day is after it. */
  lemma NextMonthStartAfter(z: int)
    ensures DaysFromCivil(FirstOfMonth(AddMonths(CivilFromDays(z), 1))) > z
  {
    var d := CivilFromDays(z);
    CivilFromDaysOk(z);
    DaysFromCivilOfCivilFromDays(z);
    EarlierMonthEarlierDay(d, FirstOfMonth(AddMonths(d, 1)));
  }

  /** January 1 of a day's year is not after it. */
  lemma YearStartNotAfter(z: int)
    ensures DaysFromCivil(FirstOfYear(CivilFromDays(z))) <= z
  {
    var d := CivilFromDays(z);
    MonthStartNotAfter(z);
    DaysFromMonthStart(FirstOfYear(d));
    DaysFromMonthStart(FirstOfMonth(d));
    MonthStartIncreasing(MonthIndex(FirstOfYear(d)), MonthIndex(FirstOfMonth(d)));
  }

  /** January 1 of the next year of a day is after it. */
  lemma NextYearStartAfter(z: int)
    ensures DaysFromCivil(FirstOfYear(AddYears(CivilFromDays(z), 1))) > z
  {
    var d := CivilFromDays(z);
    NextMonthStartAfter(z);
    var n := FirstOfMonth(AddMonths(d, 1));
    var y := FirstOfYear(AddYears(d, 1));
    DaysFromMonthStart(n);
    DaysFromMonthStart(y);
    MonthStartIncreasing(MonthIndex(n), MonthIndex(y));
  }

  /** Snapping to months with floored days encloses the domain. */
  lemma SnapMonthsEncloses(s: TimeScale)
    ensures Encloses(SnapMonths(s), s)
  {
    if s.d0 < s.d1 {
      MonthStartNotAfter(FloorDays(s.d0));
      NextMonthStartAfter(FloorDays(s.d1));
    } else {
      MonthStartNotAfter(FloorDays(s.d1));
      NextMonthStartAfter(FloorDays(s.d0));
    }
  }

  /** Snapping to years with floored days encloses the domain. */
  lemma SnapYearsEncloses(s: TimeScale)
    ensures Encloses(SnapYears(s), s)
  {
    if s.d0 < s.d1 {
      YearStartNotAfter(FloorDays(s.d0));
      NextYearStartAfter(FloorDays(s.d1));
    } else {
      YearStartNotAfter(FloorDays(s.d1));
      NextYearStartAfter(FloorDays(s.d0));
    }
  }

  /** The month index (12 * year + month - 1) of the calendar month a time point falls in. */
  function MonthOf(t: int): int
  {
    MonthIndex(CivilFromDays(FloorDays(t)))
  }

  /** The calendar year a time point falls in. */
  function YearOf(t: int): int
  {
    CivilFromDays(FloorDays(t)).year
  }

  /** Midnight on the first day of the month with index i. */
  function MonthStartTime(i: int): int
  {
    MonthStart(i) * 86400
  }

  /** A time point lies from the start of its month up to, not including, the start of the next. */
  lemma InOwnMonth(t: int)
    ensures MonthStartTime(MonthOf(t)) <= t < MonthStartTime(MonthOf(t) + 1)
  {
    var z := FloorDays(t);
    var d := CivilFromDays(z);
    DaysFromCivilOfCivilFromDays(z);
    DaysFromMonthStart(d);
    CivilFromDaysOk(z);
    BeforeNextMonth(d);
  }

  /** A time point lies from 1 January of its year up to, not including, 1 January of the next. */
  lemma InOwnYear(t: int)
    ensures MonthStartTime(12 * YearOf(t)) <= t < MonthStartTime(12 * (YearOf(t) + 1))
  {
    InOwnMonth(t);
    YearBracket(MonthOf(t), YearOf(t), t);
  }

  /** What lies within a month of year y lies within year y. */
  lemma YearBracket(i: int, y: int, t: int)
    requires 12 * y <= i < 12 * (y + 1)
    requires MonthStartTime(i) <= t < MonthStartTime(i + 1)
    ensures MonthStartTime(12 * y) <= t < MonthStartTime(12 * (y + 1))
  {
    MonthStartIncreasing(12 * y, i);
    MonthStartIncreasing(i + 1, 12 * (y + 1));
  }

  /**
   * The ends sit on month starts: the earlier end moves back to the start
   * of the month it falls in, the later one on to the start of the month
   * after the one it falls in.
   */
  predicate MonthAligned(r: TimeScale, s: TimeScale)
  {
    if s.d0 < s.d1 then r.d0 == MonthStartTime(MonthOf(s.d0)) && r.d1 == MonthStartTime(MonthOf(s.d1) + 1)
    else r.d1 == MonthStartTime(MonthOf(s.d1)) && r.d0 == MonthStartTime(MonthOf(s.d0) + 1)
  }

  /**
   * The ends sit on 1 January: the earlier end moves back to the start of
   * the year it falls in, the later one on to the start of the next year.
   */
  predicate YearAligned(r: TimeScale, s: TimeScale)
  {
    if s.d0 < s.d1 then r.d0 == MonthStartTime(12 * YearOf(s.d0)) && r.d1 == MonthStartTime(12 * (YearOf(s.d1) + 1))
    else r.d1 == MonthStartTime(12 * YearOf(s.d1)) && r.d0 == MonthStartTime(12 * (YearOf(s.d0) + 1))
  }

  /** The first of a date's month is midnight at the start of its month index. */
  lemma MidnightOfMonthStart(d: Date)
    requires ValidMonth(d)
    ensures Midnight(FirstOfMonth(d)) == MonthStartTime(MonthIndex(d))
  {
    DaysFromMonthStart(FirstOfMonth(d));
  }

  /** Snapping to months puts the ends on the starts of their months. */
  lemma SnapMonthsAligned(s: TimeScale)
    ensures MonthAligned(SnapMonths(s), s)
  {
    var a := CivilFromDays(FloorDays(s.d0));
    var b := CivilFromDays(FloorDays(s.d1));
    var r := SnapMonths(s);
    assert r == MonthSnap(s, FloorDays(s.d0), FloorDays(s.d1));
    assert MonthOf(s.d0) == MonthIndex(a) && MonthOf(s.d1) == MonthIndex(b);
    MonthSnapOfDates(s, a, b, r);
  }

  /** Month snapping, in terms of the dates of the two ends. */
  lemma MonthSnapOfDates(s: TimeScale, a: Date, b: Date, r: TimeScale)
    requires ValidMonth(a) && ValidMonth(b)
    requires r == (if s.d0 < s.d1 then FromDates(FirstOfMonth(a), FirstOfMonth(AddMonths(b, 1)), s.c0, s.c1)
                   else FromDates(FirstOfMonth(AddMonths(a, 1)), FirstOfMonth(b), s.c0, s.c1))
    ensures s.d0 < s.d1 ==> r.d0 == MonthStartTime(MonthIndex(a)) && r.d1 == MonthStartTime(MonthIndex(b) + 1)
    ensures !(s.d0 < s.d1) ==> r.d1 == MonthStartTime(MonthIndex(b)) && r.d0 == MonthStartTime(MonthIndex(a) + 1)
  {
    if s.d0 < s.d1 {
      MidnightOfMonthStart(a);
      MidnightOfMonthStart(AddMonths(b, 1));
    } else {
      MidnightOfMonthStart(b);
      MidnightOfMonthStart(AddMonths(a, 1));
    }
  }

  /** January 1 of a date's year is the start of month index 12 * year. */
  lemma YearStartMidnight(d: Date)
    requires ValidMonth(d)
    ensures Midnight(FirstOfYear(d)) == MonthStartTime(12 * d.year)
  {
    MidnightOfMonthStart(FirstOfYear(d));
  }

  /** January 1 of the year after a date's is the start of month index 12 * (year + 1). */
  lemma NextYearStartMidnight(d: Date)
    requires ValidMonth(d)
    ensures Midnight(FirstOfYear(AddYears(d, 1))) == MonthStartTime(12 * (d.year + 1))
  {
    var n := AddYears(d, 1);
    assert n.year == d.year + 1;
    MidnightOfMonthStart(FirstOfYear(n));
  }

  /** Snapping to years puts the ends on 1 January of their years. */
  lemma SnapYearsAligned(s: TimeScale)
    ensures YearAligned(SnapYears(s), s)
  {
    var a := CivilFromDays(FloorDays(s.d0));
    var b := CivilFromDays(FloorDays(s.d1));
    var r := SnapYears(s);
    assert r == YearSnap(s, FloorDays(s.d0), FloorDays(s.d1));
    assert YearOf(s.d0) == a.year && YearOf(s.d1) == b.year;
    YearSnapOfDates(s, a, b, r);
  }

  /** Year snapping, in terms of the dates of the two ends. */
  lemma YearSnapOfDates(s: TimeScale, a: Date, b: Date, r: TimeScale)
    requires ValidMonth(a) && ValidMonth(b)
    requires r == (if s.d0 < s.d1 then FromDates(FirstOfYear(a), FirstOfYear(AddYears(b, 1)), s.c0, s.c1)
                   else FromDates(FirstOfYear(AddYears(a, 1)), FirstOfYear(b), s.c0, s.c1))
    ensures s.d0 < s.d1 ==> r.d0 == MonthStartTime(12 * a.year) && r.d1 == MonthStartTime(12 * (b.year + 1))
    ensures !(s.d0 < s.d1) ==> r.d1 == MonthStartTime(12 * b.year) && r.d0 == MonthStartTime(12 * (a.year + 1))
  {
    if s.d0 < s.d1 {
      YearStartMidnight(a);
      NextYearStartMidnight(b);
    } else {
      YearStartMidnight(b);
      NextYearStartMidnight(a);
    }
  }

  /** snap_years as written: the days of the ends are cut toward zero (time_point_cast). */
  function TruncatedSnapYears(s: TimeScale): TimeScale
  {
    YearSnap(s, TruncDays(s.d0), TruncDays(s.d1))
  }

  /** snap_quarters as written, with the days of the ends cut toward zero. */
  function TruncatedSnapQuarters(s: TimeScale): TimeScale
  {
    QuarterSnap(s, TruncDays(s.d0), TruncDays(s.d1))
  }

  /**
   * Before 1970 cutting toward zero can move a time point into the next
   * year: 1969-12-31T12:00Z (-43200 s) is cut to 1970-01-01, so the snapped
   * ascending domain starts on 1970-01-01, after the old start, for years
   * and quarters alike.
   */
  lemma TruncatedSnapYearsMissesStart()
    ensures var s := TimeScale(-43200, 86400, 0.0, 1.0);
            && TruncatedSnapYears(s).d0 == Midnight(Date(1970, 1, 1)) == 0
            && TruncatedSnapQuarters(s) == TruncatedSnapYears(s)
            && TruncatedSnapYears(s).d0 > s.d0
  {
    var s := TimeScale(-43200, 86400, 0.0, 1.0);
    assert TruncDays(-43200) == 0 && TruncDays(86400) == 1;
    EpochDate();
    QuarterSnapIsYearSnap(s, 0, 1);
  }

  /** Day zero is 1970-01-01. */
  lemma EpochDate()
    ensures CivilFromDays(0) == Date(1970, 1, 1) && Midnight(Date(1970, 1, 1)) == 0
  {
    assert YearOfEra(135080) == (369, 306);
    assert MonthOfYear(306) == (10, 1);
    assert CivilFromDays(0) == Date(1970, 1, 1);
    DaysFromCivilOfCivilFromDays(0);
  }

  /**
   * The duration branch of snapped_to_grid: each end rounded to a multiple of
   * the interval, down at the lower end and up at the upper end.
   */
  function SnapToDuration(s: TimeScale, step: int): (r: TimeScale)
    requires step > 0
    ensures r.c0 == s.c0 && r.c1 == s.c1
    ensures Encloses(r, s)
    ensures r.d0 % step == 0 && r.d1 % step == 0
    ensures if s.d0 < s.d1 then r.d0 > s.d0 - step && r.d1 < s.d1 + step
            else r.d0 < s.d0 + step && r.d1 > s.d1 - step
  {
    if s.d0 < s.d1 then TimeScale(Rnd(s.d0, step, false), Rnd(s.d1, step, true), s.c0, s.c1)
    else TimeScale(Rnd(s.d0, step, true), Rnd(s.d1, step, false), s.c0, s.c1)
  }

  /**
   * time_scale::snapped_to_grid, with the days of the ends floored: years
   * and quarters put the ends on 1 January, other month intervals on the
   * first of a month, and every other interval rounds each end's seconds to
   * a multiple of the interval, down at the lower end and up at the upper
   * end. Each new end is the nearest such grid point outside the old one
   * (InOwnMonth, InOwnYear), the codomain is kept, and the new domain
   * encloses the old one in the same orientation.
   */
  function SnappedToGrid(s: TimeScale, hint: nat): (r: TimeScale)
    ensures r.c0 == s.c0 && r.c1 == s.c1
    ensures Encloses(r, s)
    ensures var iv := Interval(s, hint);
            && (iv.kind == Years || (iv.kind == Months && iv.number == 3) ==> YearAligned(r, s))
            && (iv.kind == Months && iv.number != 3 ==> MonthAligned(r, s))
            && (iv.kind != Years && iv.kind != Months ==> r == SnapToDuration(s, iv.seconds))
  {
    var iv := Interval(s, hint);
    SnapMonthsEncloses(s);
    SnapYearsEncloses(s);
    SnapMonthsAligned(s);
    SnapYearsAligned(s);
    QuarterSnapIsYearSnap(s, FloorDays(s.d0), FloorDays(s.d1));
    if iv.kind == Years then SnapYears(s)
    else if iv.kind == Months then (if iv.number == 3 then SnapQuarters(s) else SnapMonths(s))
    else SnapToDuration(s, iv.seconds)
  }

  /** snapped_to_grid as written: the calendar branches cut the days of the ends toward zero. */
  function AsWrittenSnappedToGrid(s: TimeScale, hint: nat): TimeScale
  {
    var iv := Interval(s, hint);
    if iv.kind == Years then TruncatedSnapYears(s)
    else if iv.kind == Months then (if iv.number == 3 then TruncatedSnapQuarters(s) else TruncatedSnapMonths(s))
    else SnapToDuration(s, iv.seconds)
  }

  /** From 1970 on, cutting toward zero is flooring: the written snapping is the corrected one. */
  lemma AsWrittenSnappedToGridAgrees(s: TimeScale, hint: nat)
    requires s.d0 >= 0 && s.d1 >= 0
    ensures AsWrittenSnappedToGrid(s, hint) == SnappedToGrid(s, hint)
  {
    assert TruncDays(s.d0) == FloorDays(s.d0) && TruncDays(s.d1) == FloorDays(s.d1);
  }

  /** The domain end points as constructed. */
  function Domain(s: TimeScale): (d: (int, int))
    ensures d.0 == s.d0 && d.1 == s.d1
  {
    (s.d0, s.d1)
  }

  /** The codomain end points as constructed. */
  function Codomain(s: TimeScale): (c: (real, real))
    ensures c.0 == s.c0 && c.1 == s.c1
  {
    (s.c0, s.c1)
  }
}
