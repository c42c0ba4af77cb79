/**
 * The proleptic Gregorian civil calendar the time scale relies on through
 * the date library: year_month_day values, their conversion to and from a
 * count of days since 1970-01-01 (sys_days), month and year arithmetic, and
 * the two ways a time point in seconds is cut to whole days.
 */
module CivilCalendar {

  /**
   * date::year_month_day. The day is not checked against the month, as in the
   * date library, where adding months keeps the day even when it overflows.
   */
  datatype Date = Date(year: int, month: int, day: int)

  predicate ValidMonth(d: Date)
  {
    1 <= d.month <= 12
  }

  function IsLeap(y: int): bool
  {
    y % 4 == 0 && (y % 100 != 0 || y % 400 == 0)
  }

  function DaysInMonth(y: int, m: int): (n: int)
    requires 1 <= m <= 12
    ensures 28 <= n <= 31
  {
    if m == 2 then (if IsLeap(y) then 29 else 28)
    else if m == 4 || m == 6 || m == 9 || m == 11 then 30
    else 31
  }

  /** year_month_day::ok(): a real calendar date. */
  predicate Ok(d: Date)
  {
    ValidMonth(d) && 1 <= d.day <= DaysInMonth(d.year, d.month)
  }

  /** Position of a month in a year that starts in March: March 0 .. February 11. */
  function ShiftedMonth(m: int): (mp: int)
    requires 1 <= m <= 12
    ensures 0 <= mp <= 11
  {
    if m > 2 then m - 3 else m + 9
  }

  /** Days from March 1 to the first of shifted month mp. */
  function DaysBeforeShiftedMonth(mp: int): (n: int)
    requires 0 <= mp <= 11
    ensures 0 <= n <= 337
  {
    (153 * mp + 2) / 5
  }

  /** Days from 0000-03-01 to March 1 of `yoe` years into a 400-year era. */
  function DaysBeforeYearOfEra(yoe: int): (n: int)
    requires 0 <= yoe <= 399
  {
    yoe * 365 + yoe / 4 - yoe / 100
  }

  /**
   * sys_days(year_month_day): days since 1970-01-01 (Howard Hinnant's
   * days_from_civil). A day outside the month counts on from the month's
   * first day, which is how sys_days treats a year_month_day that is not ok().
   */
  function DaysFromCivil(d: Date): int
    requires ValidMonth(d)
  {
    var y := if d.month <= 2 then d.year - 1 else d.year;
    var era := y / 400;
    var yoe := y - era * 400;
    var doy := DaysBeforeShiftedMonth(ShiftedMonth(d.month)) + d.day - 1;
    era * 146097 + DaysBeforeYearOfEra(yoe) + doy - 719468
  }

  /** The day number counts linearly from the first of the month. */
  lemma DaysFromCivilLinear(d: Date)
    requires ValidMonth(d)
    ensures DaysFromCivil(d) == DaysFromCivil(Date(d.year, d.month, 1)) + d.day - 1
  {
  }

  /**
   * The year of era, and the day of that year, of a day of a 400-year era:
   * three centuries of 36524 days and a last one of 36525, each made of
   * four-year groups of 1461 days (the last one a day short in the first
   * three centuries), each made of years of 365 days (the fourth one a day
   * longer).
   */
  function YearOfEra(doe: int): (r: (int, int))
    requires 0 <= doe <= 146096
    ensures 0 <= r.0 <= 399 && 0 <= r.1 <= 365
    ensures DaysBeforeYearOfEra(r.0) + r.1 == doe
    ensures r.1 == 365 ==> (r.0 + 1) % 4 == 0 && ((r.0 + 1) % 100 != 0 || r.0 == 399)
  {
    var c := if doe / 36524 < 3 then doe / 36524 else 3;
    var doc := doe - c * 36524;
    var q := doc / 1461;
    var doq := doc - q * 1461;
    var yq := if doq / 365 < 3 then doq / 365 else 3;
    var doy := doq - yq * 365;
    var yoe := 100 * c + 4 * q + yq;
    assert 0 <= doc <= 36524 && (doc == 36524 ==> c == 3);
    assert 0 <= q <= 24 && 0 <= doq <= 1460;
    assert doy == 365 ==> yq == 3 && doq == 1460;
    YearOfEraDays(c, q, yq);
    (yoe, doy)
  }

  lemma YearOfEraDays(c: int, q: int, yq: int)
    requires 0 <= c <= 3 && 0 <= q <= 24 && 0 <= yq <= 3
    ensures DaysBeforeYearOfEra(100 * c + 4 * q + yq) == c * 36524 + q * 1461 + yq * 365
  {
    var yoe := 100 * c + 4 * q + yq;
    assert yoe / 4 == 25 * c + q;
    assert yoe / 100 == c;
  }

  /** The shifted month of a day of the shifted year, and the day of that month. */
  function MonthOfYear(doy: int): (r: (int, int))
    requires 0 <= doy <= 365
    ensures 0 <= r.0 <= 11 && 1 <= r.1 <= 31
    ensures DaysBeforeShiftedMonth(r.0) + r.1 - 1 == doy
    ensures r.0 < 11 ==> r.1 <= DaysInMonth(1, if r.0 < 10 then r.0 + 3 else r.0 - 9)
    ensures r.0 == 11 ==> r.1 <= 28 || doy == 365
  {
    var mp := (5 * doy + 2) / 153;
    (mp, doy - DaysBeforeShiftedMonth(mp) + 1)
  }

  /** The date of shifted month mp and day `day` of year `yoe` of era `era`. */
  function DateOfEra(era: int, yoe: int, mp: int, day: int): (d: Date)
    requires 0 <= mp <= 11
    ensures ValidMonth(d) && d.day == day && ShiftedMonth(d.month) == mp
  {
    var m := if mp < 10 then mp + 3 else mp - 9;
    var y := yoe + era * 400;
    Date(if m <= 2 then y + 1 else y, m, day)
  }

  /**
   * year_month_day(sys_days): the civil date of a day number (Howard
   * Hinnant's civil_from_days, with the year of the era found century by
   * century).
   */
  function CivilFromDays(z: int): (d: Date)
    ensures ValidMonth(d) && 1 <= d.day <= 31
  {
    var shifted := z + 719468;
    var era := shifted / 146097;
    var doe := shifted - era * 146097;
    var (yoe, doy) := YearOfEra(doe);
    var (mp, day) := MonthOfYear(doy);
    DateOfEra(era, yoe, mp, day)
  }

  /** x written as q * k + r with 0 <= r < k has quotient q and remainder r by k (for the two divisors used here). */
  lemma QuotientOf(x: int, k: int, q: int, r: int)
    requires k == 12 || k == 400
    requires 0 <= r < k && x == q * k + r
    ensures x / k == q && x % k == r
  {
    var p := x / k;
    if k == 12 {
      assert p * 12 <= x < p * 12 + 12;
      assert (p - q) * 12 < 12 && (q - p) * 12 < 12;
    } else {
      assert p * 400 <= x < p * 400 + 400;
      assert (p - q) * 400 < 400 && (q - p) * 400 < 400;
    }
  }

  /** A year written as era and year of era has that era. */
  lemma EraOfYear(y: int, era: int, yoe: int)
    requires 0 <= yoe <= 399 && y == yoe + era * 400
    ensures y / 400 == era && y - y / 400 * 400 == yoe
  {
    QuotientOf(y, 400, era, yoe);
  }

  /** The day number of a date given by era, year of era, shifted month and day. */
  lemma DaysFromDateOfEra(era: int, yoe: int, mp: int, day: int)
    requires 0 <= yoe <= 399 && 0 <= mp <= 11
    ensures DaysFromCivil(DateOfEra(era, yoe, mp, day))
         == era * 146097 + DaysBeforeYearOfEra(yoe) + DaysBeforeShiftedMonth(mp) + day - 1 - 719468
  {
    var d := DateOfEra(era, yoe, mp, day);
    var y := yoe + era * 400;
    assert (if d.month <= 2 then d.year - 1 else d.year) == y;
    EraOfYear(y, era, yoe);
  }

  /** Converting a day number to a date and back gives the day number. */
  lemma DaysFromCivilOfCivilFromDays(z: int)
    ensures DaysFromCivil(CivilFromDays(z)) == z
  {
    var shifted := z + 719468;
    var era := shifted / 146097;
    var doe := shifted - era * 146097;
    var r := YearOfEra(doe);
    var mm := MonthOfYear(r.1);
    assert CivilFromDays(z) == DateOfEra(era, r.0, mm.0, mm.1);
    DaysFromDateOfEra(era, r.0, mm.0, mm.1);
  }

  /** Lexicographic order on (year, month, day): year_month_day's operator<=. */
  predicate LessEq(a: Date, b: Date)
  {
    a.year < b.year || (a.year == b.year && (a.month < b.month || (a.month == b.month && a.day <= b.day)))
  }

  /** Months since January of year 0. */
  function MonthIndex(d: Date): int
  {
    d.year * 12 + d.month - 1
  }

  /** Dates are ordered by month index first, then by day. */
  lemma LessEqByMonthIndex(a: Date, b: Date)
    requires ValidMonth(a) && ValidMonth(b)
    ensures LessEq(a, b) <==> MonthIndex(a) < MonthIndex(b) || (MonthIndex(a) == MonthIndex(b) && a.day <= b.day)
  {
  }

  /** year_month_day + months: the month moves by n, the day stays. */
  function AddMonths(d: Date, n: int): (r: Date)
    requires ValidMonth(d)
    ensures ValidMonth(r) && r.day == d.day
    ensures MonthIndex(r) == MonthIndex(d) + n
  {
    var total := MonthIndex(d) + n;
    Date(total / 12, total % 12 + 1, d.day)
  }

  /** year_month_day + years: the year moves by n, month and day stay. */
  function AddYears(d: Date, n: int): (r: Date)
    requires ValidMonth(d)
    ensures ValidMonth(r) && r.month == d.month && r.day == d.day
    ensures MonthIndex(r) == MonthIndex(d) + 12 * n
  {
    Date(d.year + n, d.month, d.day)
  }

  /** Adding years is adding twelve times as many months. */
  lemma AddYearsIsAddMonths(d: Date, n: int)
    requires ValidMonth(d)
    ensures AddYears(d, n) == AddMonths(d, 12 * n)
  {
    var r := AddMonths(d, 12 * n);
    assert r.year * 12 + r.month - 1 == (d.year + n) * 12 + d.month - 1;
  }

  /** date::floor<days>: the day (of 86400 seconds) of a time point, rounding down. */
  function FloorDays(t: int): (z: int)
    ensures z * 86400 <= t < (z + 1) * 86400
  {
    t / 86400
  }

  /** std::chrono::time_point_cast<days>: the day of a time point, rounding toward zero. */
  function TruncDays(t: int): (z: int)
    ensures t >= 0 ==> z == FloorDays(t)
    ensures t < 0 ==> z * 86400 - 86400 < t <= z * 86400
  {
    if t >= 0 then t / 86400 else -((-t) / 86400)
  }

  /** The day number of March 1 of year y. */
  function MarchStart(y: int): int
  {
    DaysFromCivil(Date(y, 3, 1))
  }

  /** The first of a month counts on from March 1 of its shifted year (which for January and February is the year before). */
  lemma FirstOfMonth(y: int, m: int)
    requires 1 <= m <= 12
    ensures DaysFromCivil(Date(y, m, 1)) == MarchStart(if m <= 2 then y - 1 else y) + DaysBeforeShiftedMonth(ShiftedMonth(m))
  {
  }

  /** Within a shifted year, consecutive months start DaysInMonth apart. */
  lemma ShiftedMonthLength(y: int, m: int)
    requires 1 <= m <= 11 && m != 2
    ensures DaysBeforeShiftedMonth(ShiftedMonth(m + 1)) - DaysBeforeShiftedMonth(ShiftedMonth(m)) == DaysInMonth(y, m)
  {
  }

  /** The first day of the month after d's month is DaysInMonth days after the first of d's month. */
  lemma NextMonthStart(d: Date)
    requires ValidMonth(d)
    ensures DaysFromCivil(Date(AddMonths(d, 1).year, AddMonths(d, 1).month, 1)) ==
            DaysFromCivil(Date(d.year, d.month, 1)) + DaysInMonth(d.year, d.month)
  {
    var n := AddMonths(d, 1);
    if d.month == 12 {
      assert n.year == d.year + 1 && n.month == 1;
      FollowingMonthStart(d.year, 12, d.year + 1, 1);
    } else {
      assert n.year == d.year && n.month == d.month + 1;
      FollowingMonthStart(d.year, d.month, d.year, d.month + 1);
    }
  }

  /** The first of month m2 of year y2, the month after m of y, is DaysInMonth(y, m) days after the first of m. */
  lemma FollowingMonthStart(y: int, m: int, y2: int, m2: int)
    requires 1 <= m <= 12
    requires if m == 12 then y2 == y + 1 && m2 == 1 else y2 == y && m2 == m + 1
    ensures DaysFromCivil(Date(y2, m2, 1)) == DaysFromCivil(Date(y, m, 1)) + DaysInMonth(y, m)
  {
    FirstOfMonth(y, m);
    FirstOfMonth(y2, m2);
    if m == 2 {
      YearLength(y);
    } else if m != 12 {
      ShiftedMonthLength(y, m);
    }
  }

  /** A year of an era is 365 days, one more in a fourth year, one less again in a hundredth year. */
  lemma YearOfEraStep(yoe: int)
    requires 1 <= yoe <= 399
    ensures DaysBeforeYearOfEra(yoe) - DaysBeforeYearOfEra(yoe - 1) ==
            365 + (if yoe % 4 == 0 then 1 else 0) - (if yoe % 100 == 0 then 1 else 0)
  {
    var q4 := yoe / 4;
    var q100 := yoe / 100;
    if yoe % 4 == 0 { assert (yoe - 1) / 4 == q4 - 1; } else { assert (yoe - 1) / 4 == q4; }
    if yoe % 100 == 0 { assert (yoe - 1) / 100 == q100 - 1; } else { assert (yoe - 1) / 100 == q100; }
  }

  /** Shifting by a multiple of 400 keeps the remainders by 4, 100 and 400. */
  lemma RemaindersOfEra(y: int, era: int, yoe: int)
    requires y == era * 400 + yoe
    ensures y % 4 == yoe % 4 && y % 100 == yoe % 100 && y % 400 == yoe % 400
  {
    assert y == (era * 100) * 4 + yoe;
    assert y == (era * 4) * 100 + yoe;
  }

  /** Every hundredth year is a fourth year. */
  lemma CenturyIsFourth(n: int)
    ensures n % 100 == 0 ==> n % 4 == 0
  {
    var c := n / 100;
    if n % 100 == 0 {
      assert n == (c * 25) * 4;
    }
  }

  /** March 1 of a year given by era and year of era. */
  lemma MarchStartOfEra(y: int, era: int, yoe: int)
    requires 0 <= yoe <= 399 && y == yoe + era * 400
    ensures MarchStart(y) == era * 146097 + DaysBeforeYearOfEra(yoe) - 719468
  {
    EraOfYear(y, era, yoe);
  }

  /** March 1 of year y comes 365 or 366 days after March 1 of year y - 1. */
  lemma YearLength(y: int)
    ensures MarchStart(y) - MarchStart(y - 1) == if IsLeap(y) then 366 else 365
  {
    var era := y / 400;
    var yoe := y - era * 400;
    RemaindersOfEra(y, era, yoe);
    MarchStartOfEra(y, era, yoe);
    if yoe == 0 {
      MarchStartOfEra(y - 1, era - 1, 399);
      assert DaysBeforeYearOfEra(399) == 145731;
      assert IsLeap(y);
    } else {
      MarchStartOfEra(y - 1, era, yoe - 1);
      YearOfEraStep(yoe);
      CenturyIsFourth(yoe);
      assert IsLeap(y) == (yoe % 4 == 0 && yoe % 100 != 0);
    }
  }

  /** Every date year_month_day(sys_days) produces is a real calendar date. */
  lemma CivilFromDaysOk(z: int)
    ensures Ok(CivilFromDays(z))
  {
    var shifted := z + 719468;
    var era := shifted / 146097;
    var doe := shifted - era * 146097;
    var (yoe, doy) := YearOfEra(doe);
    var (mp, day) := MonthOfYear(doy);
    var d := CivilFromDays(z);
    if mp == 11 && doy == 365 {
      RemaindersOfEra(d.year, era, yoe + 1);
      assert IsLeap(d.year);
    }
  }

  /** The day number of the first day of the month with the given month index. */
  function MonthStart(i: int): int
  {
    DaysFromCivil(Date(i / 12, i % 12 + 1, 1))
  }

  /** A date's day number counts on from the first day of its month. */
  lemma DaysFromMonthStart(d: Date)
    requires ValidMonth(d)
    ensures DaysFromCivil(d) == MonthStart(MonthIndex(d)) + d.day - 1
  {
    QuotientOf(MonthIndex(d), 12, d.year, d.month - 1);
    DaysFromCivilLinear(d);
  }

  /** Each month is as long as DaysInMonth says. */
  lemma MonthStartStep(i: int)
    ensures MonthStart(i + 1) == MonthStart(i) + DaysInMonth(i / 12, i % 12 + 1)
  {
    var d := Date(i / 12, i % 12 + 1, 1);
    NextMonthStart(d);
    var n := AddMonths(d, 1);
    assert MonthIndex(n) == i + 1;
    DaysFromMonthStart(n);
  }

  /** Month starts are at least 28 days apart per month. */
  lemma {:induction false} MonthStartIncreasing(i: int, j: int)
    requires i <= j
    ensures MonthStart(i) + 28 * (j - i) <= MonthStart(j)
    decreases j - i
  {
    if i < j {
      MonthStartIncreasing(i, j - 1);
      MonthStartStep(j - 1);
    }
  }

  /** A day past the end of its month is the day that many days into the next month. */
  lemma DayPastMonthEnd(d: Date)
    requires ValidMonth(d) && d.day > DaysInMonth(d.year, d.month)
    ensures var n := AddMonths(d, 1);
            DaysFromCivil(d) == DaysFromCivil(Date(n.year, n.month, d.day - DaysInMonth(d.year, d.month)))
  {
    var n := AddMonths(d, 1);
    DaysFromCivilLinear(d);
    NextMonthStart(d);
    DaysFromCivilLinear(Date(n.year, n.month, d.day - DaysInMonth(d.year, d.month)));
  }

  /** Every day of a real date's month comes before the first of the next month. */
  lemma BeforeNextMonth(a: Date)
    requires Ok(a)
    ensures DaysFromCivil(a) < MonthStart(MonthIndex(a) + 1)
  {
    var n := AddMonths(a, 1);
    assert MonthStart(MonthIndex(a) + 1) == DaysFromCivil(Date(n.year, n.month, 1));
    NextMonthStart(a);
    DaysFromCivilLinear(a);
  }

  /** A day of an earlier month of a real date comes before any day of a later month. */
  lemma EarlierMonthEarlierDay(a: Date, b: Date)
    requires Ok(a) && ValidMonth(b) && b.day >= 1
    requires MonthIndex(a) < MonthIndex(b)
    ensures DaysFromCivil(a) < DaysFromCivil(b)
  {
    BeforeNextMonth(a);
    MonthStartIncreasing(MonthIndex(a) + 1, MonthIndex(b));
    DaysFromMonthStart(b);
  }

  /** On real dates, year_month_day's order is the order of their day numbers. */
  lemma OkOrder(a: Date, b: Date)
    requires Ok(a) && Ok(b)
    ensures LessEq(a, b) <==> DaysFromCivil(a) <= DaysFromCivil(b)
  {
    LessEqByMonthIndex(a, b);
    if MonthIndex(a) < MonthIndex(b) {
      EarlierMonthEarlierDay(a, b);
    } else if MonthIndex(b) < MonthIndex(a) {
      EarlierMonthEarlierDay(b, a);
    } else {
      DaysFromMonthStart(a);
      DaysFromMonthStart(b);
    }
  }

  /** Adding months twice adds their sum. */
  lemma AddMonthsAdd(d: Date, a: int, b: int)
    requires ValidMonth(d)
    ensures AddMonths(AddMonths(d, a), b) == AddMonths(d, a + b)
  {
  }

  /** Moving a date by whole months with its day kept moves its day number at least 28 days per month. */
  lemma AddMonthsMoves(d: Date, n: int)
    requires ValidMonth(d)
    ensures n > 0 ==> DaysFromCivil(AddMonths(d, n)) >= DaysFromCivil(d) + 28 * n
    ensures n < 0 ==> DaysFromCivil(AddMonths(d, n)) <= DaysFromCivil(d) + 28 * n
  {
    var r := AddMonths(d, n);
    DaysFromMonthStart(d);
    DaysFromMonthStart(r);
    if n > 0 {
      MonthStartIncreasing(MonthIndex(d), MonthIndex(r));
    } else if n < 0 {
      MonthStartIncreasing(MonthIndex(r), MonthIndex(d));
    }
  }
}
