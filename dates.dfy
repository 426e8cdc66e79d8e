// Python's datetime.date as the reservation daemon uses it: a day number
// (the proleptic Gregorian ordinal of date.toordinal, 1 is 1 January of
// year 1), its calendar fields, and the arithmetic and comparison the daemon
// applies, which on ordinals are those of integers.

module Dates {
  import opened Common

  /** MINYEAR and MAXYEAR of the datetime module. */
  const MIN_YEAR := 1
  const MAX_YEAR := 9999

  /** date(9999, 12, 31).toordinal(). */
  const MAX_ORDINAL := 3652059

  /** A day the date type can hold. */
  type Day = o: int | 1 <= o <= MAX_ORDINAL witness 1

  predicate IsLeap(y: int)
  {
    y % 4 == 0 && (y % 100 != 0 || y % 400 == 0)
  }

  function DaysInYear(y: int): int
  {
    if IsLeap(y) then 366 else 365
  }

  function DaysInMonth(y: int, m: int): int
    requires 1 <= m <= 12
  {
    if m == 2 then (if IsLeap(y) then 29 else 28)
    else if m == 4 || m == 6 || m == 9 || m == 11 then 30
    else 31
  }

  /** The days of the years before year y (_days_before_year). */
  function DaysBeforeYear(y: int): int
  {
    var x := y - 1;
    365 * x + x / 4 - x / 100 + x / 400
  }

  /** The days of the months of year y before month m. */
  function DaysBeforeMonth(y: int, m: int): int
    requires 1 <= m <= 13
    decreases m
  {
    if m == 1 then 0 else DaysBeforeMonth(y, m - 1) + DaysInMonth(y, m - 1)
  }

  /** Each of the leap-year divisions steps by one exactly at the multiples. */
  lemma DivStep(y: int)
    ensures y / 4 == (y - 1) / 4 + (if y % 4 == 0 then 1 else 0)
    ensures y / 100 == (y - 1) / 100 + (if y % 100 == 0 then 1 else 0)
    ensures y / 400 == (y - 1) / 400 + (if y % 400 == 0 then 1 else 0)
  {
  }

  /** Consecutive years are a year's length apart. */
  lemma DaysBeforeYearStep(y: int)
    ensures DaysBeforeYear(y + 1) == DaysBeforeYear(y) + DaysInYear(y)
  {
    DivStep(y);
  }

  /** The twelve months make up the year. */
  lemma DaysBeforeMonthYear(y: int)
    ensures DaysBeforeMonth(y, 13) == DaysInYear(y)
  {
  }

  /** The checks of the date(year, month, day) constructor, which raises ValueError on the rest. */
  predicate ValidDate(y: int, m: int, d: int)
  {
    MIN_YEAR <= y <= MAX_YEAR && 1 <= m <= 12 && 1 <= d <= DaysInMonth(y, m)
  }

  /** The calendar fields of a day. */
  datatype Civil = Civil(year: int, month: int, day: int)

  /** date(y, m, d).toordinal(). */
  function ToOrdinal(y: int, m: int, d: int): int
    requires 1 <= m <= 12
  {
    DaysBeforeYear(y) + DaysBeforeMonth(y, m) + d
  }

  /** The year holding day o, searched upwards from year y. */
  function YearFrom(o: int, y: int): (r: int)
    requires DaysBeforeYear(y) < o
    ensures y <= r
    ensures DaysBeforeYear(r) < o <= DaysBeforeYear(r + 1)
    decreases o - DaysBeforeYear(y)
  {
    DaysBeforeYearStep(y);
    if o <= DaysBeforeYear(y + 1) then y else YearFrom(o, y + 1)
  }

  /** The month and day of day number n of year y, searched from month m on. */
  function MonthFrom(n: int, y: int, m: int): (r: Civil)
    requires 1 <= m <= 12
    requires 1 <= n <= DaysBeforeMonth(y, 13) - DaysBeforeMonth(y, m)
    ensures r.year == y && m <= r.month <= 12 && 1 <= r.day <= DaysInMonth(y, r.month)
    ensures DaysBeforeMonth(y, r.month) + r.day == DaysBeforeMonth(y, m) + n
    decreases 12 - m
  {
    if n <= DaysInMonth(y, m) || m == 12 then Civil(y, m, n)
    else MonthFrom(n - DaysInMonth(y, m), y, m + 1)
  }

  /** date.fromordinal(o): the calendar fields of a day. */
  function FromOrdinal(o: Day): (r: Civil)
    ensures ValidDate(r.year, r.month, r.day)
  {
    var y := YearFrom(o, 1);
    DaysBeforeMonthYear(y);
    DaysBeforeYearStep(y);
    YearInRange(o);
    MonthFrom(o - DaysBeforeYear(y), y, 1)
  }

  /** Every day falls in one of the years 1 to 9999. */
  lemma YearInRange(o: Day)
    ensures MIN_YEAR <= YearFrom(o, 1) <= MAX_YEAR
  {
    var y := YearFrom(o, 1);
    assert DaysBeforeYear(MAX_YEAR + 1) == MAX_ORDINAL;
    if y > MAX_YEAR {
      YearsIncrease(MAX_YEAR + 1, y);
    }
  }

  /** Later years start later. */
  lemma {:induction false} YearsIncrease(a: int, b: int)
    requires a <= b
    ensures DaysBeforeYear(a) <= DaysBeforeYear(b)
    decreases b - a
  {
    if a < b {
      DaysBeforeYearStep(b - 1);
      YearsIncrease(a, b - 1);
    }
  }

  /** fromordinal and toordinal are inverse on every day. */
  lemma ToFromOrdinal(o: Day)
    ensures var c := FromOrdinal(o); ToOrdinal(c.year, c.month, c.day) == o
  {
  }

  /** ... and on every valid date the other way round. */
  lemma FromToOrdinal(y: int, m: int, d: int)
    requires ValidDate(y, m, d)
    ensures 1 <= ToOrdinal(y, m, d) <= MAX_ORDINAL
    ensures FromOrdinal(ToOrdinal(y, m, d)) == Civil(y, m, d)
  {
    var o := ToOrdinal(y, m, d);
    OrdinalInYear(y, m, d);
    YearsIncrease(1, y);
    YearsIncrease(y + 1, MAX_YEAR + 1);
    assert DaysBeforeYear(1) == 0 && DaysBeforeYear(MAX_YEAR + 1) == MAX_ORDINAL;
    var c := FromOrdinal(o);
    YearUnique(o, y, c.year);
    MonthUnique(y, m, d, c.month, c.day);
  }

  /** The day of a valid date lies within its year. */
  lemma OrdinalInYear(y: int, m: int, d: int)
    requires ValidDate(y, m, d)
    ensures DaysBeforeYear(y) < ToOrdinal(y, m, d) <= DaysBeforeYear(y + 1)
  {
    MonthsIncrease(y, m + 1, 13);
    DaysBeforeMonthYear(y);
    DaysBeforeYearStep(y);
  }

  /** Later months start later. */
  lemma {:induction false} MonthsIncrease(y: int, a: int, b: int)
    requires 1 <= a <= b <= 13
    ensures DaysBeforeMonth(y, a) <= DaysBeforeMonth(y, b)
    decreases b - a
  {
    if a < b {
      MonthsIncrease(y, a, b - 1);
    }
  }

  /** A day lies in one year only. */
  lemma YearUnique(o: int, a: int, b: int)
    requires DaysBeforeYear(a) < o <= DaysBeforeYear(a + 1)
    requires DaysBeforeYear(b) < o <= DaysBeforeYear(b + 1)
    ensures a == b
  {
    if a < b {
      YearsIncrease(a + 1, b);
    } else if b < a {
      YearsIncrease(b + 1, a);
    }
  }

  /** A day of the year lies in one month only. */
  lemma MonthUnique(y: int, m1: int, d1: int, m2: int, d2: int)
    requires 1 <= m1 <= 12 && 1 <= d1 <= DaysInMonth(y, m1)
    requires 1 <= m2 <= 12 && 1 <= d2 <= DaysInMonth(y, m2)
    requires DaysBeforeMonth(y, m1) + d1 == DaysBeforeMonth(y, m2) + d2
    ensures m1 == m2 && d1 == d2
  {
    if m1 < m2 {
      MonthsIncrease(y, m1 + 1, m2);
    } else if m2 < m1 {
      MonthsIncrease(y, m2 + 1, m1);
    }
  }

  /**
   * date + timedelta(days=n): the day n days on, or None for the
   * OverflowError raised when it falls outside the years 1 to 9999.
   */
  function AddDays(o: Day, n: int): (r: Option<Day>)
    ensures r.Some? <==> 1 <= o + n <= MAX_ORDINAL
    ensures r.Some? ==> r.value - o == n
  {
    if 1 <= o + n <= MAX_ORDINAL then Some(o + n) else None
  }
}
