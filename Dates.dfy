/**
 * Calendar dates as Python's `datetime.date` sees them: the proleptic
 * Gregorian calendar, years 1 through 9999, and the day ordinal that date
 * subtraction is computed from (1 January of year 1 has ordinal 1).
 */
module Dates {
  import opened Wrappers

  datatype Date = Date(year: int, month: int, day: int)

  const MinYear: int := 1
  const MaxYear: int := 9999

  predicate IsLeap(y: int) {
    y % 4 == 0 && (y % 100 != 0 || y % 400 == 0)
  }

  function DaysInYear(y: int): int {
    if IsLeap(y) then 366 else 365
  }

  function DaysInMonth(y: int, m: int): int
    requires 1 <= m <= 12
  {
    if m == 2 then (if IsLeap(y) then 29 else 28)
    else if m == 4 || m == 6 || m == 9 || m == 11 then 30
    else 31
  }

  /** The dates `datetime.date(year, month, day)` accepts without raising. */
  predicate Valid(d: Date) {
    MinYear <= d.year <= MaxYear && 1 <= d.month <= 12 && 1 <= d.day <= DaysInMonth(d.year, d.month)
  }

  /** The constructor `datetime.date(year, month, day)`; None stands for its ValueError. */
  function MakeDate(year: int, month: int, day: int): Option<Date> {
    if Valid(Date(year, month, day)) then Some(Date(year, month, day)) else None
  }

  /** Days in the years before `y`, in closed form, as the library computes it. */
  function DaysBeforeYear(y: int): int
    requires y >= 1
  {
    var p := y - 1;
    p * 365 + p / 4 - p / 100 + p / 400
  }

  /** Reference for DaysBeforeYear: the lengths of years 1 .. y-1 added up one by one. */
  function YearsTotal(y: int): int
    requires y >= 1
    decreases y
  {
    if y == 1 then 0 else YearsTotal(y - 1) + DaysInYear(y - 1)
  }

  /** Days in the months of year `y` before month `m`, by the library's cumulative table. */
  function DaysBeforeMonth(y: int, m: int): int
    requires 1 <= m <= 12
  {
    var table := [0, 31, 59, 90, 120, 151, 181, 212, 243, 273, 304, 334];
    table[m - 1] + (if m > 2 && IsLeap(y) then 1 else 0)
  }

  /** Reference for DaysBeforeMonth: the lengths of months 1 .. m-1 added up one by one. */
  function MonthsTotal(y: int, m: int): int
    requires 1 <= m <= 12
    decreases m
  {
    if m == 1 then 0 else MonthsTotal(y, m - 1) + DaysInMonth(y, m - 1)
  }

  /** `date.toordinal()`. */
  function Ordinal(d: Date): int
    requires Valid(d)
  {
    DaysBeforeYear(d.year) + DaysBeforeMonth(d.year, d.month) + d.day
  }

  /** `(today - d).days`: how many days old a snapshot dated `d` is; negative for a future date. */
  function AgeDays(today: Date, d: Date): int
    requires Valid(today) && Valid(d)
  {
    Ordinal(today) - Ordinal(d)
  }

  /** Strict chronological order of dates, read off their fields. */
  predicate Before(a: Date, b: Date) {
    a.year < b.year
    || (a.year == b.year && a.month < b.month)
    || (a.year == b.year && a.month == b.month && a.day < b.day)
  }

  /** The calendar day after `d`. */
  function Next(d: Date): Date
    requires Valid(d)
  {
    if d.day < DaysInMonth(d.year, d.month) then Date(d.year, d.month, d.day + 1)
    else if d.month < 12 then Date(d.year, d.month + 1, 1)
    else Date(d.year + 1, 1, 1)
  }

  lemma CenturyDivisibility(p: int)
    ensures p % 400 == 0 ==> p % 100 == 0
    ensures p % 100 == 0 ==> p % 4 == 0
  {
    if p % 400 == 0 {
      QuadricentennialIsCentury(p / 400, p);
    }
    if p % 100 == 0 {
      CenturyIsLeapCandidate(p / 100, p);
    }
  }

  lemma QuadricentennialIsCentury(k: int, p: int)
    requires p == 400 * k
    ensures p % 100 == 0
  {
    assert p == 100 * (4 * k) + 0;
  }

  lemma CenturyIsLeapCandidate(k: int, p: int)
    requires p == 100 * k
    ensures p % 4 == 0
  {
    assert p == 4 * (25 * k) + 0;
  }

  lemma QuadrennialStep(y: int)
    ensures y / 4 - (y - 1) / 4 == if y % 4 == 0 then 1 else 0
  {
    var q, r := (y - 1) / 4, (y - 1) % 4;
    if r == 3 { assert y == 4 * (q + 1); } else { assert y == 4 * q + (r + 1); }
  }

  lemma CenturyStep(y: int)
    ensures y / 100 - (y - 1) / 100 == if y % 100 == 0 then 1 else 0
  {
    var q, r := (y - 1) / 100, (y - 1) % 100;
    if r == 99 { assert y == 100 * (q + 1); } else { assert y == 100 * q + (r + 1); }
  }

  lemma QuadricentennialStep(y: int)
    ensures y / 400 - (y - 1) / 400 == if y % 400 == 0 then 1 else 0
  {
    var q, r := (y - 1) / 400, (y - 1) % 400;
    if r == 399 { assert y == 400 * (q + 1); } else { assert y == 400 * q + (r + 1); }
  }

  /** Going from one year to the next adds exactly that year's length. */
  lemma DaysBeforeNextYear(y: int)
    requires y >= 1
    ensures DaysBeforeYear(y + 1) == DaysBeforeYear(y) + DaysInYear(y)
  {
    CenturyDivisibility(y);
    QuadrennialStep(y);
    CenturyStep(y);
    QuadricentennialStep(y);
  }

  /** The closed form counts the same days as adding up the year lengths. */
  lemma {:induction false} DaysBeforeYearIsTotal(y: int)
    requires y >= 1
    ensures DaysBeforeYear(y) == YearsTotal(y)
    decreases y
  {
    if y > 1 {
      DaysBeforeYearIsTotal(y - 1);
      DaysBeforeNextYear(y - 1);
    }
  }

  /** The cumulative month table agrees with adding up the month lengths. */
  lemma {:induction false} DaysBeforeMonthIsTotal(y: int, m: int)
    requires 1 <= m <= 12
    ensures DaysBeforeMonth(y, m) == MonthsTotal(y, m)
    decreases m
  {
    if m > 1 {
      DaysBeforeMonthIsTotal(y, m - 1);
    }
  }

  /** Each month starts where the previous one ends, and December ends with the year. */
  lemma MonthBoundaries(y: int, m: int)
    requires 1 <= m <= 12
    ensures m < 12 ==> DaysBeforeMonth(y, m + 1) == DaysBeforeMonth(y, m) + DaysInMonth(y, m)
    ensures m == 12 ==> DaysBeforeMonth(y, m) + DaysInMonth(y, m) == DaysInYear(y)
  {
    if m < 12 {
      DaysBeforeMonthIsTotal(y, m);
      DaysBeforeMonthIsTotal(y, m + 1);
    }
  }

  /** The successor of a valid date is the date whose ordinal is one larger. */
  lemma NextIsOneDayLater(d: Date)
    requires Valid(d) && d != Date(MaxYear, 12, 31)
    ensures Valid(Next(d))
    ensures Ordinal(Next(d)) == Ordinal(d) + 1
    ensures Before(d, Next(d))
  {
    MonthBoundaries(d.year, d.month);
    if d.day == DaysInMonth(d.year, d.month) && d.month == 12 {
      DaysBeforeNextYear(d.year);
    }
  }

  lemma {:induction false} DaysBeforeYearMonotone(a: int, b: int)
    requires 1 <= a <= b
    ensures DaysBeforeYear(a) + (b - a) * 365 <= DaysBeforeYear(b)
    decreases b - a
  {
    if a < b {
      DaysBeforeYearMonotone(a, b - 1);
      DaysBeforeNextYear(b - 1);
    }
  }

  lemma {:induction false} DaysBeforeMonthMonotone(y: int, a: int, b: int)
    requires 1 <= a < b <= 12
    ensures DaysBeforeMonth(y, a) + DaysInMonth(y, a) <= DaysBeforeMonth(y, b)
    decreases b - a
  {
    MonthBoundaries(y, a);
    if a + 1 < b {
      DaysBeforeMonthMonotone(y, a + 1, b);
    }
  }

  /** A date falls within its year: its ordinal lies between the year's first and last day. */
  lemma OrdinalWithinYear(d: Date)
    requires Valid(d)
    ensures DaysBeforeYear(d.year) < Ordinal(d) <= DaysBeforeYear(d.year) + DaysInYear(d.year)
  {
    MonthBoundaries(d.year, 12);
    if d.month < 12 {
      DaysBeforeMonthMonotone(d.year, d.month, 12);
    }
  }

  /** Ordinals follow the calendar order: an earlier date has a smaller ordinal. */
  lemma OrdinalOrder(a: Date, b: Date)
    requires Valid(a) && Valid(b) && Before(a, b)
    ensures Ordinal(a) < Ordinal(b)
  {
    if a.year < b.year {
      OrdinalWithinYear(a);
      OrdinalWithinYear(b);
      DaysBeforeNextYear(a.year);
      DaysBeforeYearMonotone(a.year + 1, b.year);
    } else if a.month < b.month {
      DaysBeforeMonthMonotone(a.year, a.month, b.month);
    }
  }

  /**
   * The age of a snapshot is positive exactly for a date before today, zero
   * exactly for today and negative exactly for a date after today.
   */
  lemma AgeSign(today: Date, d: Date)
    requires Valid(today) && Valid(d)
    ensures AgeDays(today, d) > 0 <==> Before(d, today)
    ensures AgeDays(today, d) == 0 <==> d == today
    ensures AgeDays(today, d) < 0 <==> Before(today, d)
  {
    if Before(d, today) {
      OrdinalOrder(d, today);
    } else if Before(today, d) {
      OrdinalOrder(today, d);
    }
  }

  /** A snapshot one calendar day older is exactly one day older in age. */
  lemma AgeOfPreviousDay(today: Date, d: Date)
    requires Valid(today) && Valid(d) && d != Date(MaxYear, 12, 31)
    ensures Valid(Next(d))
    ensures AgeDays(today, d) == AgeDays(today, Next(d)) + 1
  {
    NextIsOneDayLater(d);
  }
}
