/**
 * Proleptic Gregorian calendar dates, as the `Date` objects of the front end
 * expose them through getFullYear / getMonth()+1 / getDate. Day arithmetic
 * (`setDate(getDate() - 1)`) is PrevDay / NextDay / AddDays, proved against a
 * day number that counts days from 0001-01-01 (day 1, a Monday).
 */
module CivilDates {

  datatype CivilDate = CivilDate(year: int, month: int, day: int)

  predicate IsLeapYear(y: int) {
    y % 4 == 0 && (y % 100 != 0 || y % 400 == 0)
  }

  function DaysInMonth(y: int, m: int): (n: int)
    requires 1 <= m <= 12
    ensures 28 <= n <= 31
    ensures m == 2 ==> (n == 29 <==> IsLeapYear(y))
  {
    if m == 2 then (if IsLeapYear(y) then 29 else 28)
    else if m == 4 || m == 6 || m == 9 || m == 11 then 30
    else 31
  }

  function DaysInYear(y: int): int {
    if IsLeapYear(y) then 366 else 365
  }

  predicate Valid(d: CivilDate) {
    1 <= d.month <= 12 && 1 <= d.day <= DaysInMonth(d.year, d.month)
  }

  /** A date that exists on the calendar; every parsed `Date` is one. */
  type Date = d: CivilDate | Valid(d) witness CivilDate(1970, 1, 1)

  /** Lexicographic (year, month, day) order. */
  predicate Before(a: CivilDate, b: CivilDate) {
    a.year < b.year
    || (a.year == b.year && a.month < b.month)
    || (a.year == b.year && a.month == b.month && a.day < b.day)
  }

  /** The calendar day before `d`: month and year wrap, February has 28 or 29 days. */
  function PrevDay(d: Date): (p: Date)
    ensures Before(p, d)
  {
    if d.day > 1 then CivilDate(d.year, d.month, d.day - 1)
    else if d.month > 1 then CivilDate(d.year, d.month - 1, DaysInMonth(d.year, d.month - 1))
    else CivilDate(d.year - 1, 12, 31)
  }

  /** The calendar day after `d`. */
  function NextDay(d: Date): (n: Date)
    ensures Before(d, n)
  {
    if d.day < DaysInMonth(d.year, d.month) then CivilDate(d.year, d.month, d.day + 1)
    else if d.month < 12 then CivilDate(d.year, d.month + 1, 1)
    else CivilDate(d.year + 1, 1, 1)
  }

  /** Days in the years before `y` (floor division, so it holds for every integer year). */
  function DaysBeforeYear(y: int): int {
    var p := y - 1;
    365 * p + p / 4 - p / 100 + p / 400
  }

  function DaysBeforeMonth(y: int, m: int): (n: int)
    requires 1 <= m <= 12
    ensures 0 <= n
  {
    if m == 1 then 0 else DaysBeforeMonth(y, m - 1) + DaysInMonth(y, m - 1)
  }

  /** The number of `d` counted from 0001-01-01 = 1. */
  function DayNumber(d: Date): int {
    DaysBeforeYear(d.year) + DaysBeforeMonth(d.year, d.month) + d.day
  }

  /** `d` shifted by `n` days, one day at a time, as `setDate(getDate() + n)` does. */
  function AddDays(d: Date, n: int): (r: Date)
    decreases if n < 0 then -n else n
  {
    if n == 0 then d
    else if n > 0 then AddDays(NextDay(d), n - 1)
    else AddDays(PrevDay(d), n + 1)
  }

  /** Day of the week, 0 = Sunday … 6 = Saturday, as `Date.getDay()` numbers them. */
  function Weekday(d: Date): (w: int)
    ensures 0 <= w < 7
  {
    DayNumber(d) % 7
  }

  // ----- Proofs -----

  /** Euclidean division by the divisors the calendar uses is determined by its defining equation. */
  lemma DivModUnique(y: int, k: int, q: int, r: int)
    requires k == 4 || k == 7 || k == 100 || k == 400
    requires y == k * q + r && 0 <= r < k
    ensures y / k == q && y % k == r
  {
    if k == 4 {
      assert y == 4 * (y / 4) + y % 4;
    } else if k == 7 {
      assert y == 7 * (y / 7) + y % 7;
    } else if k == 100 {
      assert y == 100 * (y / 100) + y % 100;
    } else {
      assert y == 400 * (y / 400) + y % 400;
    }
  }

  lemma StepOfFloorDiv(y: int, k: int)
    requires k == 4 || k == 100 || k == 400
    ensures y / k - (y - 1) / k == if y % k == 0 then 1 else 0
  {
    var q, r := (y - 1) / k, (y - 1) % k;
    if r == k - 1 {
      DivModUnique(y, k, q + 1, 0);
    } else {
      DivModUnique(y, k, q, r + 1);
    }
  }

  lemma YearLength(y: int)
    ensures DaysBeforeYear(y + 1) == DaysBeforeYear(y) + DaysInYear(y)
  {
    StepOfFloorDiv(y, 4);
    StepOfFloorDiv(y, 100);
    StepOfFloorDiv(y, 400);
  }

  lemma MonthsOfYear(y: int)
    ensures DaysBeforeMonth(y, 12) + 31 == DaysInYear(y)
  {
    var feb := DaysInMonth(y, 2);
    assert DaysBeforeMonth(y, 2) == 31;
    assert DaysBeforeMonth(y, 3) == 31 + feb;
    assert DaysBeforeMonth(y, 4) == 62 + feb;
    assert DaysBeforeMonth(y, 5) == 92 + feb;
    assert DaysBeforeMonth(y, 6) == 123 + feb;
    assert DaysBeforeMonth(y, 7) == 153 + feb;
    assert DaysBeforeMonth(y, 8) == 184 + feb;
    assert DaysBeforeMonth(y, 9) == 215 + feb;
    assert DaysBeforeMonth(y, 10) == 245 + feb;
    assert DaysBeforeMonth(y, 11) == 276 + feb;
    assert DaysBeforeMonth(y, 12) == 306 + feb;
  }

  /** Going back one day lowers the day number by exactly one. */
  lemma {:induction false} PrevDayNumber(d: Date)
    ensures DayNumber(PrevDay(d)) == DayNumber(d) - 1
  {
    if d.day == 1 && d.month == 1 {
      YearLength(d.year - 1);
      MonthsOfYear(d.year - 1);
    }
  }

  /** Going forward one day raises the day number by exactly one. */
  lemma {:induction false} NextDayNumber(d: Date)
    ensures DayNumber(NextDay(d)) == DayNumber(d) + 1
  {
    if d.day == DaysInMonth(d.year, d.month) && d.month == 12 {
      YearLength(d.year);
      MonthsOfYear(d.year);
    }
  }

  lemma {:induction false} AddDaysNumber(d: Date, n: int)
    ensures DayNumber(AddDays(d, n)) == DayNumber(d) + n
    decreases if n < 0 then -n else n
  {
    if n > 0 {
      NextDayNumber(d);
      AddDaysNumber(NextDay(d), n - 1);
    } else if n < 0 {
      PrevDayNumber(d);
      AddDaysNumber(PrevDay(d), n + 1);
    }
  }

  lemma {:induction false} DaysBeforeMonthBound(y: int, m: int)
    requires 1 <= m <= 12
    ensures DaysBeforeMonth(y, m) + DaysInMonth(y, m) <= DaysInYear(y)
    decreases 12 - m
  {
    if m < 12 {
      DaysBeforeMonthBound(y, m + 1);
    } else {
      MonthsOfYear(y);
    }
  }

  lemma {:induction false} DaysBeforeYearMonotone(a: int, b: int)
    requires a <= b
    ensures DaysBeforeYear(a) <= DaysBeforeYear(b)
    decreases b - a
  {
    if a < b {
      YearLength(a);
      DaysBeforeYearMonotone(a + 1, b);
    }
  }

  lemma {:induction false} DaysBeforeMonthMonotone(y: int, a: int, b: int)
    requires 1 <= a < b <= 12
    ensures DaysBeforeMonth(y, a) + DaysInMonth(y, a) <= DaysBeforeMonth(y, b)
    decreases b - a
  {
    if a + 1 < b {
      DaysBeforeMonthMonotone(y, a + 1, b);
    }
  }

  /** The day number follows calendar order; in particular it tells dates apart. */
  lemma DayNumberOrder(a: Date, b: Date)
    ensures Before(a, b) <==> DayNumber(a) < DayNumber(b)
  {
    EarlierHasSmallerNumber(a, b);
    EarlierHasSmallerNumber(b, a);
  }

  lemma EarlierHasSmallerNumber(a: Date, b: Date)
    ensures Before(a, b) ==> DayNumber(a) < DayNumber(b)
  {
    if a.year < b.year {
      DaysBeforeMonthBound(a.year, a.month);
      YearLength(a.year);
      DaysBeforeYearMonotone(a.year + 1, b.year);
    } else if a.year == b.year && a.month < b.month {
      DaysBeforeMonthMonotone(a.year, a.month, b.month);
    }
  }

  lemma DayNumberInjective(a: Date, b: Date)
    ensures DayNumber(a) == DayNumber(b) <==> a == b
  {
    EarlierHasSmallerNumber(a, b);
    EarlierHasSmallerNumber(b, a);
  }

  lemma PrevNextInverse(d: Date)
    ensures PrevDay(NextDay(d)) == d && NextDay(PrevDay(d)) == d
  {
    NextDayNumber(d);
    PrevDayNumber(NextDay(d));
    DayNumberInjective(PrevDay(NextDay(d)), d);
    PrevDayNumber(d);
    NextDayNumber(PrevDay(d));
    DayNumberInjective(NextDay(PrevDay(d)), d);
  }

  lemma WeekdayOfNextDay(d: Date)
    ensures Weekday(NextDay(d)) == (Weekday(d) + 1) % 7
  {
    NextDayNumber(d);
    WeekStep(DayNumber(d));
  }

  /** One more day is one more weekday, modulo 7. */
  lemma WeekStep(n: int)
    ensures (n + 1) % 7 == (n % 7 + 1) % 7
  {
    var q, r := n / 7, n % 7;
    if r == 6 {
      DivModUnique(n + 1, 7, q + 1, 0);
    } else {
      DivModUnique(n + 1, 7, q, r + 1);
    }
  }

}
