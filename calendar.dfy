/**
 * Calendar arithmetic the date picker popup relies on: the proleptic Gregorian
 * leap-year rule, the length of a month, a consecutive numbering of days, and the
 * day, month and year steps of the popup's arrow buttons and combo boxes, with
 * their carry into the next larger unit and their end-of-month clamp.
 */
module Calendar {

  /** A (year, month, day) triple; months and days are unsigned, as in the popup state. */
  datatype Date = Date(year: int, month: nat, day: nat)

  /** Proleptic Gregorian rule: divisible by 4, except centuries, unless divisible by 400. */
  predicate IsLeapYear(y: int) {
    y % 4 == 0 && (y % 100 != 0 || y % 400 == 0)
  }

  /**
   * Number of days of year y before the first day of month m; m == 13 gives the
   * whole year. A common year's cumulative table, plus the leap day after February.
   */
  function DaysBeforeMonth(y: int, m: nat): nat
    requires 1 <= m <= 13
  {
    var common := [0, 31, 59, 90, 120, 151, 181, 212, 243, 273, 304, 334, 365][m - 1];
    if m > 2 && IsLeapYear(y) then common + 1 else common
  }

  /** A real calendar date: its day falls inside its month's slice of the year. */
  predicate IsDate(d: Date) {
    1 <= d.month <= 12 && 1 <= d.day &&
    DaysBeforeMonth(d.year, d.month) + d.day <= DaysBeforeMonth(d.year, d.month + 1)
  }

  /** Length of month `month` of year `year`: the largest valid day of that month. */
  function LastDayOfMonth(year: int, month: nat): (r: nat)
    requires 1 <= month <= 12
    ensures 28 <= r <= 31
    ensures r == 29 <==> month == 2 && IsLeapYear(year)
    ensures r == 28 <==> month == 2 && !IsLeapYear(year)
    ensures r == 30 <==> month in {4, 6, 9, 11}
    ensures forall d: nat :: IsDate(Date(year, month, d)) <==> 1 <= d <= r
  {
    if month == 2 then (if IsLeapYear(year) then 29 else 28)
    else if month == 4 || month == 6 || month == 9 || month == 11 then 30
    else 31
  }

  /**
   * The month length found by probing, as the popup does: the first of the days
   * 31, 30 and 29 that exists in the month, or else 28.
   */
  function ProbedLastDay(year: int, month: nat): nat
    requires 1 <= month <= 12
  {
    if IsDate(Date(year, month, 31)) then 31
    else if IsDate(Date(year, month, 30)) then 30
    else if IsDate(Date(year, month, 29)) then 29
    else 28
  }

  /** Probing for the last day and the Gregorian rule agree on every month. */
  lemma ProbeAgreesWithRule(year: int, month: nat)
    requires 1 <= month <= 12
    ensures ProbedLastDay(year, month) == LastDayOfMonth(year, month)
  {
  }

  /** A month's slice of the year is exactly as long as the month. */
  lemma MonthSpan(y: int, m: nat)
    requires 1 <= m <= 12
    ensures DaysBeforeMonth(y, m + 1) == DaysBeforeMonth(y, m) + LastDayOfMonth(y, m)
  {
    var r := LastDayOfMonth(y, m);
    assert IsDate(Date(y, m, r));
    assert !IsDate(Date(y, m, r + 1));
  }

  /** Later months start later in the year. */
  lemma {:induction false} DaysBeforeMonotone(y: int, a: nat, b: nat)
    requires 1 <= a < b <= 13
    ensures DaysBeforeMonth(y, a) + LastDayOfMonth(y, a) <= DaysBeforeMonth(y, b)
    decreases b - a
  {
    MonthSpan(y, a);
    if a + 1 < b {
      DaysBeforeMonotone(y, a + 1, b);
    }
  }

  /** Number of days in year y. */
  function YearLength(y: int): (r: nat)
    ensures r == (if IsLeapYear(y) then 366 else 365)
  {
    DaysBeforeMonth(y, 13)
  }

  /** Total length of months 1 to k of year y. */
  function SumMonths(y: int, k: nat): nat
    requires k <= 12
  {
    if k == 0 then 0 else SumMonths(y, k - 1) + LastDayOfMonth(y, k)
  }

  /** Months 1 to k of year y fill exactly the days before month k + 1. */
  lemma {:induction false} SumIsDaysBefore(y: int, k: nat)
    requires k <= 12
    ensures SumMonths(y, k) == DaysBeforeMonth(y, k + 1)
  {
    if k > 0 {
      SumIsDaysBefore(y, k - 1);
      MonthSpan(y, k);
    }
  }

  /** The twelve month lengths add up to the year's length: 366 in a leap year, 365 otherwise. */
  lemma MonthLengthsAddUpToYear(y: int)
    ensures SumMonths(y, 12) == YearLength(y)
    ensures SumMonths(y, 12) == (if IsLeapYear(y) then 366 else 365)
  {
    SumIsDaysBefore(y, 12);
  }

  /** Number of the last day before year y, counting 1 January of year 1 as day 1. */
  function YearStart(y: int): int
    decreases if y < 1 then 1 - y else y - 1
  {
    if y == 1 then 0
    else if y > 1 then YearStart(y - 1) + YearLength(y - 1)
    else YearStart(y + 1) - YearLength(y)
  }

  /** Consecutive years occupy consecutive blocks of day numbers. */
  lemma YearStartStep(y: int)
    ensures YearStart(y + 1) == YearStart(y) + YearLength(y)
  {
  }

  /** A year's block of day numbers lies before every later year's block. */
  lemma {:induction false} YearStartMonotone(a: int, b: int)
    requires a < b
    ensures YearStart(a) + YearLength(a) <= YearStart(b)
    decreases b - a
  {
    YearStartStep(a);
    if a + 1 < b {
      YearStartMonotone(a + 1, b);
    }
  }

  /** Consecutive numbering of dates: 1 January of year 1 is day 1. */
  function DayNumber(d: Date): int
    requires IsDate(d)
  {
    YearStart(d.year) + DaysBeforeMonth(d.year, d.month) + d.day
  }

  /** A date's number lies inside its year's block. */
  lemma DayNumberWithinYear(d: Date)
    requires IsDate(d)
    ensures YearStart(d.year) < DayNumber(d) <= YearStart(d.year) + YearLength(d.year)
  {
    if d.month < 12 {
      DaysBeforeMonotone(d.year, d.month + 1, 13);
    }
  }

  /** Distinct dates have distinct numbers, so a date is determined by its number. */
  lemma DayNumberInjective(a: Date, b: Date)
    requires IsDate(a) && IsDate(b)
    ensures DayNumber(a) == DayNumber(b) <==> a == b
  {
    if DayNumber(a) == DayNumber(b) {
      DayNumberWithinYear(a);
      DayNumberWithinYear(b);
      if a.year < b.year {
        YearStartMonotone(a.year, b.year);
      } else if b.year < a.year {
        YearStartMonotone(b.year, a.year);
      }
      assert a.year == b.year;
      if a.month < b.month {
        DaysBeforeMonotone(a.year, a.month, b.month);
      } else if b.month < a.month {
        DaysBeforeMonotone(a.year, b.month, a.month);
      }
    }
  }

  /** The day after d: day 1 of the next month past the month's end, 1 January after 31 December. */
  function NextDay(d: Date): (r: Date)
    requires IsDate(d)
    ensures IsDate(r)
  {
    if d.day + 1 <= LastDayOfMonth(d.year, d.month) then Date(d.year, d.month, d.day + 1)
    else if d.month + 1 <= 12 then Date(d.year, d.month + 1, 1)
    else Date(d.year + 1, 1, 1)
  }

  /** The day before d: the last day of the previous month before day 1, 31 December before 1 January. */
  function PrevDay(d: Date): (r: Date)
    requires IsDate(d)
    ensures IsDate(r)
  {
    if d.day - 1 != 0 then Date(d.year, d.month, d.day - 1)
    else if d.month - 1 != 0 then Date(d.year, d.month - 1, LastDayOfMonth(d.year, d.month - 1))
    else Date(d.year - 1, 12, LastDayOfMonth(d.year - 1, 12))
  }

  /** NextDay moves to the date numbered one higher. */
  lemma NextDayIsSuccessor(d: Date)
    requires IsDate(d)
    ensures DayNumber(NextDay(d)) == DayNumber(d) + 1
  {
    MonthSpan(d.year, d.month);
    if d.month == 12 && d.day == LastDayOfMonth(d.year, 12) {
      YearStartStep(d.year);
    }
  }

  /** PrevDay moves to the date numbered one lower. */
  lemma PrevDayIsPredecessor(d: Date)
    requires IsDate(d)
    ensures DayNumber(PrevDay(d)) == DayNumber(d) - 1
  {
    if d.day == 1 {
      if d.month > 1 {
        MonthSpan(d.year, d.month - 1);
      } else {
        MonthSpan(d.year - 1, 12);
        YearStartStep(d.year - 1);
      }
    }
  }

  /** Stepping a day forward and a day back, in either order, returns to the same date. */
  lemma DayStepsInverse(d: Date)
    requires IsDate(d)
    ensures PrevDay(NextDay(d)) == d
    ensures NextDay(PrevDay(d)) == d
  {
    NextDayIsSuccessor(d);
    PrevDayIsPredecessor(NextDay(d));
    DayNumberInjective(PrevDay(NextDay(d)), d);
    PrevDayIsPredecessor(d);
    NextDayIsSuccessor(PrevDay(d));
    DayNumberInjective(NextDay(PrevDay(d)), d);
  }

  /** Consecutive numbering of months: month m of year y. */
  function MonthIndex(year: int, month: nat): int {
    12 * year + month - 1
  }

  /** The month after (year, month): January of the next year after December. */
  function NextMonth(year: int, month: nat): (r: (int, nat))
    requires 1 <= month <= 12
    ensures 1 <= r.1 <= 12
    ensures MonthIndex(r.0, r.1) == MonthIndex(year, month) + 1
  {
    if month + 1 > 12 then (year + 1, 1) else (year, month + 1)
  }

  /** The month before (year, month): December of the previous year before January. */
  function PrevMonth(year: int, month: nat): (r: (int, nat))
    requires 1 <= month <= 12
    ensures 1 <= r.1 <= 12
    ensures MonthIndex(r.0, r.1) == MonthIndex(year, month) - 1
  {
    if month - 1 == 0 then (year - 1, 12) else (year, month - 1)
  }

  /** A month in range is determined by its index, so NextMonth and PrevMonth are inverse. */
  lemma MonthStepsInverse(year: int, month: nat)
    requires 1 <= month <= 12
    ensures PrevMonth(NextMonth(year, month).0, NextMonth(year, month).1) == (year, month)
    ensures NextMonth(PrevMonth(year, month).0, PrevMonth(year, month).1) == (year, month)
  {
  }

  /**
   * The day kept when the year or the month changes under it: the largest day of
   * (year, month) that does not exceed `day`.
   */
  function ClampDay(day: nat, year: int, month: nat): (r: nat)
    requires 1 <= month <= 12 && 1 <= day
    ensures IsDate(Date(year, month, r)) && r <= day
    ensures forall d: nat :: r < d <= day ==> !IsDate(Date(year, month, d))
  {
    if day <= LastDayOfMonth(year, month) then day else LastDayOfMonth(year, month)
  }

  /** Clamping keeps a day that exists in the month and changes nothing when repeated. */
  lemma ClampKeepsValidDay(day: nat, year: int, month: nat)
    requires 1 <= month <= 12 && 1 <= day
    ensures ClampDay(day, year, month) == day <==> IsDate(Date(year, month, day))
    ensures ClampDay(ClampDay(day, year, month), year, month) == ClampDay(day, year, month)
  {
  }

  /** d moved to year `year`, keeping its month and clamping its day. */
  function WithYear(d: Date, year: int): (r: Date)
    requires IsDate(d)
    ensures IsDate(r)
  {
    Date(year, d.month, ClampDay(d.day, year, d.month))
  }

  /** d moved to month `month` of its year, clamping its day. */
  function WithMonth(d: Date, month: nat): (r: Date)
    requires IsDate(d) && 1 <= month <= 12
    ensures IsDate(r)
  {
    Date(d.year, month, ClampDay(d.day, d.year, month))
  }

  /** d moved one month forward, with the year carry and the day clamp. */
  function ShiftMonthForward(d: Date): (r: Date)
    requires IsDate(d)
    ensures IsDate(r)
  {
    var ym := NextMonth(d.year, d.month);
    Date(ym.0, ym.1, ClampDay(d.day, ym.0, ym.1))
  }

  /** d moved one month back, with the year borrow and the day clamp. */
  function ShiftMonthBack(d: Date): (r: Date)
    requires IsDate(d)
    ensures IsDate(r)
  {
    var ym := PrevMonth(d.year, d.month);
    Date(ym.0, ym.1, ClampDay(d.day, ym.0, ym.1))
  }

  /**
   * A month shift moves the month index by exactly one and keeps the day unless
   * the target month is too short, in which case the day becomes its last day.
   */
  lemma MonthShiftsMoveOneMonth(d: Date)
    requires IsDate(d)
    ensures MonthIndex(ShiftMonthForward(d).year, ShiftMonthForward(d).month) == MonthIndex(d.year, d.month) + 1
    ensures MonthIndex(ShiftMonthBack(d).year, ShiftMonthBack(d).month) == MonthIndex(d.year, d.month) - 1
    ensures ShiftMonthForward(d).day ==
            if d.day <= LastDayOfMonth(ShiftMonthForward(d).year, ShiftMonthForward(d).month) then d.day
            else LastDayOfMonth(ShiftMonthForward(d).year, ShiftMonthForward(d).month)
    ensures ShiftMonthBack(d).day ==
            if d.day <= LastDayOfMonth(ShiftMonthBack(d).year, ShiftMonthBack(d).month) then d.day
            else LastDayOfMonth(ShiftMonthBack(d).year, ShiftMonthBack(d).month)
  {
  }

  /** When the day survives the move, a month shift forward and back returns to d. */
  lemma MonthShiftRoundTrip(d: Date)
    requires IsDate(d)
    ensures ShiftMonthForward(d).day == d.day ==> ShiftMonthBack(ShiftMonthForward(d)) == d
    ensures ShiftMonthBack(d).day == d.day ==> ShiftMonthForward(ShiftMonthBack(d)) == d
  {
    MonthStepsInverse(d.year, d.month);
  }

  /** When the day survives the move, going to another year and back returns to d. */
  lemma YearChangeRoundTrip(d: Date, year: int)
    requires IsDate(d)
    ensures WithYear(d, year).day == d.day ==> WithYear(WithYear(d, year), d.year) == d
  {
  }

  /** Worked cases of the month-length rule. */
  lemma LastDayExamples()
    ensures LastDayOfMonth(2024, 2) == 29 && LastDayOfMonth(2023, 2) == 28
    ensures LastDayOfMonth(2000, 2) == 29 && LastDayOfMonth(1900, 2) == 28
    ensures LastDayOfMonth(2024, 4) == 30 && LastDayOfMonth(2024, 1) == 31
  {
  }

  /** Worked cases of the carry and clamp rules. */
  lemma StepExamples()
    ensures ShiftMonthForward(Date(2023, 1, 31)) == Date(2023, 2, 28)
    ensures ShiftMonthForward(Date(2024, 1, 31)) == Date(2024, 2, 29)
    ensures ShiftMonthBack(Date(2023, 1, 15)) == Date(2022, 12, 15)
    ensures NextDay(Date(2023, 12, 31)) == Date(2024, 1, 1)
    ensures PrevDay(Date(2023, 1, 1)) == Date(2022, 12, 31)
    ensures PrevDay(Date(2024, 3, 1)) == Date(2024, 2, 29)
    ensures WithYear(Date(2024, 2, 29), 2025) == Date(2025, 2, 28)
  {
  }
}
