/** Calendar arithmetic behind the widget: month lengths, weekdays and the
    month cursor. The source leans on the JavaScript `Date` object, which uses
    the proleptic Gregorian calendar; here that calendar is written out as an
    explicit day count from 1 January of year 1. */
module Dates {

  /** A calendar day as the component handles it: full year, month index
      0 (January) .. 11 (December), day of month counted from 1. */
  datatype Date = Date(year: int, month: int, day: int)

  predicate ValidMonth(m: int) {
    0 <= m < 12
  }

  /** Gregorian rule: every fourth year, except centuries not divisible by 400. */
  predicate IsLeapYear(y: int) {
    (y % 4 == 0 && y % 100 != 0) || y % 400 == 0
  }

  /** Number of days of month `m` of year `y` (`getDaysInMonth`). */
  function DaysInMonth(y: int, m: int): (n: int)
    requires ValidMonth(m)
    ensures 28 <= n <= 31
    ensures n == 29 <==> m == 1 && IsLeapYear(y)
    ensures m == 1 ==> n == (if IsLeapYear(y) then 29 else 28)
    ensures m != 1 ==> (n == 30 <==> m == 3 || m == 5 || m == 8 || m == 10)
    ensures m != 1 && !(m == 3 || m == 5 || m == 8 || m == 10) ==> n == 31
  {
    if m == 1 then (if IsLeapYear(y) then 29 else 28)
    else if m == 3 || m == 5 || m == 8 || m == 10 then 30
    else 31
  }

  predicate ValidDate(d: Date) {
    ValidMonth(d.month) && 1 <= d.day <= DaysInMonth(d.year, d.month)
  }

  function YearLength(y: int): int {
    if IsLeapYear(y) then 366 else 365
  }

  /** Days from 1 January of year 1 to 1 January of year `y` (negative for
      earlier years). Dafny's `/` floors for a positive divisor, which is what
      the proleptic count needs for years before 1. */
  function DaysBeforeYear(y: int): int {
    var p := y - 1;
    365 * p + p / 4 - p / 100 + p / 400
  }

  /** Days of year `y` that precede month `m` (0 .. 12). */
  function DaysBeforeMonth(y: int, m: int): int
    requires 0 <= m <= 12
  {
    if m == 0 then 0 else DaysBeforeMonth(y, m - 1) + DaysInMonth(y, m - 1)
  }

  /** Position of a day on the continuous day line; 1 January of year 1 is 0. */
  function DayNumber(d: Date): int
    requires ValidMonth(d.month)
  {
    DaysBeforeYear(d.year) + DaysBeforeMonth(d.year, d.month) + d.day - 1
  }

  /** Weekday index as `Date.prototype.getDay` returns it: 0 = Sunday .. 6 =
      Saturday. 1 January of year 1 (day number 0) is a Monday. */
  function Weekday(d: Date): (w: int)
    requires ValidMonth(d.month)
    ensures 0 <= w < 7
  {
    (DayNumber(d) + 1) % 7
  }

  /** Weekday of the first day of a month (`getFirstDayOfMonth`). */
  function FirstDayOfMonth(y: int, m: int): (w: int)
    requires ValidMonth(m)
    ensures 0 <= w < 7
  {
    Weekday(Date(y, m, 1))
  }

  /** Months counted continuously: consecutive months differ by one. */
  function MonthIndex(d: Date): int {
    12 * d.year + d.month
  }

  /** `new Date(y, m, 1)`: a month index outside 0 .. 11 is carried into the
      year, as the `Date` constructor does. */
  function MonthStart(y: int, m: int): (r: Date)
    ensures ValidMonth(r.month) && r.day == 1
    ensures MonthIndex(r) == 12 * y + m
  {
    Date(y + m / 12, m % 12, 1)
  }

  /** The cursor after the "previous month" button (`prevMonth`). */
  function PrevMonthOf(d: Date): (r: Date)
    ensures ValidMonth(r.month) && r.day == 1
    ensures MonthIndex(r) == MonthIndex(d) - 1
  {
    MonthStart(d.year, d.month - 1)
  }

  /** The cursor after the "next month" button (`nextMonth`). */
  function NextMonthOf(d: Date): (r: Date)
    ensures ValidMonth(r.month) && r.day == 1
    ensures MonthIndex(r) == MonthIndex(d) + 1
  {
    MonthStart(d.year, d.month + 1)
  }

  // ---------------------------------------------------------------------------
  // Month cursor

  /** A month is determined by its continuous index. */
  lemma MonthIndexInjective(a: Date, b: Date)
    requires ValidMonth(a.month) && ValidMonth(b.month)
    ensures MonthIndex(a) == MonthIndex(b) <==> a.year == b.year && a.month == b.month
  {
  }

  /** Month 0 rolls back to month 11 of the previous year, every other month
      steps back within its year. */
  lemma PrevMonthRollsOver(d: Date)
    requires ValidMonth(d.month)
    ensures d.month == 0 ==> PrevMonthOf(d) == Date(d.year - 1, 11, 1)
    ensures d.month > 0 ==> PrevMonthOf(d) == Date(d.year, d.month - 1, 1)
  {
    var r := PrevMonthOf(d);
    if d.month == 0 {
      MonthIndexInjective(r, Date(d.year - 1, 11, 1));
    } else {
      MonthIndexInjective(r, Date(d.year, d.month - 1, 1));
    }
  }

  /** Month 11 rolls forward to month 0 of the next year, every other month
      steps forward within its year. */
  lemma NextMonthRollsOver(d: Date)
    requires ValidMonth(d.month)
    ensures d.month == 11 ==> NextMonthOf(d) == Date(d.year + 1, 0, 1)
    ensures d.month < 11 ==> NextMonthOf(d) == Date(d.year, d.month + 1, 1)
  {
    var r := NextMonthOf(d);
    if d.month == 11 {
      MonthIndexInjective(r, Date(d.year + 1, 0, 1));
    } else {
      MonthIndexInjective(r, Date(d.year, d.month + 1, 1));
    }
  }

  /** The two buttons undo each other, landing on day 1 of the original month. */
  lemma PrevNextInverse(d: Date)
    requires ValidMonth(d.month)
    ensures NextMonthOf(PrevMonthOf(d)) == Date(d.year, d.month, 1)
    ensures PrevMonthOf(NextMonthOf(d)) == Date(d.year, d.month, 1)
  {
    MonthIndexInjective(NextMonthOf(PrevMonthOf(d)), d);
    MonthIndexInjective(PrevMonthOf(NextMonthOf(d)), d);
  }

  // ---------------------------------------------------------------------------
  // Day count

  lemma FloorStep4(a: int)
    ensures (a + 1) / 4 - a / 4 == if (a + 1) % 4 == 0 then 1 else 0
  {
  }

  lemma FloorStep100(a: int)
    ensures (a + 1) / 100 - a / 100 == if (a + 1) % 100 == 0 then 1 else 0
  {
  }

  lemma FloorStep400(a: int)
    ensures (a + 1) / 400 - a / 400 == if (a + 1) % 400 == 0 then 1 else 0
  {
  }

  /** The closed-form day count agrees with the leap-year rule: consecutive
      New Year's days are 366 days apart exactly in leap years. */
  lemma YearStartsGap(y: int)
    ensures DaysBeforeYear(y + 1) - DaysBeforeYear(y) == YearLength(y)
  {
    var p := y - 1;
    FloorStep4(p);
    FloorStep100(p);
    FloorStep400(p);
    var d4, d100, d400 := (p + 1) / 4 - p / 4, (p + 1) / 100 - p / 100, (p + 1) / 400 - p / 400;
    assert DaysBeforeYear(y + 1) - DaysBeforeYear(y) == 365 + d4 - d100 + d400;
    if y % 400 == 0 {
      QuadCenturyIsCentury(y);
      CenturyIsMultipleOf4(y);
    } else if y % 100 == 0 {
      CenturyIsMultipleOf4(y);
    }
  }

  /** Centuries are multiples of 4. */
  lemma CenturyIsMultipleOf4(y: int)
    requires y % 100 == 0
    ensures y % 4 == 0
  {
    var a := y / 100;
    assert y == 100 * a;
    assert y == 4 * (25 * a);
  }

  /** Multiples of 400 are centuries. */
  lemma QuadCenturyIsCentury(y: int)
    requires y % 400 == 0
    ensures y % 100 == 0
  {
    var a := y / 400;
    assert y == 400 * a;
    assert y == 100 * (4 * a);
  }

  /** The twelve months fill the year. */
  lemma MonthsFillYear(y: int)
    ensures DaysBeforeMonth(y, 12) == YearLength(y)
  {
    var feb := DaysInMonth(y, 1);
    assert DaysBeforeMonth(y, 1) == 31;
    assert DaysBeforeMonth(y, 2) == 31 + feb;
    assert DaysBeforeMonth(y, 3) == 62 + feb;
    assert DaysBeforeMonth(y, 4) == 92 + feb;
    assert DaysBeforeMonth(y, 5) == 123 + feb;
    assert DaysBeforeMonth(y, 6) == 153 + feb;
    assert DaysBeforeMonth(y, 7) == 184 + feb;
    assert DaysBeforeMonth(y, 8) == 215 + feb;
    assert DaysBeforeMonth(y, 9) == 245 + feb;
    assert DaysBeforeMonth(y, 10) == 276 + feb;
    assert DaysBeforeMonth(y, 11) == 306 + feb;
    assert DaysBeforeMonth(y, 12) == 337 + feb;
  }

  /** `getDaysInMonth` reads the day-of-month of `new Date(y, m + 1, 0)`, the
      day before the first of the next month. On the day line that day is the
      last day of month `m`: the month length is the gap between consecutive
      first days. */
  lemma LastDayPrecedesNextMonth(y: int, m: int)
    requires ValidMonth(m)
    ensures DayNumber(Date(y, m, DaysInMonth(y, m))) + 1 == DayNumber(NextMonthOf(Date(y, m, 1)))
  {
    NextMonthRollsOver(Date(y, m, 1));
    if m == 11 {
      YearStartsGap(y);
      MonthsFillYear(y);
    }
  }

  /** Consecutive grids chain: the first weekday of the next month follows
      from this month's first weekday and length. */
  lemma FirstDayOfNextMonth(y: int, m: int)
    requires ValidMonth(m)
    ensures var n := NextMonthOf(Date(y, m, 1));
      FirstDayOfMonth(n.year, n.month) == (FirstDayOfMonth(y, m) + DaysInMonth(y, m)) % 7
  {
    var n := NextMonthOf(Date(y, m, 1));
    var first := DayNumber(Date(y, m, 1));
    LastDayPrecedesNextMonth(y, m);
    assert DayNumber(n) == first + DaysInMonth(y, m);
    ShiftMod7(first + 1, DaysInMonth(y, m));
  }

  lemma ShiftMod7(a: int, b: int)
    ensures (a + b) % 7 == (a % 7 + b) % 7
  {
    var q := a / 7;
    assert a == 7 * q + a % 7;
    assert a + b == 7 * q + (a % 7 + b);
  }

  /** Anchors the weekday count: 1 January 1970 was a Thursday. */
  lemma EpochIsThursday()
    ensures Weekday(Date(1970, 0, 1)) == 4
  {
  }

  /** February has 29 days in 2024 and 28 in 2023. */
  lemma FebruaryExamples()
    ensures DaysInMonth(2024, 1) == 29 && DaysInMonth(2023, 1) == 28
    ensures DaysInMonth(2000, 1) == 29 && DaysInMonth(1900, 1) == 28
  {
  }
}
