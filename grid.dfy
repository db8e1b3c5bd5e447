/** The month grid (`renderCalendarDays` without its markup): leading blank
    cells up to the weekday of day 1, then one cell per day of the month,
    each carrying the today/selected flags, the fixed holiday and the day's
    personal events. */
module Grid {
  import opened Optional
  import opened Dates
  import opened DateKey
  import opened Holidays
  import opened EventStore

  datatype Cell =
    | Blank
    | Day(day: int, isToday: bool, isSelected: bool, holiday: Option<Holiday>, events: seq<Event>)

  /** What the cell for date `d` shows. The source compares dates with
      `toDateString`, which tells calendar days apart and nothing else. */
  predicate DescribesDay(c: Cell, d: Date, today: Date, selected: Date, store: Store) {
    && c.Day?
    && c.day == d.day
    && (c.isToday <==> d == today)
    && (c.isSelected <==> d == selected)
    && c.holiday == HolidayOn(d.month, d.day)
    && c.events == EventsFor(store, FormatDateKey(d))
  }

  /** The cell the loop pushes for one day: the day's number, whether it is
      today or the selected date, its holiday and its stored events. */
  function DayCell(d: Date, today: Date, selected: Date, store: Store): (c: Cell)
    ensures DescribesDay(c, d, today, selected, store)
  {
    Day(d.day, today == d, selected == d, HolidayOn(d.month, d.day), EventsFor(store, FormatDateKey(d)))
  }

  /** The grid of the cursor's month: `FirstDayOfMonth` blanks (0 = Sunday
      column), then the cell for day k at position blanks + k - 1. */
  predicate IsGrid(days: seq<Cell>, cursor: Date, today: Date, selected: Date, store: Store)
    requires ValidMonth(cursor.month)
  {
    var blanks := FirstDayOfMonth(cursor.year, cursor.month);
    && |days| == blanks + DaysInMonth(cursor.year, cursor.month)
    && (forall i :: 0 <= i < blanks ==> days[i] == Blank)
    && (forall i :: blanks <= i < |days| ==>
          DescribesDay(days[i], Date(cursor.year, cursor.month, i - blanks + 1), today, selected, store))
  }

  /** `renderCalendarDays`: two loops pushing the blank cells and the day
      cells. */
  method BuildGrid(cursor: Date, today: Date, selected: Date, store: Store) returns (days: seq<Cell>)
    requires ValidMonth(cursor.month)
    ensures IsGrid(days, cursor, today, selected, store)
  {
    var daysInMonth := DaysInMonth(cursor.year, cursor.month);
    var firstDayIndex := FirstDayOfMonth(cursor.year, cursor.month);
    days := [];
    var i := 0;
    while i < firstDayIndex
      invariant 0 <= i <= firstDayIndex
      invariant |days| == i
      invariant forall j :: 0 <= j < i ==> days[j] == Blank
    {
      days := days + [Blank];
      i := i + 1;
    }
    var day := 1;
    while day <= daysInMonth
      invariant 1 <= day <= daysInMonth + 1
      invariant |days| == firstDayIndex + day - 1
      invariant forall j :: 0 <= j < firstDayIndex ==> days[j] == Blank
      invariant forall j :: firstDayIndex <= j < |days| ==>
        DescribesDay(days[j], Date(cursor.year, cursor.month, j - firstDayIndex + 1), today, selected, store)
    {
      days := days + [DayCell(Date(cursor.year, cursor.month, day), today, selected, store)];
      day := day + 1;
    }
  }

  /** Every day of the cursor's month has its cell, right after the blanks;
      `WeekdayColumn` shows that this position falls in the column of the
      day's weekday. */
  lemma CellOfDate(days: seq<Cell>, cursor: Date, today: Date, selected: Date, store: Store, d: Date)
    requires ValidMonth(cursor.month) && IsGrid(days, cursor, today, selected, store)
    requires ValidDate(d) && d.year == cursor.year && d.month == cursor.month
    ensures var i := FirstDayOfMonth(cursor.year, cursor.month) + d.day - 1;
      0 <= i < |days| && DescribesDay(days[i], d, today, selected, store)
  {
  }

  /** The grid has seven columns under the Sunday-first weekday header.
      Counting `FirstDayOfMonth` blanks and then the days, day `d.day` lands
      at a position whose remainder mod 7 is its weekday. */
  lemma WeekdayColumn(d: Date)
    requires ValidMonth(d.month) && d.day >= 1
    ensures (FirstDayOfMonth(d.year, d.month) + d.day - 1) % 7 == Weekday(d)
  {
    ShiftMod7(DayNumber(Date(d.year, d.month, 1)) + 1, d.day - 1);
  }

  /** At most one cell is flagged selected, and it is the selected date's
      cell; the same holds for today. */
  lemma FlagsMarkOneCell(days: seq<Cell>, cursor: Date, today: Date, selected: Date, store: Store)
    requires ValidMonth(cursor.month) && IsGrid(days, cursor, today, selected, store)
    ensures forall i :: 0 <= i < |days| && days[i].Day? && days[i].isSelected ==>
      selected == Date(cursor.year, cursor.month, days[i].day)
    ensures forall i :: 0 <= i < |days| && days[i].Day? && days[i].isToday ==>
      today == Date(cursor.year, cursor.month, days[i].day)
    ensures forall i, j ::
      (0 <= i < |days| && 0 <= j < |days| && days[i].Day? && days[j].Day?
       && days[i].isSelected && days[j].isSelected) ==> i == j
    ensures forall i, j ::
      (0 <= i < |days| && 0 <= j < |days| && days[i].Day? && days[j].Day?
       && days[i].isToday && days[j].isToday) ==> i == j
  {
    var blanks := FirstDayOfMonth(cursor.year, cursor.month);
    assert forall i :: 0 <= i < |days| && days[i].Day? ==> blanks <= i && days[i].day == i - blanks + 1;
  }

  /** With no personal events stored, every cell's event list is empty. */
  lemma EmptyStoreEmptyCells(days: seq<Cell>, cursor: Date, today: Date, selected: Date)
    requires ValidMonth(cursor.month) && IsGrid(days, cursor, today, selected, map[])
    ensures forall i :: 0 <= i < |days| && days[i].Day? ==> days[i].events == []
  {
  }
}
