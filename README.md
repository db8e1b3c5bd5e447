# Calendar widget: date arithmetic, month grid and per-day event store

A Dafny model of the logic inside the single React component of a month
calendar (`src/App.jsx`). It covers these parts:

- the calendar arithmetic the component gets from the JavaScript `Date` object: month lengths, the weekday of the first of a month, and the month cursor stepping backwards and forwards;
- the string key `"year-monthIndex-day"` under which a day's events are stored;
- the fixed holiday table and its first-match lookup;
- the event store, a map from day key to that day's events in insertion order, with its add and delete operations;
- the month grid that `renderCalendarDays` builds: leading blanks, then one cell per day with its flags, holiday and events;
- the component state (cursor, selected day, store, panel flag, draft text) and the click handlers that change it.

The proleptic Gregorian calendar used by `Date` is written out as a day count
from 1 January of year 1 (`Dates.DayNumber`), and 1 January 1970 is proved
(`Dates.EpochIsThursday`) to be a Thursday. The current time and `Date.now()` become parameters: "today" is
passed to the constructor, to `GoToToday` and to `BuildGrid`, and the new event's
id is passed to `AddEvent`.

Modules, leaf first: `Optional`, `Dates`, `DateKey`, `Text`, `Holidays`,
`EventStore` (pure functions with lemmas), `Grid` (the grid-building method with
its loops) and `CalendarApp` (the `Calendar` class, whose methods update its
fields as the component's state setters do).

Two behaviours of the code are worth noting.
- `deleteEvent` reads `events[dateKey]` and calls `filter` on it, so a missing key raises a `TypeError`; it is not a silent no-op. `Delete` and `Calendar.DeleteEvent` therefore require the key to be present. For the same reason, deleting an id a second time is a no-op only while the day still has an entry (`DeleteTwice`).
- The stored event text is the draft as typed, not trimmed. Only the emptiness test uses `trim`.

## Model

| member | source | states |
|---|---|---|
| `Dates.DaysInMonth` | src/App.jsx:71-73 | A month has 28 to 31 days. February has 29 in a leap year (divisible by 4 and not by 100, or divisible by 400) and 28 otherwise. No other month has 29. April, June, September and November (indices 3, 5, 8, 10) have 30. The other seven months have 31. |
| `Dates.LastDayPrecedesNextMonth` | src/App.jsx:71-73 | The last day of month m, day `DaysInMonth`, is the day right before the first of the next month. That day is what `new Date(y, m + 1, 0)` denotes, so its day-of-month is the month length. |
| `Dates.YearStartsGap` | src/App.jsx:71-73 | On the day count, consecutive New Year's days are 366 days apart in leap years and 365 otherwise. This ties the closed-form count to the leap-year rule. |
| `Dates.MonthsFillYear` | src/App.jsx:71-73 | The twelve month lengths add up to the year length. |
| `Dates.FebruaryExamples` | src/App.jsx:71-73 | February has 29 days in 2024 and 2000, and 28 in 2023 and 1900. |
| `Dates.Weekday` | src/App.jsx:76 | `getDay` returns an index in 0..6, with 0 = Sunday as in the `daysOfWeek` order. `EpochIsThursday` anchors the count, and `FirstDayOfNextMonth` chains it from month to month. |
| `Dates.FirstDayOfMonth` | src/App.jsx:75-77 | The weekday of day 1 is in 0..6. Which weekday it is follows from `EpochIsThursday` and `FirstDayOfNextMonth`: together they fix the first weekday of every month. |
| `Dates.FirstDayOfNextMonth` | src/App.jsx:75-77 | The next month's first weekday is (this month's first weekday + this month's length) mod 7. |
| `Dates.EpochIsThursday` | src/App.jsx:28 | The weekday count puts 1 January 1970 on index 4, Thursday, in the Sunday-first order. |
| `Dates.MonthStart` | src/App.jsx:80 | `new Date(y, m, 1)` for any integer m gives a month index in 0..11, day 1, and month number 12·y + m. An out-of-range month carries into the year. |
| `Dates.PrevMonthOf` | src/App.jsx:79-81 | The previous-month cursor is day 1 of the month one before the current one. |
| `Dates.NextMonthOf` | src/App.jsx:83-85 | The next-month cursor is day 1 of the month one after the current one. |
| `Dates.PrevMonthRollsOver` | src/App.jsx:79-81 | Month 0 goes back to month 11 of the previous year. Any other month goes to the month before it in the same year. |
| `Dates.NextMonthRollsOver` | src/App.jsx:83-85 | Month 11 goes forward to month 0 of the next year. Any other month goes to the month after it in the same year. |
| `Dates.PrevNextInverse` | src/App.jsx:79-85 | Previous then next, or next then previous, returns to day 1 of the original month. |
| `DateKey.NatToDecimal` | src/App.jsx:94 | A number renders as a non-empty string of decimal digits with no leading zero: the first digit is '0' only for the number 0, which renders as "0" alone. |
| `DateKey.IntToDecimal` | src/App.jsx:94 | A rendered integer is non-empty and starts with '-' exactly when the integer is negative. |
| `DateKey.DecimalRoundTrip` | src/App.jsx:94 | Reading back a number's decimal rendering gives the number. |
| `DateKey.FormatDateKey` | src/App.jsx:93-95 | A key has at least five characters (three numbers, two dashes), and it starts with '-' exactly when the year is negative. `ParseFormatRoundTrip` shows that the key determines the date. |
| `DateKey.ParseFormatRoundTrip` | src/App.jsx:93-95 | Parsing a key (`ParseDateKey`) gives back its date, for any date with a non-negative month and day, including every valid date. Years may be negative. |
| `DateKey.FormatDateKeyInjective` | src/App.jsx:93-95 | On valid dates, two keys are equal if and only if the dates are equal. |
| `DateKey.ChristmasKey` | src/App.jsx:93-95 | 25 December 2024 has the key "2024-11-25", with a 0-based month. |
| `Text.TrimStart` | src/App.jsx:101 | The result is a suffix of the input. The part removed is all white space, and the result does not start with white space. |
| `Text.TrimEnd` | src/App.jsx:101 | The result is a prefix of the input. The part removed is all white space, and the result does not end with white space. |
| `Text.Trim` | src/App.jsx:101 | `trim` returns the empty string if and only if every character is ECMAScript white space or a line terminator. A non-empty result neither starts nor ends with such a character. |
| `Text.TrimRemovesBlankEnds` | src/App.jsx:101 | The trimmed text is a contiguous part of the input, and everything before and after it is white space. |
| `Text.BlankExamples` | src/App.jsx:101 | The empty string, spaces, and a mix of tab, newline and no-break space are blank. A string with a letter is not. |
| `Holidays.FixedHolidaysWellFormed` | src/App.jsx:35-45 | No two table entries share a (month, day) pair. Every entry is a valid date in every year. |
| `Holidays.HolidayOn` | src/App.jsx:157 | The lookup returns nothing if and only if no table entry falls on that month and day. Otherwise it returns a table entry that falls on it. `HolidayOnSpec` adds that it is the only one. |
| `Holidays.FindFirst` | src/App.jsx:157 | `find` returns nothing if and only if no entry matches. Otherwise it returns an entry that matches and has no matching entry before it. |
| `Holidays.FindFirstUnique` | src/App.jsx:157 | In a table without duplicate days, the lookup returns h if and only if h is an entry for that month and day. |
| `Holidays.HolidayOnSpec` | src/App.jsx:157 | Holiday lookup on the configured table returns h if and only if h is the table's entry for that month and day. |
| `Holidays.ChristmasHoliday` | src/App.jsx:43 | Month 11, day 25 is "Navidad". |
| `EventStore.EventsFor` | src/App.jsx:104 | A day's events are its entry, or none. In a store with no empty lists, a day shows no events if and only if it has no entry. |
| `EventStore.Add` | src/App.jsx:103-115 | Add puts the key in the store. The day's events become its old events, or none, followed by the new event. Every other day shows the same events as before. |
| `EventStore.AddKeepsNoEmptyLists` | src/App.jsx:112-115 | If no key maps to an empty list before an add, none does after it. |
| `EventStore.WithoutKeepsOthers` | src/App.jsx:122 | The filter is a subsequence of the original list, so order is kept. Each event whose id differs appears as often as before, and no event with the id remains. |
| `EventStore.WithoutNoMatch` | src/App.jsx:122 | If no event carries the id, the filter returns the list unchanged. |
| `EventStore.Without` | src/App.jsx:122 | The filter is no longer than its input, and no event in it carries the id. `WithoutKeepsOthers` completes the description: every other event is kept as often as before and in its original order. |
| `EventStore.WithoutIdempotent` | src/App.jsx:122 | Filtering by the same id twice gives the same result as filtering once. |
| `EventStore.WithoutAppend` | src/App.jsx:122 | Filtering a list with one event appended equals filtering the list, then appending that event if its id differs. |
| `EventStore.Delete` | src/App.jsx:120-134 | The key stays if and only if some event survives the filter. The day's events become the filtered list. Every other key stays, with its list unchanged. |
| `EventStore.DeleteKeepsNoEmptyLists` | src/App.jsx:124-133 | If no key maps to an empty list before a delete, none does after it. |
| `EventStore.DeleteTwice` | src/App.jsx:120-134 | While the day still has an entry after the first delete, deleting the same id again changes nothing. |
| `EventStore.DeleteUndoesAdd` | src/App.jsx:103-134 | Take a store with no empty lists. Add an event whose id no other event of that day carries, then delete that id. The result is the original store. |
| `Grid.BuildGrid` | src/App.jsx:138-160 | The grid has `FirstDayOfMonth` blank cells, then the cell for day k at position blanks + k - 1, so its length is blanks + month length. Each day cell's flags are true exactly when its date is today or the selected date. Its holiday is the table lookup and its events are the stored list, or none. |
| `Grid.DayCell` | src/App.jsx:150-160 | The cell the day loop pushes describes its date. It carries the day number, is flagged today or selected exactly when the date is, and holds that date's holiday and stored events. |
| `Grid.CellOfDate` | src/App.jsx:144-160 | Every valid date of the displayed month has a cell that describes it, at position blanks + day - 1. `WeekdayColumn` shows that this is its weekday's column. |
| `Grid.WeekdayColumn` | src/App.jsx:243-253 | Both grids have seven columns, and the header follows the Sunday-first `daysOfWeek` order. After the `FirstDayOfMonth` blanks, day k sits at position blanks + k - 1, and that position mod 7 is the day's weekday. So every day appears under its own weekday. |
| `Grid.FlagsMarkOneCell` | src/App.jsx:153-154 | Any cell flagged selected belongs to the selected date, and any cell flagged today belongs to today. At most one cell is flagged selected, and at most one is flagged today. |
| `Grid.EmptyStoreEmptyCells` | src/App.jsx:160 | With an empty store, every day cell has an empty event list. |
| `CalendarApp.Calendar.constructor` | src/App.jsx:49-62 | Cursor and selected date start at today. The store is the restored one, or empty. The panel starts closed and the draft starts empty. |
| `CalendarApp.Calendar.PrevMonth` | src/App.jsx:79-81 | The cursor becomes `PrevMonthOf` the old cursor. Nothing else changes. |
| `CalendarApp.Calendar.NextMonth` | src/App.jsx:83-85 | The cursor becomes `NextMonthOf` the old cursor. Nothing else changes. |
| `CalendarApp.Calendar.GoToToday` | src/App.jsx:228 | The cursor becomes today. Nothing else changes. |
| `CalendarApp.Calendar.SelectDay` | src/App.jsx:87-91 | The selected date becomes that day of the displayed month and the panel opens. Nothing else changes. |
| `CalendarApp.Calendar.ClosePanel` | src/App.jsx:271 | The panel closes. Nothing else changes. |
| `CalendarApp.Calendar.SetDraft` | src/App.jsx:324 | The draft becomes the typed text. Nothing else changes. |
| `CalendarApp.Calendar.AddEvent` | src/App.jsx:99-118 | A blank draft changes neither the store nor the draft. Otherwise, the event (id, untrimmed draft, "personal") is added under the selected day's key and the draft becomes "". If no key mapped to an empty list before, none does afterwards. The cursor, selection and panel are unchanged. |
| `CalendarApp.Calendar.DeleteEvent` | src/App.jsx:120-134 | The store becomes `Delete` of the old store. If no key mapped to an empty list before, none does afterwards. The other fields are unchanged. |
| `CalendarApp.ChristmasDinner` | src/App.jsx:99-134 | Adding "Family dinner" on 25 December 2024 to an empty store gives the single key "2024-11-25" with that event. Deleting its id leaves an empty store. |

## Left out

- Markup, CSS class strings, the month background URLs, the `monthNames`/`daysOfWeek` display strings and the icons (src/App.jsx:9-22, 162-341): presentation only.
- The side panel's display logic (src/App.jsx:258-316) is presentation. It shows the selected day's heading, holiday banner, event list and "no events" message, using the same lookups as the grid: `HolidayOn` and `EventsFor` with `FormatDateKey`.
- The submit button's `disabled` state (src/App.jsx:331) is left out. It uses the same blank test as `AddEvent`.
- Persistence through `localStorage` and `JSON.parse`/`JSON.stringify` (src/App.jsx:55-58, 65-67) is left out because it calls into the browser. The constructor takes the restored store as an `Option`, where `None` stands for nothing saved. Malformed saved data makes `JSON.parse` throw in the source, so there is no recovery path to model.
- The `Date` object itself is left out. Only calendar days (year, month index, day) are modelled: no time of day, no time zones, and no limit on the year range. `new Date(y, m, d)` maps years 0..99 to 1900..1999; the model does not reproduce that, and treats every year as itself.
- `Date.now()` and `new Date()` are left out because they read the clock. The caller supplies the event id and today's date instead. Ids are unbounded integers, not double-precision numbers. The source does not guarantee unique ids (two adds in the same millisecond collide), so delete removes every event carrying the id, exactly as `filter` does.
- The insertion order of the keys of the JavaScript object is left out. It only affects the serialised JSON, and the store is a Dafny `map`.
- React mechanics are left out: batching and scheduling of state updates, stale closures, and `e.preventDefault()`. Each handler is modelled as one atomic update of the class's fields.
- `CalendarApp.Calendar.SelectDay` requires 1 <= day <= the month length. The source's handler would normalise any number through `new Date`, but the grid only ever passes those days.
