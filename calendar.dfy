/** The component's state and its click handlers: the displayed month
    (`currentDate`), the selected day (`selectedDate`), the event store
    (`events`), the panel flag (`isModalOpen`) and the draft text of the
    add-event form (`newEventText`). Each handler is a method that changes
    these fields the way the source's state setters do. */
module CalendarApp {
  import opened Optional
  import opened Dates
  import opened DateKey
  import opened Text
  import opened EventStore

  class Calendar {
    var current: Date
    var selected: Date
    var events: Store
    var panelOpen: bool
    var draft: string

    /** Both dates are real calendar days. */
    ghost predicate Valid()
      reads this
    {
      ValidDate(current) && ValidDate(selected)
    }

    /** Initial state: both dates are today, the panel is closed, the draft is
        empty, and the events are those restored from storage, or none. */
    constructor (today: Date, saved: Option<Store>)
      requires ValidDate(today)
      ensures Valid()
      ensures current == today && selected == today
      ensures events == (if saved.Some? then saved.value else map[])
      ensures !panelOpen && draft == ""
    {
      current := today;
      selected := today;
      events := if saved.Some? then saved.value else map[];
      panelOpen := false;
      draft := "";
    }

    /** `prevMonth`: the cursor moves to day 1 of the previous month. */
    method PrevMonth()
      requires Valid()
      modifies this
      ensures Valid()
      ensures current == PrevMonthOf(old(current))
      ensures selected == old(selected) && events == old(events)
      ensures panelOpen == old(panelOpen) && draft == old(draft)
    {
      current := MonthStart(current.year, current.month - 1);
    }

    /** `nextMonth`: the cursor moves to day 1 of the next month. */
    method NextMonth()
      requires Valid()
      modifies this
      ensures Valid()
      ensures current == NextMonthOf(old(current))
      ensures selected == old(selected) && events == old(events)
      ensures panelOpen == old(panelOpen) && draft == old(draft)
    {
      current := MonthStart(current.year, current.month + 1);
    }

    /** The "Hoy" button: the cursor becomes today. */
    method GoToToday(today: Date)
      requires Valid() && ValidDate(today)
      modifies this
      ensures Valid()
      ensures current == today
      ensures selected == old(selected) && events == old(events)
      ensures panelOpen == old(panelOpen) && draft == old(draft)
    {
      current := today;
    }

    /** `handleDateClick`: a day of the displayed month becomes the selected
        date and the panel opens. The grid offers only the days 1 ..
        `DaysInMonth` of the cursor's month. */
    method SelectDay(day: int)
      requires Valid() && 1 <= day <= DaysInMonth(current.year, current.month)
      modifies this
      ensures Valid()
      ensures selected == Date(current.year, current.month, day) && panelOpen
      ensures current == old(current) && events == old(events) && draft == old(draft)
    {
      selected := Date(current.year, current.month, day);
      panelOpen := true;
    }

    /** The panel's close button. */
    method ClosePanel()
      requires Valid()
      modifies this
      ensures Valid() && !panelOpen
      ensures current == old(current) && selected == old(selected)
      ensures events == old(events) && draft == old(draft)
    {
      panelOpen := false;
    }

    /** The form's text input (`onChange`). */
    method SetDraft(text: string)
      requires Valid()
      modifies this
      ensures Valid() && draft == text
      ensures current == old(current) && selected == old(selected)
      ensures events == old(events) && panelOpen == old(panelOpen)
    {
      draft := text;
    }

    /** `addEvent`: a blank draft changes nothing; otherwise an event with the
        caller's id (the source's `Date.now()`), the untrimmed draft text and
        the personal category is appended to the selected day's list, and
        the draft is cleared. */
    method AddEvent(id: int)
      requires Valid()
      modifies this
      ensures Valid()
      ensures IsBlank(old(draft)) ==> events == old(events) && draft == old(draft)
      ensures !IsBlank(old(draft)) ==>
        && events == Add(old(events), FormatDateKey(selected), Event(id, old(draft), Personal))
        && draft == ""
      ensures NoEmptyLists(old(events)) ==> NoEmptyLists(events)
      ensures current == old(current) && selected == old(selected) && panelOpen == old(panelOpen)
    {
      if Trim(draft) == [] {
        return;
      }
      var key := FormatDateKey(selected);
      var newEvent := Event(id, draft, Personal);
      if NoEmptyLists(events) {
        AddKeepsNoEmptyLists(events, key, newEvent);
      }
      events := Add(events, key, newEvent);
      draft := "";
    }

    /** `deleteEvent`: the day's events without those carrying `id`; the day
        is dropped when none remain. The source fails on a key with no
        entry, so the key must be present. */
    method DeleteEvent(key: string, id: int)
      requires Valid() && key in events
      modifies this
      ensures Valid()
      ensures events == Delete(old(events), key, id)
      ensures NoEmptyLists(old(events)) ==> NoEmptyLists(events)
      ensures current == old(current) && selected == old(selected)
      ensures panelOpen == old(panelOpen) && draft == old(draft)
    {
      var currentEvents := events[key];
      var updatedEvents := Without(currentEvents, id);
      if |updatedEvents| == 0 {
        events := events - {key};
      } else {
        events := events[key := updatedEvents];
      }
    }
  }

  /** Adding "Family dinner" on 25 December 2024 to an empty store gives one
      key, "2024-11-25", holding that one event; deleting its id empties the
      store again. */
  lemma ChristmasDinner(id: int)
    ensures var ev := Event(id, "Family dinner", Personal);
      var added := Add(map[], FormatDateKey(Date(2024, 11, 25)), ev);
      && added == map["2024-11-25" := [ev]]
      && Delete(added, "2024-11-25", id) == map[]
  {
    var ev := Event(id, "Family dinner", Personal);
    ChristmasKey();
    assert EventsFor(map[], "2024-11-25") + [ev] == [ev];
    assert Without([ev], id) == [];
    assert map["2024-11-25" := [ev]] - {"2024-11-25"} == map[];
  }
}
