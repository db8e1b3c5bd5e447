/** The fixed holiday table (`fixedHolidays`) and its lookup by month index
    and day (`fixedHolidays.find`). */
module Holidays {
  import opened Dates
  import opened Optional

  datatype Holiday = Holiday(month: int, day: int, title: string)

  /** The table as configured: month index (0 = January), day, title. */
  const FixedHolidays: seq<Holiday> := [
    Holiday(0, 1, "Año Nuevo"),
    Holiday(0, 6, "Día de Reyes"),
    Holiday(1, 14, "San Valentín"),
    Holiday(4, 1, "Día del Trabajador"),
    Holiday(8, 16, "Independencia (Ejemplo)"),
    Holiday(9, 31, "Halloween"),
    Holiday(10, 1, "Todos los Santos"),
    Holiday(11, 25, "Navidad"),
    Holiday(11, 31, "Nochevieja")
  ]

  predicate Falls(h: Holiday, month: int, day: int) {
    h.month == month && h.day == day
  }

  /** `Array.prototype.find` with the (month, day) predicate: the first entry
      that falls on the given day, if any. */
  function FindFirst(hs: seq<Holiday>, month: int, day: int): (r: Option<Holiday>)
    ensures r.None? <==> forall i :: 0 <= i < |hs| ==> !Falls(hs[i], month, day)
    ensures r.Some? ==> exists i :: 0 <= i < |hs| && hs[i] == r.value && Falls(hs[i], month, day)
                          && forall j :: 0 <= j < i ==> !Falls(hs[j], month, day)
  {
    if hs == [] then None
    else if Falls(hs[0], month, day) then Some(hs[0])
    else
      var r := FindFirst(hs[1..], month, day);
      assert r.Some? ==> exists i :: 1 <= i < |hs| && hs[i] == r.value && Falls(hs[i], month, day)
                          && forall j :: 0 <= j < i ==> !Falls(hs[j], month, day);
      r
  }

  /** No two entries of a table share a (month, day) pair. */
  predicate DistinctDays(hs: seq<Holiday>) {
    forall i, j :: 0 <= i < j < |hs| ==> !(hs[i].month == hs[j].month && hs[i].day == hs[j].day)
  }

  /** The holiday shown on a day of the grid and in the side panel: none
      exactly when no entry of the table falls on that day, otherwise an
      entry of the table that does. */
  function HolidayOn(month: int, day: int): (r: Option<Holiday>)
    ensures r.None? <==> forall i :: 0 <= i < |FixedHolidays| ==> !Falls(FixedHolidays[i], month, day)
    ensures r.Some? ==> r.value in FixedHolidays && Falls(r.value, month, day)
  {
    FindFirst(FixedHolidays, month, day)
  }

  /** The configured table has no duplicate days, and every entry names a
      day that exists in every year. */
  lemma FixedHolidaysWellFormed()
    ensures DistinctDays(FixedHolidays)
    ensures forall h, y :: h in FixedHolidays ==> ValidDate(Date(y, h.month, h.day))
  {
  }

  /** In a table without duplicate days, the first match is the only match:
      the lookup finds `h` exactly when `h` is an entry for that day. */
  lemma FindFirstUnique(hs: seq<Holiday>, month: int, day: int, h: Holiday)
    requires DistinctDays(hs)
    ensures FindFirst(hs, month, day) == Some(h) <==> h in hs && Falls(h, month, day)
  {
    if h in hs && Falls(h, month, day) {
      var k :| 0 <= k < |hs| && hs[k] == h;
      var r := FindFirst(hs, month, day);
      assert r.Some?;
      var i :| 0 <= i < |hs| && hs[i] == r.value && Falls(hs[i], month, day);
      if i < k {
        assert false;
      } else if k < i {
        assert false;
      }
    }
  }

  /** The lookup the grid performs, stated against the table itself. */
  lemma HolidayOnSpec(month: int, day: int, h: Holiday)
    ensures HolidayOn(month, day) == Some(h) <==> h in FixedHolidays && h.month == month && h.day == day
  {
    FixedHolidaysWellFormed();
    FindFirstUnique(FixedHolidays, month, day, h);
  }

  /** 25 December (month index 11) is "Navidad". */
  lemma ChristmasHoliday()
    ensures HolidayOn(11, 25) == Some(Holiday(11, 25, "Navidad"))
  {
    assert FixedHolidays[7] == Holiday(11, 25, "Navidad");
    HolidayOnSpec(11, 25, Holiday(11, 25, "Navidad"));
  }
}
