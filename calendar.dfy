/** The month calendar: the grid of day cells for the shown month (blank
    cells before the first day so that each day falls in its weekday's
    column), the previous and next month buttons, and the per-day flags. */
module MonthCalendar {
  import opened Wrappers
  import opened Strings
  import opened DateUtils
  import opened LocalStorage

  /** Cell `i` of the grid of the month (y, m) whose first day falls in
      column `first`: blank before it, then the days in order. */
  function Cell(y: int, m: int, first: int, i: int): (c: Option<Date>)
    requires 0 <= m < 12 && 0 <= i < first + DaysIn(y, m)
  {
    if i < first then None else Some(CalendarDate(y, m, i - first + 1))
  }

  /** What `calendarDays` holds for `currentMonth`: `firstDayOfWeek` blank
      cells and then one cell per day of the month, in order; nothing for an
      Invalid Date. The grid never needs more than six rows of seven. */
  function MonthGrid(currentMonth: Option<Date>): (days: seq<Option<Date>>)
    ensures currentMonth.None? ==> days == []
    ensures currentMonth.Some? ==>
      var first, dim := GetFirstDayOfWeek(currentMonth).value, GetDaysInMonth(currentMonth).value;
      && |days| == first + dim <= 6 * 7
      && (forall i :: 0 <= i < first ==> days[i].None?)
      && (forall i :: first <= i < first + dim ==>
            days[i] == Some(CalendarDate(JsYear(currentMonth.value.year), currentMonth.value.month, i - first + 1)))
  {
    match currentMonth
    case None => []
    case Some(d) =>
      var first, dim := GetFirstDayOfWeek(currentMonth).value, GetDaysInMonth(currentMonth).value;
      var y := JsYear(d.year);
      seq(first + dim, i requires 0 <= i < first + dim => Cell(y, d.month, first, i))
  }

  /** Each day cell sits in the column of its weekday (0 Sunday to 6
      Saturday, as the header row is laid out). */
  lemma GridColumns(currentMonth: Option<Date>, j: int)
    requires currentMonth.Some? && 0 <= j < |MonthGrid(currentMonth)| && MonthGrid(currentMonth)[j].Some?
    ensures Weekday(MonthGrid(currentMonth)[j].value) == j % 7
  {
    var d := currentMonth.value;
    var y := JsYear(d.year);
    var first := GetFirstDayOfWeek(currentMonth).value;
    var i := j - first;
    assert MonthGrid(currentMonth)[j] == Some(CalendarDate(y, d.month, i + 1));
    WeekdayInMonth(y, d.month, i);
    ModSeven(first, i);
  }

  /** Every day of the shown month has exactly one cell. */
  lemma GridCoversMonth(currentMonth: Option<Date>, day: Date)
    requires currentMonth.Some?
    requires day.year == JsYear(currentMonth.value.year) && day.month == currentMonth.value.month
    ensures var days := MonthGrid(currentMonth);
      exists j :: 0 <= j < |days| && days[j] == Some(day)
    ensures var days := MonthGrid(currentMonth);
      forall j, k :: 0 <= j < k < |days| && days[j] == Some(day) ==> days[k] != Some(day)
  {
    var first := GetFirstDayOfWeek(currentMonth).value;
    var days := MonthGrid(currentMonth);
    assert days[first + day.day - 1] == Some(day);
  }

  /** `calendarDays`: the blank cells, then the day cells, pushed one at a
      time. */
  method CalendarDays(currentMonth: Option<Date>) returns (days: seq<Option<Date>>)
    ensures days == MonthGrid(currentMonth)
  {
    days := [];
    if currentMonth.None? {
      return;
    }
    var daysInMonth := GetDaysInMonth(currentMonth).value;
    var firstDayOfWeek := GetFirstDayOfWeek(currentMonth).value;
    var year := currentMonth.value.year;
    var month := currentMonth.value.month;
    ghost var grid := MonthGrid(currentMonth);

    var i := 0;
    while i < firstDayOfWeek
      invariant 0 <= i <= firstDayOfWeek
      invariant days == grid[..i]
    {
      assert grid[..i + 1] == grid[..i] + [None];
      days := days + [None];
      i := i + 1;
    }

    var day := 1;
    while day <= daysInMonth
      invariant 1 <= day <= daysInMonth + 1
      invariant days == grid[..firstDayOfWeek + day - 1]
    {
      var cell := CalendarDate(JsYear(year), month, day);
      NormalizeValid(cell);
      assert grid[..firstDayOfWeek + day] == grid[..firstDayOfWeek + day - 1] + [Some(cell)];
      days := days + [Some(MakeDate(year, month, day))];
      day := day + 1;
    }
    assert grid[..|grid|] == grid;
  }

  // ---------------------------------------------------------------------
  // month navigation

  /** The month index counted from year 0. */
  function MonthIndex(d: Date): int {
    12 * d.year + d.month
  }

  /** `handlePrevMonth` as written: `addMonths(currentMonth, -1)`. It goes
      back one month, or stays in the same month when the day overflows. */
  function PrevMonthAsWritten(currentMonth: Option<Date>): (r: Option<Date>)
    ensures r.Some? <==> currentMonth.Some?
    ensures r.Some? ==> MonthIndex(currentMonth.value) - 1 <= MonthIndex(r.value) <= MonthIndex(currentMonth.value)
    ensures r.Some? && currentMonth.value.day <= 28 ==> MonthIndex(r.value) == MonthIndex(currentMonth.value) - 1
  {
    AddMonths(currentMonth, -1)
  }

  /** `handleNextMonth` as written: `addMonths(currentMonth, 1)`. It goes on
      one month, or two when the day overflows the month after. */
  function NextMonthAsWritten(currentMonth: Option<Date>): (r: Option<Date>)
    ensures r.Some? <==> currentMonth.Some?
    ensures r.Some? ==> MonthIndex(currentMonth.value) + 1 <= MonthIndex(r.value) <= MonthIndex(currentMonth.value) + 2
    ensures r.Some? && currentMonth.value.day <= 28 ==> MonthIndex(r.value) == MonthIndex(currentMonth.value) + 1
  {
    AddMonths(currentMonth, 1)
  }

  /** As written, "next month" from the 31st of January 2025 shows March:
      setMonth carries the missing days of February over. */
  lemma NextMonthSkipsFebruary()
    ensures NextMonthAsWritten(Some(CalendarDate(2025, 0, 31))) == Some(CalendarDate(2025, 2, 3))
    ensures MonthIndex(NextMonthAsWritten(Some(CalendarDate(2025, 0, 31))).value) == MonthIndex(CalendarDate(2025, 0, 31)) + 2
  {
    AddMonthsSkipsMonth();
  }

  /** As written, "previous month" from the 31st of March 2025 shows March
      again. */
  lemma PrevMonthStays()
    ensures PrevMonthAsWritten(Some(CalendarDate(2025, 2, 31))) == Some(CalendarDate(2025, 2, 3))
  {
    assert !IsLeapYear(2025) by {
      assert 2025 % 4 == 1;
    }
    assert DaysIn(2025, 1) == 28;
    assert (2 - 1) / 12 == 0 && (2 - 1) % 12 == 1;
  }

  /** The previous month, the day clamped to its length. */
  function PrevMonth(currentMonth: Option<Date>): (r: Option<Date>)
    ensures r.Some? <==> currentMonth.Some?
    ensures r.Some? ==> MonthIndex(r.value) == MonthIndex(currentMonth.value) - 1
  {
    AddMonthsClamped(currentMonth, -1)
  }

  /** The next month, the day clamped to its length. */
  function NextMonth(currentMonth: Option<Date>): (r: Option<Date>)
    ensures r.Some? <==> currentMonth.Some?
    ensures r.Some? ==> MonthIndex(r.value) == MonthIndex(currentMonth.value) + 1
  {
    AddMonthsClamped(currentMonth, 1)
  }

  /** Where the day exists in both months the two definitions agree: the
      difference is only at the ends of months. */
  lemma NextAgrees(d: Date)
    requires d.day <= 28
    ensures NextMonth(Some(d)) == NextMonthAsWritten(Some(d))
  {
    AddMonthsKeepsDay(d, 1);
    var r := NextMonthAsWritten(Some(d)).value;
    SameMonthIndex(NextMonth(Some(d)).value, r);
  }

  lemma PrevAgrees(d: Date)
    requires d.day <= 28
    ensures PrevMonth(Some(d)) == PrevMonthAsWritten(Some(d))
  {
    AddMonthsKeepsDay(d, -1);
    var r := PrevMonthAsWritten(Some(d)).value;
    SameMonthIndex(PrevMonth(Some(d)).value, r);
  }

  /** Two dates with the same month index and day are the same date. */
  lemma SameMonthIndex(a: Date, b: Date)
    requires MonthIndex(a) == MonthIndex(b) && a.day == b.day
    ensures a == b
  {
  }

  /** Forward then back returns to the same month. */
  lemma NextThenPrev(d: Date)
    ensures MonthIndex(PrevMonth(NextMonth(Some(d))).value) == MonthIndex(d)
  {
  }

  // ---------------------------------------------------------------------
  // day flags

  /** `hasEntry`: the day's `year-month-day` string is among the entry
      dates; from year 100 on, a flagged day is the date one of them names. */
  predicate HasEntry(entryDates: set<string>, date: Date): (b: bool)
    ensures b && date.year >= 100 ==> exists s :: s in entryDates && KeyToDate(s) == Some(date)
  {
    if date.year >= 100 then
      KeyRoundTrip(date);
      DateToKey(Some(date)) in entryDates
    else
      DateToKey(Some(date)) in entryDates
  }

  /** `isWeekend`: Sunday or Saturday, never Monday to Friday. */
  predicate IsWeekend(date: Date): (b: bool)
    ensures Weekday(date) == 0 || Weekday(date) == 6 ==> b
    ensures 1 <= Weekday(date) <= 5 ==> !b
  {
    Weekday(date) == 0 || Weekday(date) == 6
  }

  /** The weekend cells are those of the first and the last column. */
  lemma WeekendColumns(currentMonth: Option<Date>, j: int)
    requires currentMonth.Some? && 0 <= j < |MonthGrid(currentMonth)| && MonthGrid(currentMonth)[j].Some?
    ensures IsWeekend(MonthGrid(currentMonth)[j].value) <==> j % 7 == 0 || j % 7 == 6
  {
    GridColumns(currentMonth, j);
  }

  /** The date string getAllEntryDates derives from a day's key is the
      day's `dateToKey`. */
  lemma EntryDateKeyOfDay(d: Date)
    ensures EntryDateKey(GetKey(Some(d))) == DateToKey(Some(d))
  {
    var p := FormatDatePath(Some(d));
    assert '/' !in p.month && '/' !in p.day;
    var s := IntToString(d.year);
    assert p.year == s;
    forall i | 0 <= i < |s|
      ensures s[i] != '/'
    {
      if d.year < 0 && i > 0 {
        assert s[i] == s[1..][i - 1];
      }
    }
    JournalKeyParts(p.year, p.month, p.day);
  }

  /** With the dates of the stored keys as entry dates, a day whose key is
      stored is flagged. */
  lemma HasEntryOfStored(items: map<string, string>, dates: seq<string>, keys: seq<string>, d: Date)
    requires DatesOfKeys(items, dates, keys)
    requires GetKey(Some(d)) in items
    ensures HasEntry(set i | 0 <= i < |dates| :: dates[i], d)
  {
    var k := GetKey(Some(d));
    assert k in JournalKeys(items);
    var i :| 0 <= i < |keys| && keys[i] == k;
    EntryDateKeyOfDay(d);
    assert dates[i] == DateToKey(Some(d));
  }
}
