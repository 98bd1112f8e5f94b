/** Calendar dates as the program's JavaScript `Date` values present them
    (full year, 0-based month, day of month), the `new Date(y, m, d)`
    overflow rule, and the date helpers: path and key formatting, key
    parsing, month start and end, weekday and month shifting.

    Dates are local calendar days; the time of day plays no part in any of
    the helpers. A `Date` that is "Invalid Date" (NaN) is `None`. */
module DateUtils {
  import opened Wrappers
  import opened Strings

  datatype CalendarDate = CalendarDate(year: int, month: int, day: int)

  /** Gregorian leap years, extended to all integer years. */
  predicate IsLeapYear(y: int) {
    y % 4 == 0 && (y % 100 != 0 || y % 400 == 0)
  }

  function DaysIn(y: int, m: int): (n: int)
    requires 0 <= m < 12
    ensures 28 <= n <= 31
    ensures n == 29 <==> m == 1 && IsLeapYear(y)
  {
    if m == 1 then (if IsLeapYear(y) then 29 else 28)
    else if m == 3 || m == 5 || m == 8 || m == 10 then 30
    else 31
  }

  predicate ValidDate(d: CalendarDate) {
    0 <= d.month < 12 && 1 <= d.day <= DaysIn(d.year, d.month)
  }

  /** A calendar day that exists. */
  type Date = d: CalendarDate | ValidDate(d) witness CalendarDate(1970, 0, 1)

  // ---------------------------------------------------------------------
  // Day numbers, counting 1 January of year 0 as day 0 (negative before it).

  /** Days in the years before year y (negative for y < 0): 365 a year and
      one for each leap year among them. */
  function DaysBeforeYear(y: int): int {
    365 * y + (y + 3) / 4 - (y + 99) / 100 + (y + 399) / 400
  }

  lemma DaysBeforeYearStep(y: int)
    ensures DaysBeforeYear(y + 1) == DaysBeforeYear(y) + if IsLeapYear(y) then 366 else 365
  {
    StepBy4(y);
    StepBy100(y);
    StepBy400(y);
    DivisorsOfCentury(y);
  }

  /** A year divisible by 400 is divisible by 100, and one divisible by 100
      is divisible by 4. */
  lemma DivisorsOfCentury(y: int)
    ensures y % 400 == 0 ==> y % 100 == 0
    ensures y % 100 == 0 ==> y % 4 == 0
  {
    if y % 400 == 0 {
      MultipleMod(y / 400 * 4, 100);
    }
    if y % 100 == 0 {
      MultipleMod(y / 100 * 25, 4);
    }
  }

  lemma MultipleMod(k: int, n: int)
    requires n > 0
    ensures (k * n) % n == 0
  {
    var q, r := (k * n) / n, (k * n) % n;
    assert (q - k) * n + r == 0;
    ProductBounds(q - k, n);
  }

  /** A non-zero multiple of a positive number is at least that number away from zero. */
  lemma ProductBounds(a: int, n: int)
    requires n > 0
    ensures a >= 1 ==> a * n >= n
    ensures a <= -1 ==> a * n <= -n
  {
    if a >= 1 {
      assert a * n == (a - 1) * n + n;
    } else if a <= -1 {
      assert a * n == (a + 1) * n - n;
    }
  }

  /** How each of the three leap-year terms moves from one year to the next. */
  lemma StepBy4(y: int)
    ensures (y + 4) / 4 == y / 4 + 1 && (y + 3) / 4 == if y % 4 == 0 then y / 4 else y / 4 + 1
  {
  }

  lemma StepBy100(y: int)
    ensures (y + 100) / 100 == y / 100 + 1 && (y + 99) / 100 == if y % 100 == 0 then y / 100 else y / 100 + 1
  {
  }

  lemma StepBy400(y: int)
    ensures (y + 400) / 400 == y / 400 + 1 && (y + 399) / 400 == if y % 400 == 0 then y / 400 else y / 400 + 1
  {
  }

  lemma {:induction false} DaysBeforeYearMonotone(y1: int, y2: int)
    requires y1 <= y2
    ensures DaysBeforeYear(y1) + 365 * (y2 - y1) <= DaysBeforeYear(y2)
    decreases y2 - y1
  {
    if y1 < y2 {
      DaysBeforeYearMonotone(y1, y2 - 1);
      DaysBeforeYearStep(y2 - 1);
    }
  }

  /** Days in the months of year y before month m. */
  function DaysBeforeMonth(y: int, m: int): int
    requires 0 <= m < 12
  {
    [0, 31, 59, 90, 120, 151, 181, 212, 243, 273, 304, 334][m]
    + (if m >= 2 && IsLeapYear(y) then 1 else 0)
  }

  /** The number of the first day of month m of year y. */
  function MonthStart(y: int, m: int): int
    requires 0 <= m < 12
  {
    DaysBeforeYear(y) + DaysBeforeMonth(y, m)
  }

  /** The next month starts as many days later as this month has. */
  lemma MonthStartNext(y: int, m: int)
    requires 0 <= m < 12
    ensures MonthStart(y, m) + DaysIn(y, m) == if m < 11 then MonthStart(y, m + 1) else MonthStart(y + 1, 0)
  {
    if m == 11 {
      DaysBeforeYearStep(y);
    }
  }

  lemma {:induction false} MonthStartSameYear(y: int, m1: int, m2: int)
    requires 0 <= m1 < m2 < 12
    ensures MonthStart(y, m1) + DaysIn(y, m1) <= MonthStart(y, m2)
    decreases m2 - m1
  {
    MonthStartNext(y, m1);
    if m1 + 1 < m2 {
      MonthStartSameYear(y, m1 + 1, m2);
    }
  }

  /** The number of a day. */
  function DayNumber(d: Date): int {
    MonthStart(d.year, d.month) + d.day - 1
  }

  /** Every day of a year comes before the first day of the next. */
  lemma BeforeNextYear(a: Date)
    ensures DayNumber(a) < DaysBeforeYear(a.year + 1)
  {
    if a.month < 11 {
      MonthStartSameYear(a.year, a.month, 11);
    }
    MonthStartNext(a.year, 11);
  }

  /** Days in earlier months have smaller numbers. */
  lemma DayNumberMonthOrder(a: Date, b: Date)
    requires a.year < b.year || (a.year == b.year && a.month < b.month)
    ensures DayNumber(a) < DayNumber(b)
  {
    if a.year < b.year {
      BeforeNextYear(a);
      DaysBeforeYearMonotone(a.year + 1, b.year);
      assert DaysBeforeYear(b.year) <= MonthStart(b.year, b.month);
    } else {
      MonthStartSameYear(a.year, a.month, b.month);
    }
  }

  /** Distinct days have distinct numbers, and the numbers follow the
      calendar order of (year, month, day). */
  lemma DayNumberOrder(a: Date, b: Date)
    ensures DayNumber(a) == DayNumber(b) <==> a == b
    ensures DayNumber(a) < DayNumber(b) <==>
      (a.year < b.year || (a.year == b.year && (a.month < b.month || (a.month == b.month && a.day < b.day))))
  {
    if a.year < b.year || (a.year == b.year && a.month < b.month) {
      DayNumberMonthOrder(a, b);
    } else if b.year < a.year || (a.year == b.year && b.month < a.month) {
      DayNumberMonthOrder(b, a);
    }
  }

  /** Counting `d` days on from the first day of month m of year y, d >= 1. */
  function Carry(y: int, m: int, d: int): Date
    requires 0 <= m < 12 && d >= 1
    decreases d
  {
    if d <= DaysIn(y, m) then CalendarDate(y, m, d)
    else if m < 11 then Carry(y, m + 1, d - DaysIn(y, m))
    else Carry(y + 1, 0, d - DaysIn(y, m))
  }

  /** Counting back from the first day of month m of year y, for d up to
      the length of that month. */
  function Borrow(y: int, m: int, d: int): Date
    requires 0 <= m < 12 && d <= DaysIn(y, m)
    decreases 1 - d
  {
    if d >= 1 then CalendarDate(y, m, d)
    else if m > 0 then Borrow(y, m - 1, d + DaysIn(y, m - 1))
    else Borrow(y - 1, 11, d + DaysIn(y - 1, 11))
  }

  /** The date `d - 1` days after the first day of month `m` (0-based,
      any integer) of year `y`: JavaScript's MakeDay. A month outside 0..11
      moves into earlier or later years; a day outside the month moves into
      earlier or later months (NormalizeDayNumber). */
  function Normalize(y: int, m: int, d: int): (r: Date)
    ensures 1 <= d <= DaysIn(y + m / 12, m % 12) ==> r == CalendarDate(y + m / 12, m % 12, d)
  {
    if d >= 1 then Carry(y + m / 12, m % 12, d) else Borrow(y + m / 12, m % 12, d)
  }

  lemma {:induction false} CarryDayNumber(y: int, m: int, d: int)
    requires 0 <= m < 12 && d >= 1
    ensures DayNumber(Carry(y, m, d)) == MonthStart(y, m) + d - 1
    decreases d
  {
    if d > DaysIn(y, m) {
      MonthStartNext(y, m);
      if m < 11 {
        CarryDayNumber(y, m + 1, d - DaysIn(y, m));
      } else {
        CarryDayNumber(y + 1, 0, d - DaysIn(y, m));
      }
    }
  }

  lemma {:induction false} BorrowDayNumber(y: int, m: int, d: int)
    requires 0 <= m < 12 && d <= DaysIn(y, m)
    ensures DayNumber(Borrow(y, m, d)) == MonthStart(y, m) + d - 1
    decreases 1 - d
  {
    if d < 1 {
      var py, pm := if m > 0 then y else y - 1, if m > 0 then m - 1 else 11;
      var e := d + DaysIn(py, pm);
      assert Borrow(y, m, d) == Borrow(py, pm, e);
      BorrowDayNumber(py, pm, e);
      MonthStartNext(py, pm);
    }
  }

  /** Normalize is MakeDay: its result is the day numbered `d - 1` after the
      first day of the month, and (DayNumberOrder) the only such date. */
  lemma NormalizeDayNumber(y: int, m: int, d: int)
    ensures DayNumber(Normalize(y, m, d)) == MonthStart(y + m / 12, m % 12) + d - 1
  {
    if d >= 1 {
      CarryDayNumber(y + m / 12, m % 12, d);
    } else {
      BorrowDayNumber(y + m / 12, m % 12, d);
    }
  }

  /** A date that exists is left as it is. */
  lemma NormalizeValid(d: Date)
    ensures Normalize(d.year, d.month, d.day) == d
  {
    assert d.month / 12 == 0 && d.month % 12 == d.month;
  }

  /** The day of the week, 0 for Sunday to 6 for Saturday. 1 January of
      year 0 of the proleptic Gregorian calendar was a Saturday. */
  function Weekday(d: Date): (w: int)
    ensures 0 <= w < 7
  {
    (DayNumber(d) + 6) % 7
  }

  lemma ModSeven(n: int, i: nat)
    ensures (n + i) % 7 == (n % 7 + i) % 7
  {
    var q := n / 7;
    assert n == 7 * q + n % 7;
    assert n + i == 7 * q + (n % 7 + i);
  }

  /** Within a month the weekday advances by one, modulo 7, from each day
      to the next: day 1 + i falls i weekdays after day 1. */
  lemma WeekdayInMonth(y: int, m: int, i: nat)
    requires 0 <= m < 12 && 1 + i <= DaysIn(y, m)
    ensures Weekday(CalendarDate(y, m, 1 + i)) == (Weekday(CalendarDate(y, m, 1)) + i) % 7
  {
    ModSeven(MonthStart(y, m) + 6, i);
  }

  /** 1 January 2000 was a Saturday and 15 October 2026 a Thursday. */
  lemma WeekdayExamples()
    ensures Weekday(CalendarDate(2000, 0, 1)) == 6
    ensures Weekday(CalendarDate(2026, 9, 15)) == 4
  {
  }

  // ---------------------------------------------------------------------
  // The Date constructor.

  /** `new Date(y, ...)` reads a year from 0 to 99 as 1900 to 1999. */
  function JsYear(y: int): (r: int)
    ensures 0 <= y <= 99 ==> r == 1900 + y
    ensures !(0 <= y <= 99) ==> r == y
  {
    if 0 <= y <= 99 then 1900 + y else y
  }

  /** `new Date(y, m, d)` with three numbers: arguments naming a day of the
      constructor's year give that day; others carry over (MakeDateOverflow,
      NormalizeDayNumber). */
  function MakeDate(y: int, m: int, d: int): (r: Date)
    ensures 0 <= m < 12 && 1 <= d <= DaysIn(JsYear(y), m) ==> r == CalendarDate(JsYear(y), m, d)
  {
    Normalize(JsYear(y), m, d)
  }

  /** `new Date(y, m, d)`: an Invalid Date when any argument is NaN. */
  function NewDate(y: Option<int>, m: Option<int>, d: Option<int>): (r: Option<Date>)
    ensures r.Some? <==> y.Some? && m.Some? && d.Some?
    ensures r.Some? ==> r.value == MakeDate(y.value, m.value, d.value)
  {
    if y.Some? && m.Some? && d.Some? then Some(MakeDate(y.value, m.value, d.value)) else None
  }

  // ---------------------------------------------------------------------
  // formatDatePath, dateToKey, keyToDate

  datatype DatePath = DatePath(year: string, month: string, day: string)

  /** `formatDatePath`: the year in decimal, the 1-based month and the day
      padded to two digits; "NaN" three times for an Invalid Date. */
  function FormatDatePath(d: Option<Date>): (p: DatePath)
    ensures d.None? ==> p == DatePath("NaN", "NaN", "NaN")
    ensures d.Some? ==> NumberOf(p.year) == Some(d.value.year)
    ensures d.Some? ==> |p.month| == 2 && AllDigits(p.month) && DigitsValue(p.month) == d.value.month + 1
    ensures d.Some? ==> |p.day| == 2 && AllDigits(p.day) && DigitsValue(p.day) == d.value.day
    ensures d.Some? && d.value.year >= 0 ==> AllDigits(p.year)
  {
    match d
    case None => DatePath("NaN", "NaN", "NaN")
    case Some(date) =>
      NumberOfIntToString(date.year);
      TwoDigits(date.month + 1);
      TwoDigits(date.day);
      DatePath(IntToString(date.year), PadStart2(NatToString(date.month + 1)), PadStart2(NatToString(date.day)))
  }

  /** `dateToKey`: `year-month-day` from formatDatePath. Unless the year
      is negative, splitting the key on '-' gives the three path parts back. */
  function DateToKey(d: Option<Date>): (k: string)
    ensures d.None? || d.value.year >= 0 ==>
      var p := FormatDatePath(d); Split(k, '-') == [p.year, p.month, p.day]
  {
    var p := FormatDatePath(d);
    var k := p.year + "-" + p.month + "-" + p.day;
    if d.None? then
      KeyParts(p);
      k
    else if d.value.year >= 0 then
      DigitsNoDash(p.year);
      DigitsNoDash(p.month);
      DigitsNoDash(p.day);
      KeyParts(p);
      k
    else
      k
  }

  /** The parts of a date path with no '-' in them split back from the key. */
  lemma KeyParts(p: DatePath)
    requires '-' !in p.year && '-' !in p.month && '-' !in p.day
    ensures Split(p.year + "-" + p.month + "-" + p.day, '-') == [p.year, p.month, p.day]
  {
    assert p.year + "-" + p.month + "-" + p.day == p.year + ['-'] + p.month + ['-'] + p.day;
    Split3(p.year, p.month, p.day, '-');
  }

  /** A digit string holds no '-'. */
  lemma DigitsNoDash(s: string)
    requires AllDigits(s)
    ensures '-' !in s
  {
    assert !IsDigit('-');
  }

  /** `keyToDate`: split on '-', exactly three parts, each read by
      `Number()`; the month is 1-based. There is no range check: the Date
      constructor carries an out-of-range month or day over. */
  function KeyToDate(key: string): (r: Option<Date>)
    ensures |Split(key, '-')| != 3 ==> r.None?
    ensures r.Some? <==> (|Split(key, '-')| == 3
      && NumberOf(Split(key, '-')[0]).Some?
      && NumberOf(Split(key, '-')[1]).Some?
      && NumberOf(Split(key, '-')[2]).Some?)
  {
    var parts := Split(key, '-');
    if |parts| != 3 then None
    else
      var year := NumberOf(parts[0]);
      var month := NumberOf(parts[1]);
      var day := NumberOf(parts[2]);
      NewDate(year, if month.Some? then Some(month.value - 1) else None, day)
  }

  /** A key of three parts without '-' reads each part with Number(). */
  lemma KeyToDateParts(a: string, b: string, c: string)
    requires '-' !in a && '-' !in b && '-' !in c
    ensures KeyToDate(a + "-" + b + "-" + c) ==
      NewDate(NumberOf(a), if NumberOf(b).Some? then Some(NumberOf(b).value - 1) else None, NumberOf(c))
  {
    Split3(a, b, c, '-');
  }

  /** A key written by dateToKey reads back as the same day, for years from
      100 on (earlier years meet the 1900 rule of the Date constructor). */
  lemma KeyRoundTrip(d: Date)
    requires d.year >= 100
    ensures KeyToDate(DateToKey(Some(d))) == Some(d)
  {
    var p := FormatDatePath(Some(d));
    KeyOfDigitParts(p.year, p.month, p.day, d);
  }

  lemma KeyOfDigitParts(ys: string, ms: string, ds: string, d: Date)
    requires d.year >= 100
    requires AllDigits(ys) && NumberOf(ys) == Some(d.year)
    requires |ms| >= 1 && AllDigits(ms) && DigitsValue(ms) == d.month + 1
    requires |ds| >= 1 && AllDigits(ds) && DigitsValue(ds) == d.day
    ensures KeyToDate(ys + "-" + ms + "-" + ds) == Some(d)
  {
    assert '-' !in ys && '-' !in ms && '-' !in ds by {
      assert !IsDigit('-');
    }
    assert NumberOf(ms) == Some(d.month + 1) by {
      NumberOfDigits(ms);
    }
    assert NumberOf(ds) == Some(d.day) by {
      NumberOfDigits(ds);
    }
    KeyToDateNumbers(ys, ms, ds, d.year, d.month + 1, d.day);
    MakeDateValid(d);
  }

  /** A key of three numbers reads as the date the Date constructor makes
      of them, with the month made 0-based. */
  lemma KeyToDateNumbers(ys: string, ms: string, ds: string, y: int, m: int, d: int)
    requires '-' !in ys && '-' !in ms && '-' !in ds
    requires NumberOf(ys) == Some(y) && NumberOf(ms) == Some(m) && NumberOf(ds) == Some(d)
    ensures KeyToDate(ys + "-" + ms + "-" + ds) == NewDate(Some(y), Some(m - 1), Some(d))
  {
    KeyToDateParts(ys, ms, ds);
  }

  /** The Date constructor keeps a date that exists, from year 100 on. */
  lemma MakeDateValid(d: Date)
    requires d.year >= 100
    ensures MakeDate(d.year, d.month, d.day) == d
  {
    NormalizeValid(d);
  }

  /** The month and day of a key are not range-checked (KeyToDateNumbers):
      "2024-13-01" is month 12 (0-based) of 2024, which is January 2025, and
      "2024-13-40" is day 40 of it, 9 February 2025. A key year from 0 to 99
      is read as 1900 to 1999. */
  lemma MakeDateOverflow()
    ensures MakeDate(2024, 12, 1) == CalendarDate(2025, 0, 1)
    ensures MakeDate(2024, 12, 40) == CalendarDate(2025, 1, 9)
    ensures MakeDate(2024, 0, 0) == CalendarDate(2023, 11, 31)
    ensures MakeDate(50, 0, 1) == CalendarDate(1950, 0, 1)
  {
  }

  // ---------------------------------------------------------------------
  // isSameDay and the month helpers

  /** `isSameDay`: the same year, month and day; an Invalid Date is the same
      day as nothing. */
  function IsSameDay(a: Option<Date>, b: Option<Date>): (r: bool)
    ensures r <==> a.Some? && b.Some? && a.value == b.value
  {
    a.Some? && b.Some?
    && a.value.year == b.value.year && a.value.month == b.value.month && a.value.day == b.value.day
  }

  lemma IsSameDayReflexiveSymmetric(a: Option<Date>, b: Option<Date>)
    ensures a.Some? ==> IsSameDay(a, a)
    ensures IsSameDay(a, b) == IsSameDay(b, a)
  {
  }

  /** `getStartOfMonth`: day 1 of the same month (of the year the Date
      constructor makes of it). */
  function GetStartOfMonth(d: Option<Date>): (r: Option<Date>)
    ensures r.Some? <==> d.Some?
    ensures d.Some? ==> r.value == CalendarDate(JsYear(d.value.year), d.value.month, 1)
  {
    match d
    case None => None
    case Some(date) =>
      NormalizeValid(CalendarDate(JsYear(date.year), date.month, 1));
      Some(MakeDate(date.year, date.month, 1))
  }

  /** `getEndOfMonth`: day 0 of the next month, which is the last day of
      this one. */
  function GetEndOfMonth(d: Option<Date>): (r: Option<Date>)
    ensures r.Some? <==> d.Some?
    ensures d.Some? ==> var y := JsYear(d.value.year);
      r.value == CalendarDate(y, d.value.month, DaysIn(y, d.value.month))
  {
    match d
    case None => None
    case Some(date) =>
      var y := JsYear(date.year);
      assert date.month < 11 ==> (date.month + 1) / 12 == 0 && (date.month + 1) % 12 == date.month + 1;
      assert date.month == 11 ==> (date.month + 1) / 12 == 1 && (date.month + 1) % 12 == 0;
      Some(MakeDate(date.year, date.month + 1, 0))
  }

  /** `getDaysInMonth`: 28 to 31 by the Gregorian leap rule; NaN (None) for
      an Invalid Date. */
  function GetDaysInMonth(d: Option<Date>): (r: Option<int>)
    ensures r.Some? <==> d.Some?
    ensures d.Some? ==> 28 <= r.value <= 31 && r.value == DaysIn(JsYear(d.value.year), d.value.month)
  {
    match GetEndOfMonth(d)
    case None => None
    case Some(end) => Some(end.day)
  }

  /** `getFirstDayOfWeek`: the weekday, 0 to 6, of the first of the month. */
  function GetFirstDayOfWeek(d: Option<Date>): (r: Option<int>)
    ensures r.Some? <==> d.Some?
    ensures d.Some? ==> (0 <= r.value < 7
      && r.value == Weekday(CalendarDate(JsYear(d.value.year), d.value.month, 1)))
  {
    match GetStartOfMonth(d)
    case None => None
    case Some(start) => Some(Weekday(start))
  }

  /** `addMonths`: `setMonth(getMonth() + k)` on a copy, so the argument is
      not changed. The day of month is kept when the target month has it;
      otherwise it carries over into the month after the target. */
  function AddMonths(d: Option<Date>, k: int): (r: Option<Date>)
    ensures r.Some? <==> d.Some?
    ensures d.Some? ==>
      var mk := d.value.month + k;
      var y, m := d.value.year + mk / 12, mk % 12;
      && (d.value.day <= DaysIn(y, m) ==> r.value == CalendarDate(y, m, d.value.day))
      && (d.value.day > DaysIn(y, m) ==>
            r.value == if m < 11 then CalendarDate(y, m + 1, d.value.day - DaysIn(y, m))
                       else CalendarDate(y + 1, 0, d.value.day - DaysIn(y, m)))
  {
    match d
    case None => None
    case Some(date) =>
      var mk := date.month + k;
      CarryOnce(date.year + mk / 12, mk % 12, date.day);
      Some(Normalize(date.year, mk, date.day))
  }

  /** A day at most 28 past the end of its month lands in the next month. */
  lemma CarryOnce(y: int, m: int, d: int)
    requires 0 <= m < 12 && 1 <= d <= DaysIn(y, m) + 28
    ensures d > DaysIn(y, m) ==>
      Carry(y, m, d) == if m < 11 then CalendarDate(y, m + 1, d - DaysIn(y, m)) else CalendarDate(y + 1, 0, d - DaysIn(y, m))
  {
  }

  /** For a day of month up to 28 the month moves by exactly k, with the
      year carried, and the day stays. */
  lemma AddMonthsKeepsDay(d: Date, k: int)
    requires d.day <= 28
    ensures AddMonths(Some(d), k) == Some(CalendarDate(d.year + (d.month + k) / 12, (d.month + k) % 12, d.day))
  {
    var r := AddMonths(Some(d), k);
    assert d.day <= DaysIn(d.year + (d.month + k) / 12, (d.month + k) % 12);
  }

  /** From the 31st of January one month on is the 3rd of March (2025 is not
      a leap year): February is skipped. */
  lemma AddMonthsSkipsMonth()
    ensures AddMonths(Some(CalendarDate(2025, 0, 31)), 1) == Some(CalendarDate(2025, 2, 3))
  {
    assert !IsLeapYear(2025) by {
      assert 2025 % 4 == 1;
    }
    assert DaysIn(2025, 1) == 28;
    assert (0 + 1) / 12 == 0 && (0 + 1) % 12 == 1;
  }

  /** Moving by k months and landing in the month k months on: the day is
      clamped to the length of the target month. */
  function AddMonthsClamped(d: Option<Date>, k: int): (r: Option<Date>)
    ensures r.Some? <==> d.Some?
    ensures d.Some? ==> 12 * r.value.year + r.value.month == 12 * d.value.year + d.value.month + k
    ensures d.Some? ==> r.value.day == if d.value.day <= DaysIn(r.value.year, r.value.month)
      then d.value.day else DaysIn(r.value.year, r.value.month)
  {
    match d
    case None => None
    case Some(date) =>
      var y := date.year + (date.month + k) / 12;
      var m := (date.month + k) % 12;
      var day := if date.day <= DaysIn(y, m) then date.day else DaysIn(y, m);
      Some(CalendarDate(y, m, day))
  }

  /** With the clamp, January 31 moves to the last day of February. */
  lemma AddMonthsClampedEndOfMonth()
    ensures AddMonthsClamped(Some(CalendarDate(2025, 0, 31)), 1) == Some(CalendarDate(2025, 1, 28))
    ensures AddMonthsClamped(Some(CalendarDate(2024, 2, 31)), -1) == Some(CalendarDate(2024, 1, 29))
  {
    assert !IsLeapYear(2025) by {
      assert 2025 % 4 == 1;
    }
    assert IsLeapYear(2024) by {
      assert 2024 % 4 == 0 && 2024 % 100 == 24;
    }
    assert (0 + 1) / 12 == 0 && (0 + 1) % 12 == 1;
    assert (2 - 1) / 12 == 0 && (2 - 1) % 12 == 1;
  }
}
