/**
 * The date picker of the home page: the `YYYY-MM-DD` value of its date input,
 * the split-and-`Number` parse of what the user types, and the "today" and
 * "tomorrow" buttons, which build local midnights by mutating a `Date`.
 * Date values are local time values in milliseconds (see `Calendar`).
 */
module DateSelector {
  import opened Wrappers
  import opened Text
  import opened Calendar

  /** `formatDateForInput`: `${year}-${month}-${day}` with month and day zero-padded. */
  function FormatDateForInput(t: int): string {
    var d := DateOf(t);
    Join([IntToString(d.year), Pad2(d.month), Pad2(d.day)], '-')
  }

  /** JavaScript `Number(part)` on a piece of the input: decimal digits give their value ("" gives 0), anything else `NaN`. */
  function NumberOf(s: string): (r: Option<nat>)
    ensures r.Some? <==> AllDigits(s)
  {
    if AllDigits(s) then Some(DigitsValue(s)) else None
  }

  /**
   * `handleDateInputChange`: the date handed to `onDateChange`, or `None` when
   * the `Date` built from `split('-').map(Number)` is invalid and nothing fires.
   */
  function ParseDateInput(s: string): (r: Option<CalDate>)
    ensures r.Some? <==>
      var parts := Split(s, '-');
      |parts| >= 3 && AllDigits(parts[0]) && AllDigits(parts[1]) && AllDigits(parts[2])
    ensures r.Some? ==> ValidDate(r.value)
  {
    var parts := Split(s, '-');
    if |parts| < 3 then None
    else
      match (NumberOf(parts[0]), NumberOf(parts[1]), NumberOf(parts[2]))
      case (Some(y), Some(m), Some(d)) => Some(NewLocalDate(y, m as int - 1, d))
      case _ => None
  }

  /** Formatting a date and parsing the text back gives the same calendar date, for years from 100 on. */
  lemma FormatParseRoundTrip(t: int)
    requires DateOf(t).year >= 100
    ensures ParseDateInput(FormatDateForInput(t)) == Some(DateOf(t))
  {
    var d := DateOf(t);
    FieldsReadBack(d);
    NewLocalDateOfValid(d);
  }

  /** The three fields of a formatted date with a non-negative year are split apart and read back as numbers. */
  lemma FieldsReadBack(d: CalDate)
    requires ValidDate(d) && d.year >= 0
    ensures var parts := Split(Join([IntToString(d.year), Pad2(d.month), Pad2(d.day)], '-'), '-');
      |parts| == 3
      && NumberOf(parts[0]) == Some(d.year)
      && NumberOf(parts[1]) == Some(d.month)
      && NumberOf(parts[2]) == Some(d.day)
  {
    var parts := [IntToString(d.year), Pad2(d.month), Pad2(d.day)];
    NatToStringRoundTrip(d.year);
    assert parts[0] == NatToString(d.year);
    forall i | 0 <= i < 3
      ensures '-' !in parts[i]
    {
      assert AllDigits(parts[i]);
    }
    SplitJoin(parts, '-');
  }

  /**
   * A year from 0 to 99 typed into the input lands in the 1900s: `new Date(y, ...)`
   * reads it as 1900 + y. Leap day of year 0 is the exception (see `YearZeroLeapDay`).
   */
  lemma TwoDigitYearShifts(t: int)
    requires 0 <= DateOf(t).year <= 99
    requires DateOf(t) != CalDate(0, 2, 29)
    ensures var d := DateOf(t);
      ParseDateInput(FormatDateForInput(t)) == Some(CalDate(1900 + d.year, d.month, d.day))
  {
    var d := DateOf(t);
    FieldsReadBack(d);
    assert ParseDateInput(FormatDateForInput(t)) == Some(NewLocalDate(d.year, d.month - 1, d.day));
    var first := CalDate(1900 + d.year, d.month, 1);
    assert NewLocalDate(d.year, d.month - 1, d.day) == AddDays(first, d.day - 1) by {
      assert (d.month - 1) / 12 == 0 && (d.month - 1) % 12 + 1 == d.month;
    }
    if d.month == 2 && d.year == 0 {
      assert d.day != 29;
      assert DaysInMonth(1900, 2) == 28;
    } else if d.month == 2 {
      LeapYearIn1900s(d.year);
    }
    AddDaysWithinMonth(first, d.day - 1);
  }

  /** Years 1 to 99 and 1901 to 1999 agree on leap years. */
  lemma LeapYearIn1900s(y: int)
    requires 1 <= y <= 99
    ensures IsLeapYear(1900 + y) == IsLeapYear(y)
  {
    assert (1900 + y) % 4 == y % 4;
    assert (1900 + y) % 100 != 0 && y % 100 != 0;
    assert (1900 + y) % 400 != 0 && y % 400 != 0;
  }

  /** Year 0 is a leap year and 1900 is not, so 29 February of year 0 comes back as 1 March 1900. */
  lemma YearZeroLeapDay(t: int)
    requires DateOf(t) == CalDate(0, 2, 29)
    ensures ParseDateInput(FormatDateForInput(t)) == Some(CalDate(1900, 3, 1))
  {
    var d := DateOf(t);
    FieldsReadBack(d);
    assert ParseDateInput(FormatDateForInput(t)) == Some(NewLocalDate(0, 1, 29));
    var first := CalDate(1900, 2, 1);
    assert NewLocalDate(0, 1, 29) == AddDays(first, 28);
    AddDaysWithinMonth(first, 27);
    AddDaysLast(first, 27);
  }

  /** Local midnight of the day of `t`. */
  function MidnightOf(t: int): (r: int)
    ensures MsOfDay(r) == 0 && DateOf(r) == DateOf(t)
    ensures r <= t < r + MsPerDay
  {
    DivModUnique(DayOf(t) * MsPerDay, MsPerDay, DayOf(t), 0);
    DayOf(t) * MsPerDay
  }

  /** `getTodayDate`: a new `Date` at the clock's local midnight. */
  method GetTodayDate(now: int) returns (date: JsDate)
    ensures fresh(date)
    ensures date.time == MidnightOf(now)
  {
    date := new JsDate(now);
    date.SetTimeOfDay(0, 0, 0, 0);
  }

  /** `getTomorrowDate`: midnight, then `setDate(getDate() + 1)`. */
  method GetTomorrowDate(now: int) returns (date: JsDate)
    ensures fresh(date)
    ensures date.time == MidnightOf(now) + MsPerDay
  {
    date := new JsDate(now);
    date.SetTimeOfDay(0, 0, 0, 0);
    date.SetDate(date.GetDate() + 1);
  }

  /** Tomorrow's value is the midnight that starts the next calendar day. */
  lemma TomorrowIsNextDay(now: int)
    ensures var tomorrow := MidnightOf(now) + MsPerDay;
      MsOfDay(tomorrow) == 0 && DateOf(tomorrow) == NextDay(DateOf(now))
  {
    var n := DayOf(now);
    DivModUnique((n + 1) * MsPerDay, MsPerDay, n + 1, 0);
    DateOfDaySucc(n);
  }

  /** `toDateString()` equality: the same local calendar date. */
  predicate SameDay(a: int, b: int) {
    DateOf(a) == DateOf(b)
  }

  /** The selected date is never highlighted as both "today" and "tomorrow". */
  lemma TodayAndTomorrowExclusive(selected: int, now: int)
    ensures !(SameDay(selected, MidnightOf(now)) && SameDay(selected, MidnightOf(now) + MsPerDay))
  {
    TomorrowIsNextDay(now);
  }
}
