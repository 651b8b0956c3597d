/**
 * Local calendar and clock arithmetic of JavaScript's `Date`, without time
 * zones or daylight saving: a date value is an integer count of milliseconds
 * of local time since 1970-01-01 00:00, and calendar fields are read off it
 * through the proleptic Gregorian calendar.
 */
module Calendar {

  /** A calendar date as (year, month 1..12, day of month). */
  datatype CalDate = CalDate(year: int, month: int, day: int)

  predicate IsLeapYear(y: int) {
    (y % 4 == 0 && y % 100 != 0) || y % 400 == 0
  }

  function DaysInMonth(y: int, m: int): (n: int)
    requires 1 <= m <= 12
    ensures 28 <= n <= 31
  {
    if m == 2 then (if IsLeapYear(y) then 29 else 28)
    else if m == 4 || m == 6 || m == 9 || m == 11 then 30
    else 31
  }

  predicate ValidDate(d: CalDate) {
    1 <= d.month <= 12 && 1 <= d.day <= DaysInMonth(d.year, d.month)
  }

  /** Chronological order of dates: lexicographic on (year, month, day). */
  predicate Before(a: CalDate, b: CalDate) {
    a.year < b.year
    || (a.year == b.year && (a.month < b.month || (a.month == b.month && a.day < b.day)))
  }

  function NextDay(d: CalDate): (r: CalDate)
    requires ValidDate(d)
    ensures ValidDate(r) && Before(d, r)
  {
    if d.day < DaysInMonth(d.year, d.month) then CalDate(d.year, d.month, d.day + 1)
    else if d.month < 12 then CalDate(d.year, d.month + 1, 1)
    else CalDate(d.year + 1, 1, 1)
  }

  function PrevDay(d: CalDate): (r: CalDate)
    requires ValidDate(d)
    ensures ValidDate(r) && Before(r, d)
  {
    if d.day > 1 then CalDate(d.year, d.month, d.day - 1)
    else if d.month > 1 then CalDate(d.year, d.month - 1, DaysInMonth(d.year, d.month - 1))
    else CalDate(d.year - 1, 12, 31)
  }

  /** Stepping a day forward and one back, or back and forward, returns the same date. */
  lemma NextPrevInverse(d: CalDate)
    requires ValidDate(d)
    ensures PrevDay(NextDay(d)) == d
    ensures NextDay(PrevDay(d)) == d
  {
  }

  const Epoch := CalDate(1970, 1, 1)

  /** The local calendar date of day number `n` (day 0 is 1970-01-01). */
  function DateOfDay(n: int): (r: CalDate)
    ensures ValidDate(r)
    decreases if n >= 0 then n else -n
  {
    if n == 0 then Epoch
    else if n > 0 then NextDay(DateOfDay(n - 1))
    else PrevDay(DateOfDay(n + 1))
  }

  /** Consecutive day numbers are consecutive dates. */
  lemma DateOfDaySucc(n: int)
    ensures DateOfDay(n + 1) == NextDay(DateOfDay(n))
  {
    if n < 0 {
      NextPrevInverse(DateOfDay(n + 1));
    }
  }

  /** Later day numbers are later dates; in particular distinct day numbers are distinct dates. */
  lemma {:induction false} DateOfDayMonotone(n: int, m: int)
    requires n < m
    ensures Before(DateOfDay(n), DateOfDay(m))
    decreases m - n
  {
    DateOfDaySucc(m - 1);
    if n < m - 1 {
      DateOfDayMonotone(n, m - 1);
    }
  }

  /** `k` days after (or, for negative `k`, before) `d`. */
  function AddDays(d: CalDate, k: int): (r: CalDate)
    requires ValidDate(d)
    ensures ValidDate(r)
    decreases if k >= 0 then k else -k
  {
    if k == 0 then d
    else if k > 0 then AddDays(NextDay(d), k - 1)
    else AddDays(PrevDay(d), k + 1)
  }

  lemma {:induction false} AddDaysWithinMonth(d: CalDate, k: nat)
    requires ValidDate(d) && d.day + k <= DaysInMonth(d.year, d.month)
    ensures AddDays(d, k) == CalDate(d.year, d.month, d.day + k)
    decreases k
  {
    if k > 0 {
      AddDaysWithinMonth(NextDay(d), k - 1);
    }
  }

  /** One day more is the day after. */
  lemma {:induction false} AddDaysLast(d: CalDate, k: nat)
    requires ValidDate(d)
    ensures AddDays(d, k + 1) == NextDay(AddDays(d, k))
    decreases k
  {
    if k > 0 {
      AddDaysLast(NextDay(d), k - 1);
    }
  }

  /**
   * `new Date(y, monthIndex, dt)`: a year 0..99 means 1900..1999, the month
   * index carries into the year and the day carries across months.
   */
  function NewLocalDate(y: int, monthIndex: int, dt: int): CalDate {
    var yr := if 0 <= y <= 99 then 1900 + y else y;
    AddDays(CalDate(yr + monthIndex / 12, monthIndex % 12 + 1, 1), dt - 1)
  }

  /** A valid date whose year is not in 0..99 comes back unchanged from the constructor. */
  lemma NewLocalDateOfValid(d: CalDate)
    requires ValidDate(d) && (d.year < 0 || d.year >= 100)
    ensures NewLocalDate(d.year, d.month - 1, d.day) == d
  {
    AddDaysWithinMonth(CalDate(d.year, d.month, 1), d.day - 1);
  }

  const MsPerSecond := 1000
  const MsPerMinute := 60000
  const MsPerHour := 3600000
  const MsPerDay := 86400000

  /** Day number of a local time value (JavaScript's `Day(t)`, a floor division). */
  function DayOf(t: int): int { t / MsPerDay }

  function MsOfDay(t: int): (r: int)
    ensures 0 <= r < MsPerDay
  {
    t % MsPerDay
  }

  function HoursOf(t: int): (r: int)
    ensures 0 <= r < 24
  {
    MsOfDay(t) / MsPerHour
  }

  function MinutesOf(t: int): (r: int)
    ensures 0 <= r < 60
  {
    (MsOfDay(t) % MsPerHour) / MsPerMinute
  }

  function SecondsOf(t: int): (r: int)
    ensures 0 <= r < 60
  {
    (MsOfDay(t) % MsPerMinute) / MsPerSecond
  }

  function MillisOf(t: int): (r: int)
    ensures 0 <= r < 1000
  {
    MsOfDay(t) % MsPerSecond
  }

  /** The local calendar date of a time value (`getFullYear`, `getMonth() + 1`, `getDate`). */
  function DateOf(t: int): (r: CalDate)
    ensures ValidDate(r)
  {
    DateOfDay(DayOf(t))
  }

  /** JavaScript's `MakeDate(day, MakeTime(h, m, s, ms))`; out-of-range fields simply add up. */
  function MakeTime(day: int, h: int, m: int, s: int, ms: int): int {
    day * MsPerDay + h * MsPerHour + m * MsPerMinute + s * MsPerSecond + ms
  }

  /** A time value is the sum of its fields. */
  lemma Decompose(t: int)
    ensures t == MakeTime(DayOf(t), HoursOf(t), MinutesOf(t), SecondsOf(t), MillisOf(t))
  {
    var x := MsOfDay(t);
    assert t == DayOf(t) * MsPerDay + x;
    assert x == HoursOf(t) * MsPerHour + x % MsPerHour;
    var y := x % MsPerHour;
    assert y == MinutesOf(t) * MsPerMinute + y % MsPerMinute;
    assert y % MsPerMinute == x % MsPerMinute;
    var z := x % MsPerMinute;
    assert z == SecondsOf(t) * MsPerSecond + z % MsPerSecond;
    assert z % MsPerSecond == MillisOf(t);
  }

  lemma MulAtLeast(k: int, d: int)
    requires k >= 1 && d > 0
    ensures k * d >= d
  {
  }

  lemma DivModUnique(a: int, d: int, q: int, r: int)
    requires d > 0 && a == q * d + r && 0 <= r < d
    ensures a / d == q && a % d == r
  {
    var q', r' := a / d, a % d;
    assert (q - q') * d == r' - r;
    if q > q' {
      MulAtLeast(q - q', d);
    } else if q < q' {
      MulAtLeast(q' - q, d);
    }
  }

  /** In-range fields are read back from the time value they make. */
  lemma Compose(day: int, h: int, m: int, s: int, ms: int)
    requires 0 <= h < 24 && 0 <= m < 60 && 0 <= s < 60 && 0 <= ms < 1000
    ensures var t := MakeTime(day, h, m, s, ms);
      DayOf(t) == day && HoursOf(t) == h && MinutesOf(t) == m && SecondsOf(t) == s && MillisOf(t) == ms
  {
    var t := MakeTime(day, h, m, s, ms);
    var z := s * MsPerSecond + ms;
    var y := m * MsPerMinute + z;
    var x := h * MsPerHour + y;
    DivModUnique(t, MsPerDay, day, x);
    DivModUnique(x, MsPerHour, h, y);
    DivModUnique(y, MsPerMinute, m, z);
    DivModUnique(x, MsPerMinute, h * 60 + m, z);
    DivModUnique(z, MsPerSecond, s, ms);
    DivModUnique(x, MsPerSecond, h * 3600 + m * 60 + s, ms);
  }

  /** A JavaScript `Date` object, as a mutable local time value in milliseconds. */
  class JsDate {
    var time: int

    /** `new Date(t)` (and `new Date(otherDate)`, which copies the time value). */
    constructor (t: int)
      ensures time == t
    {
      time := t;
    }

    function GetHours(): (h: int)
      reads this
      ensures 0 <= h < 24
    {
      HoursOf(time)
    }

    function GetDate(): (dt: int)
      reads this
      ensures 1 <= dt <= 31
    {
      DateOf(time).day
    }

    /** `setHours(h)`: the other fields are kept and an hour out of 0..23 carries into the date. */
    method SetHours(h: int)
      modifies this
      ensures time == MakeTime(DayOf(old(time)), h, MinutesOf(old(time)), SecondsOf(old(time)), MillisOf(old(time)))
    {
      time := MakeTime(DayOf(time), h, MinutesOf(time), SecondsOf(time), MillisOf(time));
    }

    /** `setHours(h, m, s, ms)`. */
    method SetTimeOfDay(h: int, m: int, s: int, ms: int)
      modifies this
      ensures time == MakeTime(DayOf(old(time)), h, m, s, ms)
    {
      time := MakeTime(DayOf(time), h, m, s, ms);
    }

    /** `setMinutes(m)`. */
    method SetMinutes(m: int)
      modifies this
      ensures time == MakeTime(DayOf(old(time)), HoursOf(old(time)), m, SecondsOf(old(time)), MillisOf(old(time)))
    {
      time := MakeTime(DayOf(time), HoursOf(time), m, SecondsOf(time), MillisOf(time));
    }

    /** `setSeconds(s)`. */
    method SetSeconds(s: int)
      modifies this
      ensures time == MakeTime(DayOf(old(time)), HoursOf(old(time)), MinutesOf(old(time)), s, MillisOf(old(time)))
    {
      time := MakeTime(DayOf(time), HoursOf(time), MinutesOf(time), s, MillisOf(time));
    }

    /** `setMilliseconds(ms)`. */
    method SetMilliseconds(ms: int)
      modifies this
      ensures time == MakeTime(DayOf(old(time)), HoursOf(old(time)), MinutesOf(old(time)), SecondsOf(old(time)), ms)
    {
      time := MakeTime(DayOf(time), HoursOf(time), MinutesOf(time), SecondsOf(time), ms);
    }

    /**
     * `setDate(dt)`: the day of the month becomes `dt` within the current month,
     * carrying across months when `dt` is out of range; the time of day is kept.
     */
    method SetDate(dt: int)
      modifies this
      ensures time == old(time) + (dt - DateOf(old(time)).day) * MsPerDay
    {
      time := time + (dt - DateOf(time).day) * MsPerDay;
    }
  }
}
