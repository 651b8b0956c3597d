/**
 * Rules shared by the booking form, the booking modal and the event detail
 * panel: the `YYYY-MM-DDTHH:MM` value of a `datetime-local` input, what
 * `new Date(value)` makes of it, the client-side `end <= start` check, the
 * default booking window and space, and the text shown when a submission fails.
 * Date values are local time values in milliseconds (see `Calendar`).
 */
module FormRules {
  import opened Wrappers
  import opened Text
  import opened Calendar
  import opened Records
  import opened Home

  const RangeMessage := "終了時刻は開始時刻より後にしてください"
  const CreateFallback := "予約の作成に失敗しました"
  const UpdateFallback := "更新に失敗しました"
  const DeleteFallback := "削除に失敗しました"

  /** The fields a booking or edit form submits. */
  datatype FormData = FormData(name: string, description: string, spaceId: int, startsAt: string, endsAt: string)

  /** `formatDateTimeLocal`: `${year}-${month}-${day}T${hours}:${minutes}`, all but the year padded to two digits. */
  function FormatDateTimeLocal(t: int): string {
    var d := DateOf(t);
    IntToString(d.year) + "-" + Pad2(d.month) + "-" + Pad2(d.day) + "T" + Pad2(HoursOf(t)) + ":" + Pad2(MinutesOf(t))
  }

  /** A local calendar date and a minute of that day. */
  datatype LocalDateTime = LocalDateTime(date: CalDate, minute: int)

  /** Chronological order: by date, then by minute. */
  predicate Earlier(a: LocalDateTime, b: LocalDateTime) {
    Before(a.date, b.date) || (a.date == b.date && a.minute < b.minute)
  }

  function MinuteOfDay(t: int): (r: int)
    ensures 0 <= r < 1440
  {
    MsOfDay(t) / MsPerMinute
  }

  /** The local date and minute a time value falls in. */
  function DateTimeOf(t: int): LocalDateTime {
    LocalDateTime(DateOf(t), MinuteOfDay(t))
  }

  /**
   * `new Date(value)` on a `datetime-local` value, in the date-time string format
   * of ECMAScript without an offset (local time): exactly `YYYY-MM-DDTHH:mm`
   * with in-range fields, `24:00` standing for the next midnight. Anything else
   * is an invalid date (`NaN`), here `None`.
   */
  function ParseDateTimeLocal(s: string): (r: Option<LocalDateTime>)
    ensures |s| != 16 ==> r.None?
    ensures r.Some? ==> ValidDate(r.value.date) && 0 <= r.value.minute < 1440
  {
    if |s| != 16 || s[4] != '-' || s[7] != '-' || s[10] != 'T' || s[13] != ':' then None
    else if !(AllDigits(s[..4]) && AllDigits(s[5..7]) && AllDigits(s[8..10]) && AllDigits(s[11..13]) && AllDigits(s[14..])) then None
    else
      var date := CalDate(DigitsValue(s[..4]), DigitsValue(s[5..7]), DigitsValue(s[8..10]));
      var h, m := DigitsValue(s[11..13]), DigitsValue(s[14..]);
      if !ValidDate(date) || m > 59 || h > 24 || (h == 24 && m != 0) then None
      else if h == 24 then Some(LocalDateTime(NextDay(date), 0))
      else Some(LocalDateTime(date, h * 60 + m))
  }

  /** `endDate <= startDate`: false as soon as either side is an invalid date. */
  predicate ClientRejects(startsAt: string, endsAt: string) {
    var s, e := ParseDateTimeLocal(startsAt), ParseDateTimeLocal(endsAt);
    s.Some? && e.Some? && !Earlier(s.value, e.value)
  }

  /** The positions of the fields in a `YYYY-MM-DDTHH:mm` string. */
  lemma FieldSlices(y: string, mo: string, d: string, h: string, mi: string)
    requires |y| == 4 && |mo| == 2 && |d| == 2 && |h| == 2 && |mi| == 2
    ensures var s := y + "-" + mo + "-" + d + "T" + h + ":" + mi;
      && |s| == 16 && s[4] == '-' && s[7] == '-' && s[10] == 'T' && s[13] == ':'
      && s[..4] == y && s[5..7] == mo && s[8..10] == d && s[11..13] == h && s[14..] == mi
  {
  }

  /** Hours and minutes of the day read together are the minute of the day. */
  lemma HoursAndMinutes(t: int)
    ensures HoursOf(t) * 60 + MinutesOf(t) == MinuteOfDay(t)
  {
    var x := MsOfDay(t);
    var y := x % MsPerHour;
    assert x == HoursOf(t) * MsPerHour + y;
    assert y == MinutesOf(t) * MsPerMinute + y % MsPerMinute;
    DivModUnique(x, MsPerMinute, HoursOf(t) * 60 + MinutesOf(t), y % MsPerMinute);
  }

  /** A formatted time value with a four-digit year is parsed back to its own date and minute. */
  lemma FormatParseRoundTrip(t: int)
    requires 1000 <= DateOf(t).year <= 9999
    ensures ParseDateTimeLocal(FormatDateTimeLocal(t)) == Some(DateTimeOf(t))
  {
    var d := DateOf(t);
    NatToStringLength(d.year);
    NatToStringRoundTrip(d.year);
    FieldSlices(IntToString(d.year), Pad2(d.month), Pad2(d.day), Pad2(HoursOf(t)), Pad2(MinutesOf(t)));
    HoursAndMinutes(t);
  }

  /** With a year of other than four digits the formatted value is an invalid date. */
  lemma FormatOutOfRange(t: int)
    requires !(1000 <= DateOf(t).year <= 9999)
    ensures ParseDateTimeLocal(FormatDateTimeLocal(t)) == None
  {
    var d := DateOf(t);
    var s := FormatDateTimeLocal(t);
    var y := IntToString(d.year);
    assert |s| == |y| + 12;
    if d.year >= 0 {
      NatToStringLength(d.year);
    } else if |s| == 16 {
      assert s[..4][0] == y[0] == '-';
      assert !AllDigits(s[..4]);
    }
  }

  /** A time value's minute count since 1970-01-01 00:00 is its day's minutes plus its minute of the day. */
  lemma MinuteCount(t: int)
    ensures t / MsPerMinute == DayOf(t) * 1440 + MinuteOfDay(t)
  {
    var x := MsOfDay(t);
    assert t == DayOf(t) * MsPerDay + x;
    assert x == MinuteOfDay(t) * MsPerMinute + x % MsPerMinute;
    DivModUnique(t, MsPerMinute, DayOf(t) * 1440 + MinuteOfDay(t), x % MsPerMinute);
  }

  /** Local date-times compare exactly as the whole minutes of their time values do. */
  lemma EarlierIffMinuteBefore(a: int, b: int)
    ensures Earlier(DateTimeOf(a), DateTimeOf(b)) <==> a / MsPerMinute < b / MsPerMinute
  {
    MinuteCount(a);
    MinuteCount(b);
    if DayOf(a) < DayOf(b) {
      DateOfDayMonotone(DayOf(a), DayOf(b));
    } else if DayOf(b) < DayOf(a) {
      DateOfDayMonotone(DayOf(b), DayOf(a));
    }
  }

  /** Formatted values with four-digit years are rejected exactly when the end's minute is not after the start's. */
  lemma ClientRejectsIff(start: int, end: int)
    requires 1000 <= DateOf(start).year <= 9999 && 1000 <= DateOf(end).year <= 9999
    ensures ClientRejects(FormatDateTimeLocal(start), FormatDateTimeLocal(end))
      <==> end / MsPerMinute <= start / MsPerMinute
  {
    FormatParseRoundTrip(start);
    FormatParseRoundTrip(end);
    EarlierIffMinuteBefore(start, end);
  }

  /** An end at least a minute after the start is never rejected, whatever the years. */
  lemma LaterEndAccepted(start: int, end: int)
    requires start + MsPerMinute <= end
    ensures !ClientRejects(FormatDateTimeLocal(start), FormatDateTimeLocal(end))
  {
    if 1000 <= DateOf(start).year <= 9999 && 1000 <= DateOf(end).year <= 9999 {
      ClientRejectsIff(start, end);
    } else if !(1000 <= DateOf(start).year <= 9999) {
      FormatOutOfRange(start);
    } else {
      FormatOutOfRange(end);
    }
  }

  /** `selectedStartTime || selectedDate || new Date()`: a `Date` object is always truthy. */
  function Reference(selectedStartTime: Option<int>, selectedDate: Option<int>, now: int): int {
    if selectedStartTime.Some? then selectedStartTime.value
    else selectedDate.GetOr(now)
  }

  /**
   * The default start: the reference truncated to its hour, one hour later
   * when no start time was selected.
   */
  function DefaultStart(selectedStartTime: Option<int>, selectedDate: Option<int>, now: int): (r: int)
    ensures r % MsPerHour == 0
    ensures var ref := Reference(selectedStartTime, selectedDate, now);
      var shift := if selectedStartTime.None? then MsPerHour else 0;
      r - shift <= ref < r - shift + MsPerHour
  {
    var ref := Reference(selectedStartTime, selectedDate, now);
    (ref / MsPerHour) * MsPerHour + (if selectedStartTime.None? then MsPerHour else 0)
  }

  /** `setMinutes(0)`, `setSeconds(0)` and `setMilliseconds(0)` truncate a time value to its hour. */
  method TruncateToHour(date: JsDate)
    modifies date
    ensures date.time == (old(date.time) / MsPerHour) * MsPerHour
  {
    var t := date.time;
    var day, h, s, ms := DayOf(t), HoursOf(t), SecondsOf(t), MillisOf(t);
    date.SetMinutes(0);
    Compose(day, h, 0, s, ms);
    date.SetSeconds(0);
    Compose(day, h, 0, 0, ms);
    date.SetMilliseconds(0);
    assert date.time == MakeTime(day, h, 0, 0, 0);
    var x := MsOfDay(t);
    assert t == (day * 24 + h) * MsPerHour + x % MsPerHour;
    DivModUnique(t, MsPerHour, day * 24 + h, x % MsPerHour);
  }

  /** `setHours(getHours() + 1)`: exactly one hour later, carrying into the next day after 23:00. */
  method AddHour(date: JsDate)
    modifies date
    ensures date.time == old(date.time) + MsPerHour
  {
    Decompose(date.time);
    date.SetHours(date.GetHours() + 1);
  }

  /** The default-window effect's two `Date` objects: start as `DefaultStart`, end one hour after it. */
  method DefaultWindow(selectedStartTime: Option<int>, selectedDate: Option<int>, now: int)
    returns (start: JsDate, end: JsDate)
    ensures fresh(start) && fresh(end)
    ensures start.time == DefaultStart(selectedStartTime, selectedDate, now)
    ensures end.time == start.time + MsPerHour
  {
    var startTime := Reference(selectedStartTime, selectedDate, now);
    start := new JsDate(startTime);
    TruncateToHour(start);
    if selectedStartTime.None? {
      AddHour(start);
    }
    end := new JsDate(start.time);
    AddHour(end);
  }

  /** The default window always passes the client check. */
  lemma DefaultWindowAccepted(selectedStartTime: Option<int>, selectedDate: Option<int>, now: int)
    ensures var start := DefaultStart(selectedStartTime, selectedDate, now);
      !ClientRejects(FormatDateTimeLocal(start), FormatDateTimeLocal(start + MsPerHour))
  {
    LaterEndAccepted(DefaultStart(selectedStartTime, selectedDate, now),
                     DefaultStart(selectedStartTime, selectedDate, now) + MsPerHour);
  }

  /** `selectedSpace || (spaces[0]?.id || 0)`: 0 counts as no selection. */
  function DefaultSpaceId(selectedSpace: Option<int>, spaces: seq<SpaceRow>): (r: int)
    ensures selectedSpace.Some? && selectedSpace.value != 0 ==> r == selectedSpace.value
    ensures (selectedSpace.None? || selectedSpace.value == 0) && |spaces| > 0 ==> r == spaces[0].space.id
    ensures (selectedSpace.None? || selectedSpace.value == 0) && |spaces| == 0 ==> r == 0
  {
    if selectedSpace.Some? && selectedSpace.value != 0 then selectedSpace.value
    else if |spaces| > 0 && spaces[0].space.id != 0 then spaces[0].space.id
    else 0
  }

  /** The form the default-window effect installs. */
  function DefaultForm(selectedSpace: Option<int>, spaces: seq<SpaceRow>,
                       selectedStartTime: Option<int>, selectedDate: Option<int>, now: int): FormData
  {
    var start := DefaultStart(selectedStartTime, selectedDate, now);
    FormData("", "", DefaultSpaceId(selectedSpace, spaces), FormatDateTimeLocal(start), FormatDateTimeLocal(start + MsPerHour))
  }

  /** A form just filled with the defaults always gets past the client check to the parent's submit. */
  lemma DefaultsReachSubmit(selectedSpace: Option<int>, spaces: seq<SpaceRow>,
                            selectedStartTime: Option<int>, selectedDate: Option<int>, now: int,
                            outcome: Option<Failure>, fallback: string)
    ensures SubmitAttempt(DefaultForm(selectedSpace, spaces, selectedStartTime, selectedDate, now), outcome, fallback).submitted
  {
    DefaultWindowAccepted(selectedStartTime, selectedDate, now);
  }

  /** What a submit or delete handler can catch. */
  datatype Failure =
    | ApiFailure(message: string, errors: Option<seq<string>>, error: Option<string>)  // `ApiError` and its response body
    | ErrorThrown(message: string)                                                     // any other `Error`
    | OtherThrown                                                                      // a thrown non-`Error` value

  /** The submit handlers' message: the `errors` array one per line, else `error`, else the message. */
  function SubmitErrorText(f: Failure, fallback: string): string {
    match f
    case ApiFailure(message, errors, error) =>
      if errors.Some? then Join(errors.value, '\n')
      else if error.Some? then error.value
      else message
    case ErrorThrown(message) => message
    case OtherThrown => fallback
  }

  /** The delete handler's message: it has no `errors` branch. */
  function DeleteErrorText(f: Failure, fallback: string): string {
    match f
    case ApiFailure(message, _, error) => if error.Some? then error.value else message
    case ErrorThrown(message) => message
    case OtherThrown => fallback
  }

  /** Each server message of an `errors` array is a line of the shown text. */
  lemma ErrorLines(message: string, errors: seq<string>, error: Option<string>, fallback: string)
    requires |errors| >= 1
    requires forall i :: 0 <= i < |errors| ==> '\n' !in errors[i]
    ensures Split(SubmitErrorText(ApiFailure(message, Some(errors), error), fallback), '\n') == errors
  {
    SplitJoin(errors, '\n');
  }

  /** A delete failure shows `error` or the message, never the `errors` array an update would show. */
  lemma DeleteIgnoresErrorList(message: string, errors: seq<string>, fallback: string)
    ensures DeleteErrorText(ApiFailure(message, Some(errors), None), fallback) == message
    ensures SubmitErrorText(ApiFailure(message, Some(errors), None), fallback) == Join(errors, '\n')
  {
  }

  /** What one submit attempt did: whether the parent's submit ran, whether the form was closed, the error left shown. */
  datatype SubmitEffect = SubmitEffect(submitted: bool, closed: bool, error: Option<string>)

  /**
   * The `try`/`catch` of a submit handler. `outcome` is how the parent's
   * submit promise settled (`None`: resolved); closing (`onCancel`,
   * `onClose`, `onBack`) follows only a resolved submit.
   */
  function SubmitAttempt(form: FormData, outcome: Option<Failure>, fallback: string): (r: SubmitEffect)
    ensures ClientRejects(form.startsAt, form.endsAt) ==> !r.submitted && r.error == Some(RangeMessage)
    ensures r.submitted <==> !ClientRejects(form.startsAt, form.endsAt)
    ensures r.closed <==> r.submitted && outcome.None?
    ensures r.error.None? <==> r.closed
    ensures r.submitted && outcome.Some? ==> r.error == Some(SubmitErrorText(outcome.value, fallback))
  {
    if ClientRejects(form.startsAt, form.endsAt) then
      SubmitEffect(false, false, Some(SubmitErrorText(ErrorThrown(RangeMessage), fallback)))
    else if outcome.None? then SubmitEffect(true, true, None)
    else SubmitEffect(true, false, Some(SubmitErrorText(outcome.value, fallback)))
  }

  /** What one delete attempt did: whether the panel was left, the error left shown. */
  datatype DeleteEffect = DeleteEffect(closed: bool, error: Option<string>)

  function DeleteAttempt(outcome: Option<Failure>, fallback: string): (r: DeleteEffect)
    ensures r.closed <==> outcome.None?
    ensures r.error.None? <==> r.closed
    ensures outcome.Some? ==> r.error == Some(DeleteErrorText(outcome.value, fallback))
  {
    if outcome.None? then DeleteEffect(true, None)
    else DeleteEffect(false, Some(DeleteErrorText(outcome.value, fallback)))
  }
}
