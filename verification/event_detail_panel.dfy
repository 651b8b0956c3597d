/**
 * The panel showing one timeline event: its display format, the edit form
 * loaded from the event, the organizer-only controls, and the update and
 * delete handlers. Event times are the backend's minutes, as local time values
 * `minutes * MsPerMinute`.
 */
module EventDetailPanel {
  import opened Wrappers
  import opened Text
  import opened Calendar
  import opened Records
  import opened Home
  import opened FormRules

  /** `formatDisplayDateTime`: `Y/M/D HH:MM`, month and day unpadded, hours and minutes padded. */
  function FormatDisplayDateTime(t: int): string {
    var d := DateOf(t);
    IntToString(d.year) + "/" + NatToString(d.month) + "/" + NatToString(d.day)
      + " " + Pad2(HoursOf(t)) + ":" + Pad2(MinutesOf(t))
  }

  /** Two separator-free pieces joined by the separator are split apart again. */
  lemma SplitTwo(a: string, b: string, sep: char)
    requires sep !in a && sep !in b
    ensures Split(a + [sep] + b, sep) == [a, b]
  {
    SplitAfter(a, sep, b);
    SplitNone(b, sep);
  }

  /** `Y/M/D HH:MM` splits back into its fields when every field is made of digits. */
  lemma DisplaySplit(y: string, m: string, d: string, h: string, mi: string)
    requires AllDigits(y) && AllDigits(m) && AllDigits(d) && AllDigits(h) && AllDigits(mi)
    ensures var s := y + "/" + m + "/" + d + " " + h + ":" + mi;
      && Split(s, '/') == [y, m, d + " " + h + ":" + mi]
      && Split(d + " " + h + ":" + mi, ' ') == [d, h + ":" + mi]
      && Split(h + ":" + mi, ':') == [h, mi]
  {
    var clock := h + ":" + mi;
    var rest := d + " " + clock;
    ClockSplit(h, mi);
    DigitsAvoid(d, ' ');
    SplitTwo(d, clock, ' ');
    RestFree(d, h, mi);
    DigitsAvoid(y, '/');
    DigitsAvoid(m, '/');
    Regroup(y, m, d, h, mi);
    SplitAfter(y, '/', m + ['/'] + rest);
    SplitTwo(m, rest, '/');
    assert d + " " + h + ":" + mi == rest;
    assert [y] + [m, rest] == [y, m, rest];
  }

  /** `HH:MM` holds no space or slash and splits at its colon. */
  lemma ClockSplit(h: string, mi: string)
    requires AllDigits(h) && AllDigits(mi)
    ensures ' ' !in h + ":" + mi && '/' !in h + ":" + mi
    ensures Split(h + ":" + mi, ':') == [h, mi]
  {
    DigitsAvoid(h, ':');
    DigitsAvoid(mi, ':');
    SplitTwo(h, mi, ':');
    DigitsAvoid(h, ' ');
    DigitsAvoid(mi, ' ');
    DigitsAvoid(h, '/');
    DigitsAvoid(mi, '/');
  }

  /** `D HH:MM` holds no slash. */
  lemma RestFree(d: string, h: string, mi: string)
    requires AllDigits(d) && ' ' !in h + ":" + mi && '/' !in h + ":" + mi
    ensures '/' !in d + " " + (h + ":" + mi)
  {
    DigitsAvoid(d, '/');
  }

  /** The display text regrouped around its two slashes. */
  lemma Regroup(y: string, m: string, d: string, h: string, mi: string)
    ensures y + "/" + m + "/" + d + " " + h + ":" + mi == y + ['/'] + (m + ['/'] + (d + " " + (h + ":" + mi)))
  {
  }

  /** A string of digits holds no separator. */
  lemma DigitsAvoid(s: string, c: char)
    requires AllDigits(s) && !IsDigit(c)
    ensures c !in s
  {
  }

  /**
   * The display text splits on `/` into the year, the unpadded month and the
   * rest, the rest on ` ` into the unpadded day and the time, and the time on
   * `:` into the padded hours and minutes; every number reads back.
   */
  lemma DisplayReadsBack(t: int)
    requires DateOf(t).year >= 0
    ensures var d := DateOf(t);
      var parts := Split(FormatDisplayDateTime(t), '/');
      && |parts| == 3
      && parts[0] == NatToString(d.year) && AllDigits(parts[0]) && DigitsValue(parts[0]) == d.year
      && parts[1] == NatToString(d.month) && AllDigits(parts[1]) && DigitsValue(parts[1]) == d.month
      && |parts[1]| == (if d.month < 10 then 1 else 2)
      && Split(parts[2], ' ') == [NatToString(d.day), Pad2(HoursOf(t)) + ":" + Pad2(MinutesOf(t))]
      && AllDigits(NatToString(d.day)) && DigitsValue(NatToString(d.day)) == d.day
      && Split(Pad2(HoursOf(t)) + ":" + Pad2(MinutesOf(t)), ':') == [Pad2(HoursOf(t)), Pad2(MinutesOf(t))]
  {
    var d := DateOf(t);
    NatToStringRoundTrip(d.year);
    NatToStringRoundTrip(d.month);
    NatToStringRoundTrip(d.day);
    NatToStringLength(d.month);
    DisplaySplit(NatToString(d.year), NatToString(d.month), NatToString(d.day), Pad2(HoursOf(t)), Pad2(MinutesOf(t)));
  }

  /** The edit form loaded from an event: `description || ""`, times in `datetime-local` form. */
  function FormOfEvent(e: Event): FormData {
    FormData(e.name, e.description.GetOr(""), e.spaceId,
             FormatDateTimeLocal(e.startsAt * MsPerMinute), FormatDateTimeLocal(e.endsAt * MsPerMinute))
  }

  /** An event that ends after it starts, as every saved event does, loads into a form the client check accepts. */
  lemma LoadedEventAccepted(e: Event)
    requires e.startsAt < e.endsAt
    ensures !ClientRejects(FormOfEvent(e).startsAt, FormOfEvent(e).endsAt)
  {
    LaterEndAccepted(e.startsAt * MsPerMinute, e.endsAt * MsPerMinute);
  }

  /** `event.is_organizer && ...`: the edit and delete buttons are rendered. */
  predicate ShowsControls(x: TimelineEntry) {
    x.isOrganizer
  }

  /** On the home timeline the controls appear exactly on the viewer's own events. */
  lemma ControlsOnlyForOrganizer(entries: seq<TimelineEntry>, events: seq<Event>, u: User, day: int, x: TimelineEntry)
    requires TimelineSection(entries, events, u, day) && x in entries
    ensures ShowsControls(x) <==> x.event.userId == u.id
  {
  }

  datatype Mode = View | Edit

  class EventDetailPanelState {
    var mode: Mode
    var formData: FormData
    var loading: bool
    var error: Option<string>
    var showDeleteConfirm: bool

    /** The initial `useState` values. */
    constructor ()
      ensures mode == View && formData == FormData("", "", 0, "", "")
      ensures !loading && error.None? && !showDeleteConfirm
    {
      mode := View;
      formData := FormData("", "", 0, "", "");
      loading := false;
      error := None;
      showDeleteConfirm := false;
    }

    /** The effect run when the `event` prop changes. */
    method LoadEvent(x: TimelineEntry)
      modifies this`mode, this`error, this`showDeleteConfirm, this`formData
      ensures mode == View && error.None? && !showDeleteConfirm
      ensures formData == FormOfEvent(x.event)
    {
      mode := View;
      error := None;
      showDeleteConfirm := false;
      formData := FormOfEvent(x.event);
    }

    /** The edit button: rendered, and so effective, only in view mode and for the organizer. */
    method ClickEdit(x: TimelineEntry)
      modifies this`mode
      ensures mode == if old(mode) == View && ShowsControls(x) then Edit else old(mode)
    {
      if mode == View && ShowsControls(x) {
        mode := Edit;
      }
    }

    /** The delete button: opens the confirmation, only in view mode and for the organizer. */
    method ClickDelete(x: TimelineEntry)
      modifies this`showDeleteConfirm
      ensures showDeleteConfirm == ((mode == View && ShowsControls(x)) || old(showDeleteConfirm))
    {
      if mode == View && ShowsControls(x) {
        showDeleteConfirm := true;
      }
    }

    /** The confirmation's cancel button: shown in view mode while the confirmation is open, disabled while loading. */
    method CancelDelete()
      modifies this`showDeleteConfirm
      ensures showDeleteConfirm == (old(showDeleteConfirm) && (mode != View || loading))
    {
      if mode == View && showDeleteConfirm && !loading {
        showDeleteConfirm := false;
      }
    }

    /** The edit form's back button: returns to view mode and clears the error, disabled while loading. */
    method CancelEdit()
      modifies this`mode, this`error
      ensures old(mode) == Edit && !loading ==> mode == View && error.None?
      ensures !(old(mode) == Edit && !loading) ==> mode == old(mode) && error == old(error)
    {
      if mode == Edit && !loading {
        mode := View;
        error := None;
      }
    }

    /**
     * `handleSubmit`: the client check, then `onUpdate(event.id, formData)`,
     * which settles as `outcome` (`None`: resolved), then `onBack`.
     */
    method HandleSubmit(outcome: Option<Failure>) returns (effect: SubmitEffect)
      modifies this`loading, this`error
      ensures effect == SubmitAttempt(formData, outcome, UpdateFallback)
      ensures error == effect.error && !loading
    {
      loading := true;
      error := None;
      var updated, back := false, false;
      if ClientRejects(formData.startsAt, formData.endsAt) {
        error := Some(SubmitErrorText(ErrorThrown(RangeMessage), UpdateFallback));
      } else {
        updated := true;
        if outcome.None? {
          back := true;
        } else {
          error := Some(SubmitErrorText(outcome.value, UpdateFallback));
        }
      }
      loading := false;
      effect := SubmitEffect(updated, back, error);
    }

    /**
     * `handleDelete`: `onDelete(event.id)` settles as `outcome`, then `onBack`;
     * afterwards `loading` is cleared and the confirmation hidden in every case.
     */
    method HandleDelete(outcome: Option<Failure>) returns (effect: DeleteEffect)
      modifies this`loading, this`error, this`showDeleteConfirm
      ensures effect == DeleteAttempt(outcome, DeleteFallback)
      ensures error == effect.error && !loading && !showDeleteConfirm
    {
      loading := true;
      error := None;
      var back := false;
      if outcome.None? {
        back := true;
      } else {
        error := Some(DeleteErrorText(outcome.value, DeleteFallback));
      }
      loading := false;
      showDeleteConfirm := false;
      effect := DeleteEffect(back, error);
    }
  }
}
