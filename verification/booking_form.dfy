/**
 * The booking form on the booking page: its state (`formData`, `loading`,
 * `error`), the effect that fills in the default window, and `handleSubmit`.
 */
module BookingForm {
  import opened Wrappers
  import opened Calendar
  import opened Home
  import opened FormRules

  class BookingFormState {
    var formData: FormData
    var loading: bool
    var error: Option<string>

    /** The initial `useState` values: empty fields, the default space, no error. */
    constructor (selectedSpace: Option<int>, spaces: seq<SpaceRow>)
      ensures formData == FormData("", "", DefaultSpaceId(selectedSpace, spaces), "", "")
      ensures !loading && error.None?
    {
      formData := FormData("", "", DefaultSpaceId(selectedSpace, spaces), "", "");
      loading := false;
      error := None;
    }

    /** The effect run when the selection or the spaces change: the default form, and the error cleared. */
    method ApplyDefaults(selectedSpace: Option<int>, spaces: seq<SpaceRow>,
                         selectedStartTime: Option<int>, selectedDate: Option<int>, now: int)
      modifies this`formData, this`error
      ensures formData == DefaultForm(selectedSpace, spaces, selectedStartTime, selectedDate, now)
      ensures error.None?
    {
      var start, end := DefaultWindow(selectedStartTime, selectedDate, now);
      formData := FormData("", "", DefaultSpaceId(selectedSpace, spaces),
                           FormatDateTimeLocal(start.time), FormatDateTimeLocal(end.time));
      error := None;
    }

    /**
     * `handleSubmit`: the client check, then `onSubmit(formData)`, which settles
     * as `outcome` (`None`: resolved), then `onCancel`; `loading` is cleared in
     * every case.
     */
    method HandleSubmit(outcome: Option<Failure>) returns (effect: SubmitEffect)
      modifies this`loading, this`error
      ensures effect == SubmitAttempt(formData, outcome, CreateFallback)
      ensures error == effect.error && !loading
    {
      loading := true;
      error := None;
      var submitted, cancelled := false, false;
      if ClientRejects(formData.startsAt, formData.endsAt) {
        error := Some(SubmitErrorText(ErrorThrown(RangeMessage), CreateFallback));
      } else {
        submitted := true;
        if outcome.None? {
          cancelled := true;
        } else {
          error := Some(SubmitErrorText(outcome.value, CreateFallback));
        }
      }
      loading := false;
      effect := SubmitEffect(submitted, cancelled, error);
    }
  }
}
