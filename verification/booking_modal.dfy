/**
 * The booking modal opened from the timeline: the same form state and rules
 * as the booking form, with the defaults recomputed only while the modal is
 * open.
 */
module BookingModal {
  import opened Wrappers
  import opened Calendar
  import opened Home
  import opened FormRules

  class BookingModalState {
    var formData: FormData
    var loading: bool
    var error: Option<string>

    /** The initial `useState` values: empty fields, the default space, no error. */
    constructor (selectedSpace: Option<int>, spaces: seq<SpaceRow>)
      ensures formData == FormData("", "", DefaultSpaceId(selectedSpace, spaces), "", "")
      ensures !loading && error.None?
    {
      formData := FormData("", "", DefaultSpaceId(selectedSpace, spaces), "", "");
      loading := false;
      error := None;
    }

    /** The effect run when `isOpen`, the selection or the spaces change: it does nothing while closed. */
    method SyncDefaults(isOpen: bool, selectedSpace: Option<int>, spaces: seq<SpaceRow>,
                        selectedStartTime: Option<int>, selectedDate: Option<int>, now: int)
      modifies this`formData, this`error
      ensures isOpen ==> formData == DefaultForm(selectedSpace, spaces, selectedStartTime, selectedDate, now) && error.None?
      ensures !isOpen ==> formData == old(formData) && error == old(error)
    {
      if isOpen {
        var start, end := DefaultWindow(selectedStartTime, selectedDate, now);
        formData := FormData("", "", DefaultSpaceId(selectedSpace, spaces),
                             FormatDateTimeLocal(start.time), FormatDateTimeLocal(end.time));
        error := None;
      }
    }

    /**
     * `handleSubmit`: the client check, then `onSubmit(formData)`, which settles
     * as `outcome` (`None`: resolved), then `onClose`; `loading` is cleared in
     * every case.
     */
    method HandleSubmit(outcome: Option<Failure>) returns (effect: SubmitEffect)
      modifies this`loading, this`error
      ensures effect == SubmitAttempt(formData, outcome, CreateFallback)
      ensures error == effect.error && !loading
    {
      loading := true;
      error := None;
      var submitted, closed := false, false;
      if ClientRejects(formData.startsAt, formData.endsAt) {
        error := Some(SubmitErrorText(ErrorThrown(RangeMessage), CreateFallback));
      } else {
        submitted := true;
        if outcome.None? {
          closed := true;
        } else {
          error := Some(SubmitErrorText(outcome.value, CreateFallback));
        }
      }
      loading := false;
      effect := SubmitEffect(submitted, closed, error);
    }
  }
}
