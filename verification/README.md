# Room booking: occupancy, validation, approval and timeline rules

This project models in Dafny the logic core of a room-booking web application. It has a Rails API and a React frontend.

- **Spaces** (rooms) hold **events**: reservations of one space by one organising user over the half-open window `[starts_at, ends_at)`.
- An event is `pending` when created. An admin may approve or reject it, once.
- The home page shows four sections:
  - every space with its status at an instant (`occupied` until some time, or `available` with the next event);
  - a day timeline of the visible events, which the frontend lays out in lanes;
  - the user's upcoming events;
  - for admins, the pending events.
- The frontend builds booking forms. It formats and parses `YYYY-MM-DD` and `YYYY-MM-DDTHH:MM` values, proposes a default one-hour window, and rejects an end that is not after the start before calling the API.

Backend instants are integer minutes of local time. Frontend `Date` values are local time values in milliseconds, held in the class `Calendar.JsDate`. An event time `m` minutes reaches the frontend as `m * 60000`. Calendar dates are `(year, month, day)` triples of the proleptic Gregorian calendar.

Modules, one per source file plus shared support:

- `Records`: the persisted entities.
- `SpaceStatus`: the model of `space.rb`.
- `EventValidation`: the model of `event.rb`, as a record whose `errors` list is appended to.
- `EventsController`: the model of `events_controller.rb`, as a class `EventStore` whose actions update the stored events.
- `Home`: the model of `home_controller.rb`.
- `Users`: the model of `user.rb` and the login lookup.
- `Timeline`: the model of `TimelineSchedule.tsx`.
- `DateSelector`: the model of `DateSelector.tsx`.
- `FormRules`: the formatter, default window, client check and error selection shared by the three form components.
- `BookingForm`, `BookingModal` and `EventDetailPanel`: the component state and handlers of those files.
- Shared support:
  - `Calendar`: dates, time values, `Date` setters;
  - `Text`: strip, downcase, digits, split and join;
  - `Lists`: filter and a stable insertion sort;
  - `Wrappers`: `Option`.

## Model

| member | source | states |
|---|---|---|
| SpaceStatus.CurrentEvent | api/app/models/space.rb:7 | none exactly when no event contains `t` in its half-open window; otherwise an event containing `t`, the one with the least id |
| SpaceStatus.NextEventAfter | api/app/models/space.rb:25-27 | none exactly when no event starts after `t`; otherwise an event starting strictly after `t` whose start is the least such |
| SpaceStatus.StatusAt | api/app/models/space.rb:6-19 | occupied iff some event contains `t`, and then `until` is the end of the containing event with the least id (as `first` orders by primary key), which is after `t`; otherwise available with the earliest later event and its start, or with neither |
| SpaceStatus.OverlapReportsLeastId | api/app/models/space.rb:7-10 | with events 1 over [60, 120) and 2 over [30, 180), the status at 90 is occupied until 120, in either listing order |
| SpaceStatus.AvailableAt | api/app/models/space.rb:21-23 | true iff `StatusAt` reports available, iff no event contains `t` |
| SpaceStatus.HalfOpenWindow | api/app/models/space.rb:7 | a lone event makes the space occupied from its start up to, but excluding, its end |
| SpaceStatus.StatusIgnoresApproval | api/app/models/space.rb:7 | events differing only in approval status give the same occupancy, `until` and next start |
| SpaceStatus.CurrentEventIgnoresStatus | api/app/models/space.rb:7 | the current-event query does not look at the approval status |
| SpaceStatus.NextEventIgnoresStatus | api/app/models/space.rb:12 | the next-event query does not look at the approval status |
| Records.EventsOfSpace | api/app/models/space.rb:2 | exactly the events whose space id is the given space, each as often as it is stored |
| EventValidation.Errors | api/app/models/event.rb:7-19 | each error is present iff its condition holds: space missing, blank name, missing start, missing end, end not after start with both present |
| EventValidation.ValidIff | api/app/models/event.rb:7-19 | no errors iff the space exists, the name is not blank, both times are present and the end is after the start |
| EventValidation.IdeographicNameBlank | api/app/models/event.rb:7 | a name made only of ideographic spaces (U+3000) is blank, as Rails `blank?` treats Unicode whitespace |
| EventValidation.MissingTimeSkipsRange | api/app/models/event.rb:15 | with a time missing there is no range error, only a presence error |
| EventValidation.EventRecord.constructor | api/app/models/event.rb:1-21 | a fresh record has the given attributes and no errors |
| EventValidation.EventRecord.ValidateSpace | api/app/models/event.rb:2 | appends the "must exist" error exactly when the space is missing |
| EventValidation.EventRecord.ValidatePresence | api/app/models/event.rb:7-9 | appends the presence errors for the name and both times, in that order |
| EventValidation.EventRecord.EndsAtAfterStartsAt | api/app/models/event.rb:14-20 | appends the ends_at message exactly when both times are present and the end is not after the start |
| EventValidation.EventRecord.IsValid | api/app/models/event.rb:7-10 | collects every failing validation into `errors`, and is true iff there are none |
| EventsController.StatusCode | api/app/controllers/events_controller.rb:17-55 | 200 exactly for event bodies and lists; 422 exactly for invalid records and not-pending decisions |
| EventsController.ViewFlagsMatchGates | api/app/controllers/events_controller.rb:65-95 | for a stored event, `is_organizer` is true iff update and destroy pass their before-actions, and `is_admin` iff approve and reject do |
| EventsController.FindEvent | api/app/controllers/events_controller.rb:59-63 | none iff no stored event has the id; otherwise a stored event with that id |
| EventsController.FindStored | api/app/controllers/events_controller.rb:59-63 | with unique ids, looking up a stored event's id finds exactly that event |
| EventsController.Gate | api/app/controllers/events_controller.rb:2-5 | the `before_action` chain: passes iff every applicable gate passes; 401 precedes the lookup, 404 precedes 403, and 403 arises only from the organizer or admin gate |
| EventsController.LoginBeforeLookup | api/app/controllers/events_controller.rb:2-3 | a logged-out request to a login-only action is 401 whether or not the event exists |
| EventsController.GateStatusCodes | api/app/controllers/events_controller.rb:2-5 | a refusing gate answers 401, 403 or 404, and 401 exactly when a login-only action has no session |
| EventsController.OrganizerGateIgnoresAdmin | api/app/controllers/events_controller.rb:65-69 | a non-organizer is refused update and destroy even when an admin |
| EventsController.StoredAttrsRoundTrip | api/app/controllers/events_controller.rb:26-28 | a valid stored event read back as attributes and saved again under its id, owner and status is the same event |
| EventsController.ResubmitLeavesStoreUnchanged | api/app/controllers/events_controller.rb:26-31 | an update whose permitted keys re-send the stored values assigns the same attributes and writes back the same store |
| EventsController.AssignField | api/app/controllers/events_controller.rb:71-73 | an omitted key keeps the old value, a null clears it, a value replaces it |
| EventsController.Assign | api/app/controllers/events_controller.rb:71-73 | each of the five permitted fields is assigned from its own key |
| EventsController.UnpermittedKeysIgnored | api/app/controllers/events_controller.rb:71-73 | two parameter sets agreeing on the permitted keys assign the same attributes |
| EventsController.Materialize | api/app/controllers/events_controller.rb:18-19 | a validated attribute set becomes an event with the given id, owner and status and the assigned fields, ending after it starts in an existing space |
| EventsController.ReplaceById | api/app/controllers/events_controller.rb:28 | every event with the id is replaced and all others kept in place |
| EventsController.RemoveById | api/app/controllers/events_controller.rb:35 | exactly the events without the id remain, and ids stay unique |
| EventsController.ReplaceKeepsUnique | api/app/controllers/events_controller.rb:28 | replacing by id keeps ids unique |
| EventsController.AppendKeepsUnique | api/app/controllers/events_controller.rb:18-19 | appending an event with a fresh id keeps ids unique |
| EventsController.UniqueAfterReplaceAbsent | api/app/controllers/events_controller.rb:28 | replacing an id that is absent changes nothing |
| EventsController.ReplaceBySelf | api/app/controllers/events_controller.rb:28 | with unique ids, replacing a stored event by itself changes nothing |
| EventsController.Transition | api/app/controllers/events_controller.rb:39-55 | a decision applies iff the status is pending, and then yields approved for approval and rejected for rejection |
| EventsController.DecisionIsFinal | api/app/controllers/events_controller.rb:40-42 | no sequence of decisions changes a decided status |
| EventsController.FirstDecisionWins | api/app/controllers/events_controller.rb:44 | from pending, the first decision fixes the status for good |
| EventsController.EventStore.constructor | api/app/controllers/events_controller.rb:1-96 | an empty store over the given spaces, ids starting at 1 |
| EventsController.EventStore.IndexAction | api/app/controllers/events_controller.rb:7-11 | without `space_id`, the stored events in order; with it, exactly the events of that space, each as often as it is stored; each with its view for the current user |
| EventsController.EventStore.ShowAction | api/app/controllers/events_controller.rb:13-15 | 404 iff no event has the id; otherwise that event's view |
| EventsController.EventStore.CreateAction | api/app/controllers/events_controller.rb:17-24 | 401, 400 or 422 leave the store alone; 201 iff logged in, parameters present and no errors, appending a pending event owned by the current user with a fresh id; the code is 201 exactly when created |
| EventsController.EventStore.UpdateAction | api/app/controllers/events_controller.rb:26-32 | a gate result is returned as is; past the gates, missing `event` parameters return 400 and a failed validation returns 422 with exactly the errors of the assigned attributes, both leaving the store unchanged; success replaces the event with the assigned one; the code is 200 exactly on success |
| EventsController.EventStore.DestroyAction | api/app/controllers/events_controller.rb:34-37 | a gate result leaves the store unchanged; otherwise the event is removed and 204 returned |
| EventsController.EventStore.DecideAction | api/app/controllers/events_controller.rb:39-55 | after the gates, a non-pending event gives 422 and no change; a pending one becomes approved or rejected and nothing else changes |
| Home.SpaceRows | api/app/controllers/home_controller.rb:8-25 | every space once, sorted by id, each with `status_at` over its own events |
| Home.Timeline | api/app/controllers/home_controller.rb:28-65 | exactly the events meeting the day that the user may see (rejected ones only to admins and their organizer), each as often as it is stored, by start, flagged as organised iff the user owns them |
| Home.Entries | api/app/controllers/home_controller.rb:44-65 | one entry per event in order; `is_organizer` and `user_involved` both mean the user owns the event |
| Home.MyEvents | api/app/controllers/home_controller.rb:68-85 | exactly the user's own events not ended at the clock time, each as often as it is stored, by start |
| Home.MyRows | api/app/controllers/home_controller.rb:72-85 | one row per event, all marked as organised, order kept |
| Home.PendingEvents | api/app/controllers/home_controller.rb:87-107 | empty for a non-admin; for an admin every pending event, each as often as it is stored, by start |
| Home.Index | api/app/controllers/home_controller.rb:2-117 | 401 iff logged out; otherwise the four sections for the parameter date and time, or today and now |
| Home.MultiDayEventShown | api/app/controllers/home_controller.rb:33 | an event shown on two days is shown on every day between them |
| Home.EndAtMidnightExcluded | api/app/controllers/home_controller.rb:33 | an event ending at midnight is not shown on the following day |
| Lists.Filter | api/app/controllers/home_controller.rb:38-39 | keeps exactly the elements satisfying the predicate, as a sub-multiset |
| Lists.FilterCount | api/app/controllers/home_controller.rb:38-39 | an element occurs in the filtered list as often as in the input when it satisfies the predicate, else not at all |
| Lists.FilterAppend | frontend/src/components/TimelineSchedule.tsx:51-56 | filtering distributes over concatenation |
| Lists.FilterSorted | api/app/controllers/home_controller.rb:34-39 | filtering a sorted list keeps it sorted |
| Lists.SortBy | api/app/controllers/home_controller.rb:25 | a sorted permutation of the input |
| Lists.SortByStable | api/app/controllers/home_controller.rb:34 | stable: the elements of any one key keep their input order |
| Lists.FilterInsert | api/app/controllers/home_controller.rb:34 | inserting goes ahead of equal keys: among the elements of its key the new one comes first |
| Lists.Insert | api/app/controllers/home_controller.rb:25 | inserting into a sorted list gives a sorted list with the element added, ahead of any equal keys |
| Users.NormalizeEmail | api/app/models/user.rb:14-16 | the result has no surrounding whitespace and no capitals; nil becomes "" |
| Users.NormalizedFixpoint | api/app/models/user.rb:15 | an email without surrounding whitespace or capitals is left as it is |
| Text.DowncaseIdempotent | api/app/models/user.rb:15 | downcasing twice is downcasing once |
| Users.NormalizeIdempotent | api/app/models/user.rb:15 | normalising twice is normalising once |
| Users.UserErrors | api/app/models/user.rb:9-10 | blank name, blank email and taken email are each reported iff they hold; taken means equal ignoring case |
| Users.NilEmailIsBlank | api/app/models/user.rb:10-15 | a nil email fails the presence check |
| Users.CaseVariantTaken | api/app/models/user.rb:10 | a raw sign-up email whose stripped form matches a stored email ignoring case is reported as taken after normalisation |
| Users.UserRecord.constructor | api/app/models/user.rb:1-17 | a record with the given name and email and no errors |
| Users.UserRecord.NormalizeEmailCallback | api/app/models/user.rb:14-16 | overwrites the email with its normal form |
| Users.UserRecord.IsValid | api/app/models/user.rb:7-10 | normalises the email first, then holds exactly the failing validations, and is true iff there are none |
| Users.FindByEmail | api/app/controllers/sessions_controller.rb:3 | a user whose email equals the normalised input, none iff there is no such user |
| Users.FindExact | api/app/controllers/sessions_controller.rb:3 | a user with exactly that email, none iff there is none |
| Users.LoginMatchesSignup | api/app/controllers/sessions_controller.rb:3 | any login input normalising to a stored email finds that user |
| Users.PaddedUpperCaseEmail | api/app/controllers/sessions_controller.rb:3 | `"  TEST@EXAMPLE.COM  "` normalises to `test@example.com` |
| Timeline.TimeSlots | frontend/src/components/TimelineSchedule.tsx:35-48 | 29 slots, the k-th being 08:00 plus k half hours |
| Timeline.SlotAtIndex | frontend/src/components/TimelineSchedule.tsx:37-46 | the slot for an hour and half hour sits at its index |
| Timeline.SlotsSpanBusinessHours | frontend/src/components/TimelineSchedule.tsx:35-48 | from 08:00 to 22:00 in 30-minute steps, labelled zero-padded `HH:MM` |
| Timeline.FilterEvents | frontend/src/components/TimelineSchedule.tsx:51-56 | `all` returns the input; `mine` keeps exactly the involved entries in input order |
| Timeline.TotalLanes | frontend/src/components/TimelineSchedule.tsx:118-120 | at least 1, above every lane, and 1 or one more than some lane |
| Timeline.LaneContents | frontend/src/components/TimelineSchedule.tsx:105-108 | holds the interval of every position in the lane |
| Timeline.LaneContentsOnlyLane | frontend/src/components/TimelineSchedule.tsx:105-108 | holds nothing else: every interval in the lane is that of a position in the lane |
| Timeline.LaneContentsBeyond | frontend/src/components/TimelineSchedule.tsx:105-108 | a lane past the last has no intervals |
| Timeline.Lanes | frontend/src/components/TimelineSchedule.tsx:64-66 | one lane per lane count, each holding its positions' intervals |
| Timeline.Push | frontend/src/components/TimelineSchedule.tsx:95-108 | appends the interval to the chosen lane, opening it when new, and changes no other lane |
| Timeline.LanesAppend | frontend/src/components/TimelineSchedule.tsx:105-108 | the lanes after one more position are the old lanes with its interval pushed |
| Timeline.SourceLane | frontend/src/components/TimelineSchedule.tsx:83-103 | the lane chosen as written is 0 or 1 |
| Timeline.Layout | frontend/src/components/TimelineSchedule.tsx:59-116 | the lane count of the layout is at most 2 |
| Timeline.PickLane | frontend/src/components/TimelineSchedule.tsx:83-103 | the scan-then-open step picks the lane `SourceLane` names and widens the lanes only when it opens one |
| Timeline.EventPositions | frontend/src/components/TimelineSchedule.tsx:59-116 | the loop computes `Layout`, and every lane is 0 or 1 |
| Timeline.EntriesOf | frontend/src/components/TimelineSchedule.tsx:105-112 | the entries of the positions, in order |
| Timeline.LayoutPlacesInOrder | frontend/src/components/TimelineSchedule.tsx:75-112 | exactly one position per placed event, in input order |
| Timeline.LayoutGeometry | frontend/src/components/TimelineSchedule.tsx:75-110 | each position is for an event of the day from 08:00 on, with top twice its minutes, height twice its duration but at least 40, and lane below 2 |
| Timeline.FirstFree | frontend/src/components/TimelineSchedule.tsx:84-92 | the lowest lane from `from` without an overlap, or the lane count when every lane overlaps |
| Timeline.SourceLaneIsLowestFree | frontend/src/components/TimelineSchedule.tsx:83-92 | when some lane is free the source picks the lowest free one; otherwise lane 1 with one lane, lane 0 with two |
| Timeline.LayoutSnoc | frontend/src/components/TimelineSchedule.tsx:64-113 | the layout of one more event extends the layout of the prefix by that event's position, if placed |
| Timeline.ThirdEventStacksInLaneZero | frontend/src/components/TimelineSchedule.tsx:83-103 | [60,240), [120,180), [150,210) go to lanes 0, 1, 0, and the third overlaps the first |
| Timeline.TouchingEventsShareLane | frontend/src/components/TimelineSchedule.tsx:85-87 | an event starting when the previous one ends shares its lane |
| Timeline.FirstFitLane | frontend/src/components/TimelineSchedule.tsx:83-103 | corrected lane choice: a lane up to the lane count |
| Timeline.FirstFitNoOverlap | frontend/src/components/TimelineSchedule.tsx:83-103 | with first fit, no two events in one lane overlap |
| Timeline.FirstFitSnoc | frontend/src/components/TimelineSchedule.tsx:64-113 | the first-fit layout grows one placed event at a time |
| Timeline.FirstFitOpensThirdLane | frontend/src/components/TimelineSchedule.tsx:95-103 | first fit puts the three sample events in lanes 0, 1 and 2 |
| Timeline.PickFirstFit | frontend/src/components/TimelineSchedule.tsx:83-103 | the corrected step picks `FirstFitLane` and widens the lanes only when it opens one |
| Timeline.FirstFitPositions | frontend/src/components/TimelineSchedule.tsx:59-116 | the corrected loop computes the first-fit layout, and no two events in a lane overlap |
| DateSelector.NumberOf | frontend/src/components/DateSelector.tsx:37 | a number iff the piece is all digits |
| DateSelector.ParseDateInput | frontend/src/components/DateSelector.tsx:36-42 | a date iff there are three numeric pieces, and it is then valid |
| DateSelector.FormatParseRoundTrip | frontend/src/components/DateSelector.tsx:36-49 | parsing the formatted date gives back the same date, for years from 100 on |
| DateSelector.FieldsReadBack | frontend/src/components/DateSelector.tsx:44-49 | the formatted text splits into three pieces reading back as year, month and day |
| DateSelector.TwoDigitYearShifts | frontend/src/components/DateSelector.tsx:37-38 | a year from 0 to 99 comes back 1900 years later, except 29 February of year 0 |
| DateSelector.YearZeroLeapDay | frontend/src/components/DateSelector.tsx:37-38 | 29 February of year 0 comes back as 1 March 1900, since 1900 is not a leap year |
| DateSelector.MidnightOf | frontend/src/components/DateSelector.tsx:9-13 | midnight of the same local day, at or before the value and less than a day before |
| DateSelector.GetTodayDate | frontend/src/components/DateSelector.tsx:9-13 | a new `Date` at today's midnight |
| DateSelector.GetTomorrowDate | frontend/src/components/DateSelector.tsx:15-20 | a new `Date` one day after today's midnight |
| DateSelector.TomorrowIsNextDay | frontend/src/components/DateSelector.tsx:15-20 | tomorrow is a midnight on the next calendar day |
| DateSelector.TodayAndTomorrowExclusive | frontend/src/components/DateSelector.tsx:25-26 | a date is never both today and tomorrow |
| FormRules.MinuteOfDay | frontend/src/components/BookingForm.tsx:66-73 | the minute of the local day, from 0 to 1439 |
| FormRules.ParseDateTimeLocal | frontend/src/components/BookingForm.tsx:84 | only 16-character text parses, and a parse is a valid date and minute of day |
| FormRules.FieldSlices | frontend/src/components/BookingForm.tsx:66-73 | each field of the formatted text sits at its fixed position |
| FormRules.HoursAndMinutes | frontend/src/components/BookingForm.tsx:70-71 | hours and minutes make up the minute of the day |
| FormRules.FormatParseRoundTrip | frontend/src/components/BookingForm.tsx:66-73 | for four-digit years the formatted text parses back to the date and minute |
| FormRules.FormatOutOfRange | frontend/src/components/BookingForm.tsx:66-73 | for other years the formatted text does not parse |
| FormRules.MinuteCount | frontend/src/components/BookingForm.tsx:66-73 | whole minutes are the day's minutes plus the minute of the day |
| FormRules.EarlierIffMinuteBefore | frontend/src/components/BookingForm.tsx:84 | one date-time is earlier iff its whole minute is earlier |
| FormRules.ClientRejectsIff | frontend/src/components/BookingForm.tsx:84-86 | the client check rejects two formatted times iff the end's minute is not after the start's |
| FormRules.LaterEndAccepted | frontend/src/components/BookingForm.tsx:84-86 | an end at least a minute after the start is accepted |
| FormRules.DefaultStart | frontend/src/components/BookingForm.tsx:43-51 | on the hour: the reference truncated, plus an hour unless a start time was selected |
| FormRules.TruncateToHour | frontend/src/components/BookingForm.tsx:46-48 | the `Date` is moved back to the start of its hour |
| FormRules.AddHour | frontend/src/components/BookingForm.tsx:50 | the `Date` is moved one hour on |
| FormRules.DefaultWindow | frontend/src/components/BookingForm.tsx:43-54 | new start and end `Date`s, the start at `DefaultStart` and the end one hour later |
| FormRules.DefaultWindowAccepted | frontend/src/components/BookingForm.tsx:53-86 | the default window passes the client check |
| FormRules.DefaultSpaceId | frontend/src/components/BookingForm.tsx:35-59 | the selected space if non-zero, else the first space, else 0 |
| FormRules.DefaultsReachSubmit | frontend/src/components/BookingForm.tsx:42-89 | a form left at its defaults is submitted |
| FormRules.ErrorLines | frontend/src/components/BookingForm.tsx:93-95 | an error list is shown one error per line |
| FormRules.DeleteIgnoresErrorList | frontend/src/components/EventDetailPanel.tsx:117-128 | deletion shows the message where submission shows the joined list |
| FormRules.SubmitAttempt | frontend/src/components/BookingForm.tsx:75-108 | submitted iff the check passes, else the range message; closed iff submitted and resolved; an error iff not closed, chosen from the failure |
| FormRules.DeleteAttempt | frontend/src/components/EventDetailPanel.tsx:109-133 | closed iff the deletion resolves; otherwise the error chosen from the failure |
| BookingForm.BookingFormState.constructor | frontend/src/components/BookingForm.tsx:32-40 | empty fields with the default space, not loading, no error |
| BookingForm.BookingFormState.ApplyDefaults | frontend/src/components/BookingForm.tsx:42-64 | the form becomes the default form and the error clears |
| BookingForm.BookingFormState.HandleSubmit | frontend/src/components/BookingForm.tsx:75-108 | follows `SubmitAttempt` with the create message, shows its error and ends not loading |
| BookingModal.BookingModalState.constructor | frontend/src/components/BookingModal.tsx:34-42 | empty fields with the default space, not loading, no error |
| BookingModal.BookingModalState.SyncDefaults | frontend/src/components/BookingModal.tsx:45-71 | while open, the form becomes the default form; while closed nothing changes |
| BookingModal.BookingModalState.HandleSubmit | frontend/src/components/BookingModal.tsx:82-117 | follows `SubmitAttempt` with the create message, shows its error and ends not loading |
| EventDetailPanel.SplitTwo | frontend/src/components/EventDetailPanel.tsx:64-72 | two separator-free pieces joined by the separator split back |
| EventDetailPanel.DisplaySplit | frontend/src/components/EventDetailPanel.tsx:64-72 | `Y/M/D HH:MM` over digit fields splits back into its fields |
| EventDetailPanel.DisplayReadsBack | frontend/src/components/EventDetailPanel.tsx:64-72 | the display text has the year, the unpadded month and day and the padded hours and minutes, each reading back |
| EventDetailPanel.LoadedEventAccepted | frontend/src/components/EventDetailPanel.tsx:42-85 | an event that ends after it starts loads into a form that passes the check |
| EventDetailPanel.ControlsOnlyForOrganizer | frontend/src/components/EventDetailPanel.tsx:212 | on the home timeline the controls show iff the user organises the event |
| EventDetailPanel.EventDetailPanelState.constructor | frontend/src/components/EventDetailPanel.tsx:30-40 | view mode, empty form, not loading, no error, no confirmation |
| EventDetailPanel.EventDetailPanelState.LoadEvent | frontend/src/components/EventDetailPanel.tsx:42-53 | view mode, no error, confirmation hidden, form loaded from the event with a missing description as "" |
| EventDetailPanel.EventDetailPanelState.ClickEdit | frontend/src/components/EventDetailPanel.tsx:169-228 | enters edit mode exactly when in view mode and the user organises the event; otherwise nothing changes |
| EventDetailPanel.EventDetailPanelState.ClickDelete | frontend/src/components/EventDetailPanel.tsx:169-220 | opens the confirmation exactly when in view mode and the user organises the event; otherwise nothing changes |
| EventDetailPanel.EventDetailPanelState.CancelDelete | frontend/src/components/EventDetailPanel.tsx:230-243 | closes the open confirmation in view mode unless loading; otherwise nothing changes |
| EventDetailPanel.EventDetailPanelState.CancelEdit | frontend/src/components/EventDetailPanel.tsx:364-373 | in edit mode and not loading, returns to view mode and clears the error; otherwise nothing changes |
| EventDetailPanel.EventDetailPanelState.HandleSubmit | frontend/src/components/EventDetailPanel.tsx:74-107 | follows `SubmitAttempt` with the update message, going back only on success, and ends not loading |
| EventDetailPanel.EventDetailPanelState.HandleDelete | frontend/src/components/EventDetailPanel.tsx:109-133 | follows `DeleteAttempt`, going back only on success; afterwards not loading and the confirmation hidden |

## Left out

- JSON rendering and response shapes are not modelled. This includes the nested `space`/`organizer` objects and the `full_messages` text of errors, which is given as a list of error values.
- Cookie sessions, CSRF, `has_secure_password` and the password check at login are out. `current_user` is a parameter.
- `require_admin` is not part of this model. The admin gate is modelled as 403 for a non-admin.
- Time zones and daylight saving time are out. All times are local, a day is 1440 minutes, and the `date`/`time` parameters arrive already parsed.
- Database row order is not part of this model:
  - ties in `order(:starts_at)` keep input order;
  - `first` on the unordered current-event query is taken as the least id.
- `sort_by!` sorts in place; it is modelled on values.
- Whitespace stripping and lower-casing cover ASCII only, as Ruby's `strip` and `downcase` of email addresses in practice do. `blank?` covers the Unicode White_Space characters.
- JavaScript `Number` leniency (surrounding whitespace, signs, exponents, hexadecimal) is out. Only plain digit strings are numbers.
- `FormRules.ParseDateTimeLocal`: browser `Date` parsing accepts more formats than the strict 16-character form modelled. For years outside 1000 to 9999 the formatter's year field is not four digits (the text has the wrong length, or, for years -999 to -100, a leading '-'), and the model takes the text as an invalid date; a browser's fallback parser may read such text differently.
- `Calendar.JsDate` has no time-value range limit. Values beyond ±8.64e15 ms, which JavaScript turns into an invalid date, are not represented.
- `Calendar.JsDate.SetDate` shifts by whole days from the current day of the month, so a day number outside the month carries into the neighbouring month.
- Pixel rounding of `top`/`height`, lane width percentages, all JSX, `toLocale*` formatting and the input `onChange` glue are out.
- `BookingModal` rendering nothing while closed is JSX and is not modelled. Only its state and handlers are.
- `DateSelector.ParseDateInput` returns the date handed to `onDateChange` as a calendar date rather than a `Date` object.
- `DateSelector.FormatParseRoundTrip` is stated for years from 100 on. Years 0 to 99 come back shifted by 1900 (`DateSelector.TwoDigitYearShifts`, and `DateSelector.YearZeroLeapDay` for 29 February of year 0). Negative years are not covered.
- `FormRules.FormatParseRoundTrip`: years outside 1000 to 9999 do not round-trip, because their year field is not four digits: the text has the wrong length, or, for years -999 to -100, 16 characters with a leading '-' (`FormRules.FormatOutOfRange`).
- `EventDetailPanel.DisplayReadsBack` is stated for non-negative years only.

## Findings

| source | as written | input that shows it | evidently intended | confidence | as-written member | corrected member |
|---|---|---|---|---|---|---|
| frontend/src/components/TimelineSchedule.tsx:83-103 | `assignedLane` starts at 0, and a new lane opens only when the single existing lane conflicts, so there are at most two lanes and an event overlapping both is put in lane 0 | minute intervals [60,240), [120,180), [150,210) from 08:00 on one day: the third lands in lane 0 over the first | first fit that opens a new lane whenever every lane conflicts, so no two events in a lane overlap | not executed | Timeline.ThirdEventStacksInLaneZero | Timeline.FirstFitNoOverlap |
