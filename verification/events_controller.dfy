/**
 * The events API: the `before_action` chain (login, lookup, organiser,
 * admin), the `event_params` whitelist, and the store of events that
 * `create`, `update`, `destroy`, `approve` and `reject` change.
 */
module EventsController {
  import opened Wrappers
  import opened Records
  import opened EventValidation
  import Lists

  datatype Action = Index | Show | Create | Update | Destroy | Approve | Reject

  /** One key of the submitted `event` hash: left out, sent as null (or as a value that casts to nil), or sent. */
  datatype Field<T> = Omitted | Null | Value(v: T)

  /** The `event` hash of a request, with the keys the whitelist drops as well as those it keeps. */
  datatype RawEventParams = RawEventParams(
    name: Field<string>,
    description: Field<string>,
    startsAt: Field<int>,
    endsAt: Field<int>,
    spaceId: Field<int>,
    status: Field<Status>,
    userId: Field<int>,
    id: Field<int>)

  /** `params.require(:event)` raises ParameterMissing (400) for an absent or empty hash. */
  predicate ParamsMissing(raw: Option<RawEventParams>) {
    raw.None? || raw.value == RawEventParams(Omitted, Omitted, Omitted, Omitted, Omitted, Omitted, Omitted, Omitted)
  }

  /** An event as rendered by `event_response`, with the flags that depend on the current user. */
  datatype EventView = EventView(event: Event, isOrganizer: bool, isAdmin: bool)

  datatype Response =
    | EventList(views: seq<EventView>)             // 200 { events: [...] }
    | EventBody(view: EventView)                   // 200 { event: ... }
    | CreatedBody(view: EventView)                 // 201 { event: ... }
    | NoContent                                    // 204
    | BadRequest                                   // 400, ActionController::ParameterMissing
    | Unauthorized                                 // 401 { error: "unauthorized" }
    | Forbidden                                    // 403 { error: "forbidden" }
    | NotFound                                     // 404 { error: "not_found" }
    | InvalidRecord(errors: seq<FieldError>)       // 422 { errors: [...] }
    | NotPending(message: string)                  // 422 { error: "only pending events can be ..." }

  function StatusCode(r: Response): (code: int)
    ensures r.EventList? || r.EventBody? <==> code == 200
    ensures r.InvalidRecord? || r.NotPending? <==> code == 422
  {
    match r
    case EventList(_) => 200
    case EventBody(_) => 200
    case CreatedBody(_) => 201
    case NoContent => 204
    case BadRequest => 400
    case Unauthorized => 401
    case Forbidden => 403
    case NotFound => 404
    case InvalidRecord(_) => 422
    case NotPending(_) => 422
  }

  const ApproveNotPendingMessage := "only pending events can be approved"
  const RejectNotPendingMessage := "only pending events can be rejected"

  /** `event_response(event)`: `is_organizer` is `current_user&.id == event.user_id`, `is_admin` is `current_user&.admin? || false`. */
  function View(e: Event, current: Option<User>): (v: EventView)
    ensures v.event == e
    ensures v.isOrganizer <==> current.Some? && current.value.id == e.userId
    ensures v.isAdmin <==> current.Some? && current.value.admin
  {
    EventView(e, current.Some? && current.value.id == e.userId, current.Some? && current.value.admin)
  }

  /** The event a view is for. */
  function ViewEvent(v: EventView): Event { v.event }

  /** `Event.find(id)`: the stored event with that id, if any. */
  function FindEvent(events: seq<Event>, id: int): (r: Option<Event>)
    ensures r.None? <==> forall e :: e in events ==> e.id != id
    ensures r.Some? ==> r.value in events && r.value.id == id
  {
    if events == [] then None
    else if events[0].id == id then Some(events[0])
    else FindEvent(events[1..], id)
  }

  predicate RequiresLogin(a: Action) { a in {Create, Update, Destroy, Approve, Reject} }
  predicate LooksUp(a: Action) { a in {Show, Update, Destroy, Approve, Reject} }
  predicate OrganizerOnly(a: Action) { a == Update || a == Destroy }
  predicate AdminOnly(a: Action) { a == Approve || a == Reject }

  /**
   * The `before_action` chain: the first filter that renders halts the request.
   * `require_admin` is not part of this model's sources; it is taken to answer 403 to a non-admin.
   */
  function Gate(a: Action, current: Option<User>, found: Option<Event>): (r: Option<Response>)
    ensures r.None? <==>
      && (RequiresLogin(a) ==> current.Some?)
      && (LooksUp(a) ==> found.Some?)
      && (OrganizerOnly(a) ==> found.value.userId == current.value.id)
      && (AdminOnly(a) ==> current.value.admin)
    ensures RequiresLogin(a) && current.None? ==> r == Some(Unauthorized)
    ensures LooksUp(a) && found.None? && (RequiresLogin(a) ==> current.Some?) ==> r == Some(NotFound)
    ensures r.Some? ==> r.value in {Unauthorized, NotFound, Forbidden}
    ensures r == Some(Forbidden) ==>
      && current.Some? && found.Some?
      && (OrganizerOnly(a) || AdminOnly(a))
      && (OrganizerOnly(a) ==> found.value.userId != current.value.id)
      && (AdminOnly(a) ==> !current.value.admin)
  {
    if RequiresLogin(a) && current.None? then Some(Unauthorized)
    else if LooksUp(a) && found.None? then Some(NotFound)
    else if OrganizerOnly(a) && found.value.userId != current.value.id then Some(Forbidden)
    else if AdminOnly(a) && !current.value.admin then Some(Forbidden)
    else None
  }

  /** Without a session every write is refused with 401, whether or not the id exists. */
  lemma LoginBeforeLookup(a: Action, found: Option<Event>)
    requires RequiresLogin(a)
    ensures Gate(a, None, found) == Some(Unauthorized)
  {
  }

  /** An organiser-only action by someone else is refused with 403 even for an admin. */
  lemma OrganizerGateIgnoresAdmin(a: Action, u: User, e: Event)
    requires OrganizerOnly(a) && e.userId != u.id
    ensures Gate(a, Some(u), Some(e)) == Some(Forbidden)
    ensures Gate(a, Some(u.(admin := true)), Some(e)) == Some(Forbidden)
  {
  }

  /** A gate that refuses answers 401, 403 or 404, and 401 exactly when a login-only action has no session. */
  lemma GateStatusCodes(a: Action, current: Option<User>, found: Option<Event>)
    ensures var r := Gate(a, current, found);
      r.Some? ==> StatusCode(r.value) in {401, 403, 404}
    ensures var r := Gate(a, current, found);
      r.Some? ==> (StatusCode(r.value) == 401 <==> RequiresLogin(a) && current.None?)
  {
  }

  /** A stored event's columns as attributes. */
  function AttrsOf(e: Event): (a: Attrs)
    ensures a.startsAt == Some(e.startsAt) && a.endsAt == Some(e.endsAt) && a.spaceId == Some(e.spaceId)
  {
    Attrs(Some(e.name), e.description, Some(e.startsAt), Some(e.endsAt), Some(e.spaceId))
  }

  /** Assigning one permitted key: an omitted key keeps the old value, null clears it. */
  function AssignField<T>(prev: Option<T>, f: Field<T>): (r: Option<T>)
    ensures f.Omitted? ==> r == prev
    ensures f.Null? ==> r.None?
    ensures f.Value? ==> r == Some(f.v)
  {
    match f
    case Omitted => prev
    case Null => None
    case Value(v) => Some(v)
  }

  /** `assign_attributes(event_params)`: only name, description, starts_at, ends_at and space_id are taken. */
  function Assign(a: Attrs, raw: RawEventParams): (r: Attrs)
    ensures r.name == AssignField(a.name, raw.name)
    ensures r.description == AssignField(a.description, raw.description)
    ensures r.startsAt == AssignField(a.startsAt, raw.startsAt)
    ensures r.endsAt == AssignField(a.endsAt, raw.endsAt)
    ensures r.spaceId == AssignField(a.spaceId, raw.spaceId)
  {
    Attrs(
      AssignField(a.name, raw.name),
      AssignField(a.description, raw.description),
      AssignField(a.startsAt, raw.startsAt),
      AssignField(a.endsAt, raw.endsAt),
      AssignField(a.spaceId, raw.spaceId))
  }

  const NoAttrs := Attrs(None, None, None, None, None)

  /** Two requests that agree on the whitelisted keys. */
  predicate SamePermitted(p: RawEventParams, q: RawEventParams) {
    p.name == q.name && p.description == q.description && p.startsAt == q.startsAt
    && p.endsAt == q.endsAt && p.spaceId == q.spaceId
  }

  /** The keys the whitelist drops (status, user_id, id) have no effect on what is assigned. */
  lemma UnpermittedKeysIgnored(a: Attrs, p: RawEventParams, q: RawEventParams)
    requires SamePermitted(p, q)
    ensures Assign(a, p) == Assign(a, q)
  {
  }

  /** The row `save` writes once validation has passed. */
  function Materialize(id: int, userId: int, status: Status, a: Attrs, spaceIds: set<int>): (e: Event)
    requires Errors(a, spaceIds) == []
    ensures e.id == id && e.userId == userId && e.status == status
    ensures Some(e.name) == a.name && e.description == a.description
    ensures Some(e.startsAt) == a.startsAt && Some(e.endsAt) == a.endsAt && Some(e.spaceId) == a.spaceId
    ensures e.startsAt < e.endsAt && e.spaceId in spaceIds
  {
    ValidIff(a, spaceIds);
    Event(id, a.name.value, a.description, a.startsAt.value, a.endsAt.value, a.spaceId.value, userId, status)
  }

  /** The stored events with `e` in place of the event with the same id. */
  function ReplaceById(events: seq<Event>, e: Event): (r: seq<Event>)
    ensures |r| == |events|
    ensures forall i :: 0 <= i < |r| ==> r[i] == if events[i].id == e.id then e else events[i]
  {
    if events == [] then [] else [if events[0].id == e.id then e else events[0]] + ReplaceById(events[1..], e)
  }

  /** The stored events without the event with that id (`destroy!`). */
  function RemoveById(events: seq<Event>, id: int): (r: seq<Event>)
    ensures forall e :: e in r <==> e in events && e.id != id
    ensures UniqueIds(events) ==> UniqueIds(r)
  {
    if events == [] then []
    else if events[0].id == id then RemoveById(events[1..], id)
    else [events[0]] + RemoveById(events[1..], id)
  }

  /** Primary keys are unique. */
  predicate UniqueIds(events: seq<Event>) {
    events == [] || ((forall e :: e in events[1..] ==> e.id != events[0].id) && UniqueIds(events[1..]))
  }

  /** Replacing by id keeps the ids, hence their uniqueness. */
  lemma {:induction false} ReplaceKeepsUnique(events: seq<Event>, e: Event)
    requires UniqueIds(events) && exists x :: x in events && x.id == e.id
    ensures UniqueIds(ReplaceById(events, e))
  {
    if events != [] {
      var r := ReplaceById(events, e);
      assert r[1..] == ReplaceById(events[1..], e);
      forall x | x in r[1..]
        ensures x.id != r[0].id
      {
        var i :| 0 <= i < |r[1..]| && r[1..][i] == x;
        assert events[1..][i] in events[1..];
      }
      if events[0].id != e.id {
        ReplaceKeepsUnique(events[1..], e);
      } else {
        UniqueAfterReplaceAbsent(events[1..], e);
      }
    }
  }

  /** Appending an event whose id is new keeps the ids unique. */
  lemma {:induction false} AppendKeepsUnique(events: seq<Event>, e: Event)
    requires UniqueIds(events) && forall x :: x in events ==> x.id != e.id
    ensures UniqueIds(events + [e])
  {
    if events != [] {
      assert (events + [e])[1..] == events[1..] + [e];
      AppendKeepsUnique(events[1..], e);
    }
  }

  lemma {:induction false} UniqueAfterReplaceAbsent(events: seq<Event>, e: Event)
    requires UniqueIds(events) && forall x :: x in events ==> x.id != e.id
    ensures ReplaceById(events, e) == events
  {
    if events != [] {
      UniqueAfterReplaceAbsent(events[1..], e);
    }
  }

  /** With unique ids, looking up a stored event's id finds that event. */
  lemma {:induction false} FindStored(events: seq<Event>, e: Event)
    requires UniqueIds(events) && e in events
    ensures FindEvent(events, e.id) == Some(e)
  {
    if events[0] != e {
      assert e in events[1..];
      FindStored(events[1..], e);
    }
  }

  /** Replacing a stored event by itself changes nothing. */
  lemma {:induction false} ReplaceBySelf(events: seq<Event>, e: Event)
    requires UniqueIds(events) && e in events
    ensures ReplaceById(events, e) == events
  {
    if events[0] == e {
      UniqueAfterReplaceAbsent(events[1..], e);
      assert ReplaceById(events, e) == [e] + ReplaceById(events[1..], e);
    } else {
      assert e in events[1..];
      ReplaceBySelf(events[1..], e);
    }
  }

  /**
   * The flags of `event_response` agree with the server's gates: `is_organizer`
   * holds exactly when `update` and `destroy` would get past their before-actions,
   * and `is_admin` exactly when `approve` and `reject` would.
   */
  lemma ViewFlagsMatchGates(events: seq<Event>, e: Event, current: Option<User>)
    requires UniqueIds(events) && e in events
    ensures View(e, current).isOrganizer <==> Gate(Update, current, FindEvent(events, e.id)).None?
    ensures View(e, current).isOrganizer <==> Gate(Destroy, current, FindEvent(events, e.id)).None?
    ensures View(e, current).isAdmin <==> Gate(Approve, current, FindEvent(events, e.id)).None?
    ensures View(e, current).isAdmin <==> Gate(Reject, current, FindEvent(events, e.id)).None?
  {
    FindStored(events, e);
  }

  /** A stored event read back as attributes and saved again is the same row. */
  lemma StoredAttrsRoundTrip(e: Event, spaceIds: set<int>)
    requires Errors(AttrsOf(e), spaceIds) == []
    ensures Materialize(e.id, e.userId, e.status, AttrsOf(e), spaceIds) == e
  {
  }

  /** A submitted key that leaves the stored value as it is: omitted, or equal to it. */
  predicate Keeps<T(==)>(f: Field<T>, v: Option<T>) {
    f.Omitted? || (f.Null? && v.None?) || (f.Value? && v == Some(f.v))
  }

  /** The permitted keys of a request all re-send what is stored. */
  predicate Resends(raw: RawEventParams, e: Event) {
    var a := AttrsOf(e);
    Keeps(raw.name, a.name) && Keeps(raw.description, a.description) && Keeps(raw.startsAt, a.startsAt)
    && Keeps(raw.endsAt, a.endsAt) && Keeps(raw.spaceId, a.spaceId)
  }

  /**
   * An update whose permitted keys re-send the stored values, whatever else it
   * carries (a status, an owner), validates and writes back the same store.
   */
  lemma ResubmitLeavesStoreUnchanged(events: seq<Event>, e: Event, raw: RawEventParams, spaceIds: set<int>)
    requires UniqueIds(events) && e in events && Errors(AttrsOf(e), spaceIds) == []
    requires Resends(raw, e)
    ensures Assign(AttrsOf(e), raw) == AttrsOf(e)
    ensures ReplaceById(events, Materialize(e.id, e.userId, e.status, Assign(AttrsOf(e), raw), spaceIds)) == events
  {
    assert Assign(AttrsOf(e), raw) == AttrsOf(e);
    StoredAttrsRoundTrip(e, spaceIds);
    ReplaceBySelf(events, e);
  }

  /** Approving or rejecting. */
  datatype Decision = Approval | Rejection

  /** `approved!` / `rejected!` behind the `pending?` guard: only a pending event moves, once. */
  function Transition(s: Status, d: Decision): (r: Option<Status>)
    ensures r.Some? <==> s == Pending
    ensures r.Some? ==> r.value != Pending
    ensures r.Some? ==> (r.value == Approved <==> d == Approval)
  {
    if s != Pending then None
    else if d == Approval then Some(Approved)
    else Some(Rejected)
  }

  /** The status after a series of approve/reject requests, each refused ones leaving it unchanged. */
  function Decide(s: Status, ds: seq<Decision>): Status
    decreases |ds|
  {
    if ds == [] then s else Decide(Transition(s, ds[0]).GetOr(s), ds[1..])
  }

  /** Once decided, an event's status never changes again: approved and rejected are final. */
  lemma {:induction false} DecisionIsFinal(s: Status, ds: seq<Decision>)
    requires s != Pending
    ensures Decide(s, ds) == s
  {
    if ds != [] {
      DecisionIsFinal(s, ds[1..]);
    }
  }

  /** A pending event ends in the status chosen by the first request, whatever follows. */
  lemma {:induction false} FirstDecisionWins(ds: seq<Decision>)
    requires ds != []
    ensures Decide(Pending, ds) == (if ds[0] == Approval then Approved else Rejected)
  {
    DecisionIsFinal(Transition(Pending, ds[0]).value, ds[1..]);
  }

  /** The events table, the ids of the spaces table, and the next primary key. */
  class EventStore {
    var events: seq<Event>
    var spaceIds: set<int>
    var nextId: int

    predicate Valid()
      reads this
    {
      UniqueIds(events) && forall e :: e in events ==> e.id < nextId
    }

    constructor (spaces: set<int>)
      ensures events == [] && spaceIds == spaces && nextId == 1
      ensures Valid()
    {
      events := [];
      spaceIds := spaces;
      nextId := 1;
    }

    /** `index`: every event, or only those of the space given as `space_id`. */
    method IndexAction(current: Option<User>, spaceId: Option<int>) returns (resp: Response)
      ensures resp.EventList?
      ensures forall v :: v in resp.views ==> v == View(v.event, current)
      ensures forall e :: (exists v :: v in resp.views && v.event == e) <==>
        e in events && (spaceId.Some? ==> e.spaceId == spaceId.value)
      ensures spaceId.None? ==> Lists.Map(resp.views, ViewEvent) == events
      ensures spaceId.Some? ==>
        forall e :: multiset(Lists.Map(resp.views, ViewEvent))[e] == if e.spaceId == spaceId.value then multiset(events)[e] else 0
    {
      var selected := if spaceId.Some? then EventsOfSpace(events, spaceId.value) else events;
      var views := seq(|selected|, i requires 0 <= i < |selected| => View(selected[i], current));
      forall e | e in selected
        ensures exists v :: v in views && v.event == e
      {
        var i :| 0 <= i < |selected| && selected[i] == e;
        assert views[i].event == e;
      }
      assert Lists.Map(views, ViewEvent) == selected;
      resp := EventList(views);
    }

    /** `show`: the event, or 404 from `set_event`. */
    method ShowAction(current: Option<User>, id: int) returns (resp: Response)
      ensures resp.NotFound? || resp.EventBody?
      ensures resp.NotFound? <==> forall e :: e in events ==> e.id != id
      ensures resp.EventBody? ==> resp.view == View(resp.view.event, current)
      ensures resp.EventBody? ==> resp.view.event in events && resp.view.event.id == id
    {
      var found := FindEvent(events, id);
      if found.None? {
        return NotFound;
      }
      resp := EventBody(View(found.value, current));
    }

    /** `create`: the new event belongs to the current user and starts pending. */
    method CreateAction(current: Option<User>, raw: Option<RawEventParams>) returns (resp: Response)
      requires Valid()
      modifies this
      ensures Valid() && spaceIds == old(spaceIds)
      ensures current.None? ==> resp == Unauthorized
      ensures current.Some? && ParamsMissing(raw) ==> resp == BadRequest
      ensures StatusCode(resp) == 201 <==> resp.CreatedBody?
      ensures current.Some? && !ParamsMissing(raw) && Errors(Assign(NoAttrs, raw.value), spaceIds) != [] ==>
        resp == InvalidRecord(Errors(Assign(NoAttrs, raw.value), spaceIds))
      ensures !resp.CreatedBody? ==> events == old(events) && nextId == old(nextId)
      ensures resp.CreatedBody? <==>
        current.Some? && !ParamsMissing(raw) && Errors(Assign(NoAttrs, raw.value), spaceIds) == []
      ensures resp.CreatedBody? ==>
        var e := Materialize(old(nextId), current.value.id, Pending, Assign(NoAttrs, raw.value), spaceIds);
        && resp.view == View(e, current)
        && events == old(events) + [e]
        && nextId == old(nextId) + 1
    {
      if current.None? {
        return Unauthorized;
      }
      if ParamsMissing(raw) {
        return BadRequest;
      }
      var record := new EventRecord(Assign(NoAttrs, raw.value));
      var ok := record.IsValid(spaceIds);
      if !ok {
        return InvalidRecord(record.errors);
      }
      var e := Materialize(nextId, current.value.id, Pending, record.attrs, spaceIds);
      AppendKeepsUnique(events, e);
      events := events + [e];
      nextId := nextId + 1;
      resp := CreatedBody(View(e, current));
    }

    /** `update`: gates, then assignment of the whitelisted keys; a failed validation writes nothing. */
    method UpdateAction(current: Option<User>, id: int, raw: Option<RawEventParams>) returns (resp: Response)
      requires Valid()
      modifies this
      ensures Valid() && spaceIds == old(spaceIds) && nextId == old(nextId)
      ensures var g := Gate(Update, current, FindEvent(old(events), id)); g.Some? ==> resp == g.value
      ensures Gate(Update, current, FindEvent(old(events), id)).None? && ParamsMissing(raw) ==> resp == BadRequest
      ensures (Gate(Update, current, FindEvent(old(events), id)).None? && !ParamsMissing(raw)
        && Errors(Assign(AttrsOf(FindEvent(old(events), id).value), raw.value), spaceIds) != []) ==>
        resp == InvalidRecord(Errors(Assign(AttrsOf(FindEvent(old(events), id).value), raw.value), spaceIds))
      ensures StatusCode(resp) == 200 <==> resp.EventBody?
      ensures !resp.EventBody? ==> events == old(events)
      ensures resp.EventBody? <==>
        Gate(Update, current, FindEvent(old(events), id)).None? && !ParamsMissing(raw)
        && Errors(Assign(AttrsOf(FindEvent(old(events), id).value), raw.value), spaceIds) == []
      ensures resp.EventBody? ==>
        var old_e := FindEvent(old(events), id).value;
        var e := Materialize(id, old_e.userId, old_e.status, Assign(AttrsOf(old_e), raw.value), spaceIds);
        && resp.view == View(e, current)
        && events == ReplaceById(old(events), e)
      ensures resp.InvalidRecord? ==>
        FindEvent(old(events), id).Some? && raw.Some? && resp.errors == Errors(Assign(AttrsOf(FindEvent(old(events), id).value), raw.value), spaceIds)
    {
      var found := FindEvent(events, id);
      var g := Gate(Update, current, found);
      if g.Some? {
        return g.value;
      }
      if ParamsMissing(raw) {
        return BadRequest;
      }
      var record := new EventRecord(Assign(AttrsOf(found.value), raw.value));
      var ok := record.IsValid(spaceIds);
      if !ok {
        return InvalidRecord(record.errors);
      }
      var e := Materialize(id, found.value.userId, found.value.status, record.attrs, spaceIds);
      ReplaceKeepsUnique(events, e);
      events := ReplaceById(events, e);
      resp := EventBody(View(e, current));
    }

    /** `destroy`: gates, then the event is removed and 204 returned. */
    method DestroyAction(current: Option<User>, id: int) returns (resp: Response)
      requires Valid()
      modifies this
      ensures Valid() && spaceIds == old(spaceIds) && nextId == old(nextId)
      ensures var g := Gate(Destroy, current, FindEvent(old(events), id));
        (g.Some? ==> resp == g.value && events == old(events))
        && (g.None? ==> resp == NoContent && events == RemoveById(old(events), id))
    {
      var g := Gate(Destroy, current, FindEvent(events, id));
      if g.Some? {
        return g.value;
      }
      events := RemoveById(events, id);
      resp := NoContent;
    }

    /** `approve` and `reject`: gates, then the `pending?` guard, then the status write. */
    method DecideAction(current: Option<User>, id: int, d: Decision) returns (resp: Response)
      requires Valid()
      modifies this
      ensures Valid() && spaceIds == old(spaceIds) && nextId == old(nextId)
      ensures var a := if d == Approval then Approve else Reject;
        var found := FindEvent(old(events), id);
        var g := Gate(a, current, found);
        && (g.Some? ==> resp == g.value && events == old(events))
        && (g.None? && found.value.status != Pending ==>
              resp == NotPending(if d == Approval then ApproveNotPendingMessage else RejectNotPendingMessage)
              && events == old(events))
        && (g.None? && found.value.status == Pending ==>
              var e := found.value.(status := if d == Approval then Approved else Rejected);
              resp == EventBody(View(e, current)) && events == ReplaceById(old(events), e))
    {
      var a := if d == Approval then Approve else Reject;
      var found := FindEvent(events, id);
      var g := Gate(a, current, found);
      if g.Some? {
        return g.value;
      }
      var next := Transition(found.value.status, d);
      if next.None? {
        return NotPending(if d == Approval then ApproveNotPendingMessage else RejectNotPendingMessage);
      }
      var e := found.value.(status := next.value);
      ReplaceKeepsUnique(events, e);
      events := ReplaceById(events, e);
      resp := EventBody(View(e, current));
    }
  }
}
