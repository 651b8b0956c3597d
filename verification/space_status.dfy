/**
 * Occupancy of one space at an instant: `Space#status_at`, `available_at?`
 * and `next_event_after`, as functions of the space's events and the instant.
 * Every event counts, whatever its approval status.
 */
module SpaceStatus {
  import opened Wrappers
  import opened Records

  /** The half-open window test `starts_at <= t AND ends_at > t`. */
  predicate Contains(e: Event, t: int) {
    e.startsAt <= t < e.endsAt
  }

  /**
   * `events.where('starts_at <= ? AND ends_at > ?', t, t).first`: `first` on an
   * unordered relation orders by primary key, so the containing event with the least id.
   */
  function CurrentEvent(events: seq<Event>, t: int): (r: Option<Event>)
    ensures r.None? <==> forall e :: e in events ==> !Contains(e, t)
    ensures r.Some? ==> r.value in events && Contains(r.value, t)
    ensures r.Some? ==> forall e :: e in events && Contains(e, t) ==> r.value.id <= e.id
  {
    if events == [] then None
    else
      var rest := CurrentEvent(events[1..], t);
      if Contains(events[0], t) && (rest.None? || events[0].id <= rest.value.id) then Some(events[0])
      else rest
  }

  /**
   * `events.where('starts_at > ?', t).order(:starts_at).first`: the event that
   * starts soonest strictly after `t` (among equal starts, the earliest listed).
   */
  function NextEventAfter(events: seq<Event>, t: int): (r: Option<Event>)
    ensures r.None? <==> forall e :: e in events ==> e.startsAt <= t
    ensures r.Some? ==> r.value in events && r.value.startsAt > t
    ensures r.Some? ==> forall e :: e in events && e.startsAt > t ==> r.value.startsAt <= e.startsAt
  {
    if events == [] then None
    else
      var rest := NextEventAfter(events[1..], t);
      if events[0].startsAt > t && (rest.None? || events[0].startsAt <= rest.value.startsAt) then Some(events[0])
      else rest
  }

  /** The hash `status_at` returns. */
  datatype StatusInfo =
    | Occupied(until: int, current: Event)
    | Available(nextEventAt: Option<int>, next: Option<Event>)

  /** `status_at(t)`: occupied until the end of a containing event, else the next event if any. */
  function StatusAt(events: seq<Event>, t: int): (r: StatusInfo)
    ensures r.Occupied? <==> exists e :: e in events && Contains(e, t)
    ensures r.Occupied? ==> r.current in events && Contains(r.current, t) && r.until == r.current.endsAt && r.until > t
    ensures r.Occupied? ==> forall e :: e in events && Contains(e, t) ==> r.current.id <= e.id
    ensures r.Available? ==> r.next == NextEventAfter(events, t)
    ensures r.Available? ==> r.nextEventAt.Some? == r.next.Some?
    ensures r.Available? && r.next.Some? ==>
      r.nextEventAt.value == r.next.value.startsAt
      && r.next.value in events && r.next.value.startsAt > t
      && forall e :: e in events && e.startsAt > t ==> r.next.value.startsAt <= e.startsAt
    ensures r.Available? && r.next.None? ==> forall e :: e in events ==> e.startsAt <= t
  {
    match CurrentEvent(events, t)
    case Some(current) => Occupied(current.endsAt, current)
    case None =>
      match NextEventAfter(events, t)
      case Some(next) => Available(Some(next.startsAt), Some(next))
      case None => Available(None, None)
  }

  /** `available_at?(t)`: no event holds `t`, which is exactly when `status_at(t)` is available. */
  function AvailableAt(events: seq<Event>, t: int): (r: bool)
    ensures r <==> StatusAt(events, t).Available?
    ensures r <==> forall e :: e in events ==> !Contains(e, t)
  {
    CurrentEvent(events, t).None?
  }

  /** The window is half open: a lone event is occupied from its start up to, not including, its end. */
  lemma {:induction false} HalfOpenWindow(e: Event, t: int)
    ensures StatusAt([e], t) ==
      if e.startsAt <= t < e.endsAt then Occupied(e.endsAt, e)
      else if t < e.startsAt then Available(Some(e.startsAt), Some(e))
      else Available(None, None)
  {
    assert [e][1..] == [];
  }

  /**
   * Overlapping bookings: `until` is the end of the containing event with the
   * least id, not the latest end. Event 1 holds [60, 120) and event 2 holds
   * [30, 180); at 90 the space is occupied until 120, whichever is listed first.
   */
  lemma OverlapReportsLeastId(a: Event, b: Event)
    requires a.id == 1 && a.startsAt == 60 && a.endsAt == 120
    requires b.id == 2 && b.startsAt == 30 && b.endsAt == 180
    ensures StatusAt([a, b], 90) == Occupied(120, a)
    ensures StatusAt([b, a], 90) == Occupied(120, a)
  {
    assert Contains(a, 90) && Contains(b, 90);
    var r := StatusAt([b, a], 90);
    assert r.Occupied? && r.current in [b, a];
    assert r.current.id <= a.id;
  }

  /** Two event lists that differ at most in their approval statuses. */
  predicate SameButStatus(a: seq<Event>, b: seq<Event>) {
    |a| == |b| && forall i :: 0 <= i < |a| ==> a[i] == b[i].(status := a[i].status)
  }

  lemma {:induction false} CurrentEventIgnoresStatus(a: seq<Event>, b: seq<Event>, t: int)
    requires SameButStatus(a, b)
    ensures CurrentEvent(a, t).Some? == CurrentEvent(b, t).Some?
    ensures CurrentEvent(a, t).Some? ==>
      CurrentEvent(a, t).value == CurrentEvent(b, t).value.(status := CurrentEvent(a, t).value.status)
  {
    if a != [] {
      CurrentEventIgnoresStatus(a[1..], b[1..], t);
    }
  }

  lemma {:induction false} NextEventIgnoresStatus(a: seq<Event>, b: seq<Event>, t: int)
    requires SameButStatus(a, b)
    ensures NextEventAfter(a, t).Some? == NextEventAfter(b, t).Some?
    ensures NextEventAfter(a, t).Some? ==>
      NextEventAfter(a, t).value == NextEventAfter(b, t).value.(status := NextEventAfter(a, t).value.status)
  {
    if a != [] {
      NextEventIgnoresStatus(a[1..], b[1..], t);
    }
  }

  /**
   * Pending and rejected events count like approved ones: changing only the
   * statuses changes neither the occupancy, nor `until`, nor `next_event_at`.
   */
  lemma StatusIgnoresApproval(a: seq<Event>, b: seq<Event>, t: int)
    requires SameButStatus(a, b)
    ensures StatusAt(a, t).Occupied? == StatusAt(b, t).Occupied?
    ensures StatusAt(a, t).Occupied? ==> StatusAt(a, t).until == StatusAt(b, t).until
    ensures StatusAt(a, t).Available? ==> StatusAt(a, t).nextEventAt == StatusAt(b, t).nextEventAt
  {
    CurrentEventIgnoresStatus(a, b, t);
    NextEventIgnoresStatus(a, b, t);
  }
}
