/** The persisted entities of the booking API. Instants are integer minutes of local time. */
module Records {
  import opened Wrappers

  /** Approval status of an event; the column defaults to 0, which is `Pending`. */
  datatype Status = Pending | Approved | Rejected

  /** A reservation of one space by one organising user over [startsAt, endsAt). */
  datatype Event = Event(
    id: int,
    name: string,
    description: Option<string>,
    startsAt: int,
    endsAt: int,
    spaceId: int,
    userId: int,
    status: Status)

  datatype User = User(id: int, name: string, email: string, admin: bool)

  datatype Space = Space(
    id: int,
    name: string,
    description: Option<string>,
    capacity: Option<int>,
    price: Option<string>,
    address: Option<string>)

  /** The events that belong to a space (`space.events`). */
  function EventsOfSpace(events: seq<Event>, spaceId: int): (r: seq<Event>)
    ensures forall e :: e in r <==> e in events && e.spaceId == spaceId
    ensures forall e :: multiset(r)[e] == if e.spaceId == spaceId then multiset(events)[e] else 0
  {
    if events == [] then []
    else
      assert events == [events[0]] + events[1..];
      (if events[0].spaceId == spaceId then [events[0]] else []) + EventsOfSpace(events[1..], spaceId)
  }
}
