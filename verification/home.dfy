/**
 * The home page's data (`HomeController#index`): every space with its status
 * at the target time, the target day's timeline, the user's upcoming events
 * and, for admins, the events awaiting approval. Instants are integer minutes;
 * day `d` spans minutes `[d * 1440, (d + 1) * 1440)`.
 */
module Home {
  import opened Wrappers
  import opened Records
  import opened Lists
  import opened SpaceStatus

  const MinutesPerDay := 1440

  /**
   * `starts_at < end_of_day AND ends_at > beginning_of_day`. On whole minutes
   * `end_of_day` (23:59:59.999999) excludes exactly the instants from the next midnight on.
   */
  predicate InDay(e: Event, day: int) {
    e.startsAt < (day + 1) * MinutesPerDay && e.endsAt > day * MinutesPerDay
  }

  /** Rejected events are hidden from a non-admin unless they organised them. */
  predicate VisibleTo(e: Event, u: User) {
    u.admin || e.status != Rejected || e.userId == u.id
  }

  datatype SpaceRow = SpaceRow(space: Space, status: StatusInfo)
  datatype TimelineEntry = TimelineEntry(event: Event, isOrganizer: bool, userInvolved: bool)
  datatype MyEventRow = MyEventRow(event: Event, isOrganizer: bool)

  datatype HomeData = HomeData(
    spaces: seq<SpaceRow>,
    timeline: seq<TimelineEntry>,
    myEvents: seq<MyEventRow>,
    pendingEvents: seq<Event>,
    currentTime: int,
    targetDay: int)

  datatype Reply = Page(data: HomeData) | Unauthorized

  function StartKey(e: Event): int { e.startsAt }
  function SpaceKey(row: SpaceRow): int { row.space.id }
  function EntryKey(x: TimelineEntry): int { x.event.startsAt }
  function MyKey(x: MyEventRow): int { x.event.startsAt }

  /** The spaces section: every space once, by ascending id, each with its status at `t`. */
  ghost predicate SpacesSection(rows: seq<SpaceRow>, spaces: seq<Space>, events: seq<Event>, t: int) {
    && |rows| == |spaces|
    && SortedBy(rows, SpaceKey)
    && (forall s :: s in spaces <==> exists row :: row in rows && row.space == s)
    && forall row :: row in rows ==> row.status == StatusAt(EventsOfSpace(events, row.space.id), t)
  }

  /** The timeline: exactly the visible events meeting the day, by start, flagged when the user organises them. */
  ghost predicate TimelineSection(entries: seq<TimelineEntry>, events: seq<Event>, u: User, day: int) {
    && SortedBy(entries, EntryKey)
    && (forall e :: (exists x :: x in entries && x.event == e) <==> e in events && InDay(e, day) && VisibleTo(e, u))
    && (forall e :: multiset(Map(entries, EntryEvent))[e] == if InDay(e, day) && VisibleTo(e, u) then multiset(events)[e] else 0)
    && forall x :: x in entries ==> x.isOrganizer == x.userInvolved == (x.event.userId == u.id)
  }

  /** `my_events`: the user's own events that have not ended by `now`, by start. */
  ghost predicate MyEventsSection(rows: seq<MyEventRow>, events: seq<Event>, u: User, now: int) {
    && SortedBy(rows, MyKey)
    && (forall e :: (exists x :: x in rows && x.event == e) <==> e in events && e.userId == u.id && e.endsAt > now)
    && (forall e :: multiset(Map(rows, RowEvent))[e] == if e.userId == u.id && e.endsAt > now then multiset(events)[e] else 0)
    && forall x :: x in rows ==> x.isOrganizer
  }

  /** `pending_events`: nothing for a non-admin; every pending event, by start, for an admin. */
  ghost predicate PendingSection(pending: seq<Event>, events: seq<Event>, u: User) {
    && (!u.admin ==> pending == [])
    && SortedBy(pending, StartKey)
    && (forall e :: e in pending <==> u.admin && e in events && e.status == Pending)
    && forall e :: multiset(pending)[e] == if u.admin && e.status == Pending then multiset(events)[e] else 0
  }

  /** The event a timeline entry is for. */
  function EntryEvent(x: TimelineEntry): Event { x.event }

  /** The event a `my_events` row is for. */
  function RowEvent(x: MyEventRow): Event { x.event }

  /** `Space.all.map { status_at(target_time) }` then `sort_by! { id }`. */
  method SpaceRows(spaces: seq<Space>, events: seq<Event>, t: int) returns (rows: seq<SpaceRow>)
    ensures SpacesSection(rows, spaces, events, t)
  {
    rows := seq(|spaces|, i requires 0 <= i < |spaces| =>
      SpaceRow(spaces[i], StatusAt(EventsOfSpace(events, spaces[i].id), t)));
    forall s | s in spaces
      ensures exists row :: row in rows && row.space == s
    {
      var i :| 0 <= i < |spaces| && spaces[i] == s;
      assert rows[i].space == s;
    }
    rows := SortBy(rows, SpaceKey);
  }

  /** The day-window query ordered by `starts_at`, narrowed for a non-admin, then flagged. */
  method Timeline(events: seq<Event>, u: User, day: int) returns (entries: seq<TimelineEntry>)
    ensures TimelineSection(entries, events, u, day)
  {
    var meets := (e: Event) => InDay(e, day);
    var inDay := Filter(events, meets);
    var sorted := SortBy(inDay, StartKey);
    var allEvents := sorted;
    var shown := (e: Event) => e.status != Rejected || e.userId == u.id;
    if !u.admin {
      FilterSorted(allEvents, shown, StartKey);
      allEvents := Filter(allEvents, shown);
    }
    assert SortedBy(allEvents, StartKey);
    assert forall e :: e in allEvents <==> e in events && InDay(e, day) && VisibleTo(e, u);
    forall e
      ensures multiset(allEvents)[e] == if InDay(e, day) && VisibleTo(e, u) then multiset(events)[e] else 0
    {
      FilterCount(events, meets, e);
      if !u.admin {
        FilterCount(sorted, shown, e);
      }
    }
    entries := Entries(allEvents, u);
  }

  /** The `timeline_events` hashes of `all_events`, in the same order. */
  function Entries(es: seq<Event>, u: User): (entries: seq<TimelineEntry>)
    ensures |entries| == |es|
    ensures forall i :: 0 <= i < |es| ==> entries[i].event == es[i]
    ensures Map(entries, EntryEvent) == es
    ensures forall e :: (exists x :: x in entries && x.event == e) <==> e in es
    ensures forall x :: x in entries ==> x.isOrganizer == x.userInvolved == (x.event.userId == u.id)
    ensures SortedBy(es, StartKey) ==> SortedBy(entries, EntryKey)
  {
    var entries := seq(|es|, i requires 0 <= i < |es| => TimelineEntry(es[i], es[i].userId == u.id, es[i].userId == u.id));
    assert forall e :: e in es ==> entries[IndexOf(es, e)].event == e;
    entries
  }

  /** The user's organised events with `ends_at > now`, ordered by `starts_at`. */
  method MyEvents(events: seq<Event>, u: User, now: int) returns (rows: seq<MyEventRow>)
    ensures MyEventsSection(rows, events, u, now)
  {
    var upcoming := (e: Event) => e.userId == u.id && e.endsAt > now;
    var mine := SortBy(Filter(events, upcoming), StartKey);
    assert forall e :: e in mine <==> e in events && e.userId == u.id && e.endsAt > now;
    forall e
      ensures multiset(mine)[e] == if e.userId == u.id && e.endsAt > now then multiset(events)[e] else 0
    {
      FilterCount(events, upcoming, e);
    }
    rows := MyRows(mine, u);
  }

  /** The `my_events` hashes, in the same order. */
  function MyRows(es: seq<Event>, u: User): (rows: seq<MyEventRow>)
    requires forall e :: e in es ==> e.userId == u.id
    ensures forall e :: (exists x :: x in rows && x.event == e) <==> e in es
    ensures Map(rows, RowEvent) == es
    ensures forall x :: x in rows ==> x.isOrganizer
    ensures SortedBy(es, StartKey) ==> SortedBy(rows, MyKey)
  {
    var rows := seq(|es|, i requires 0 <= i < |es| => MyEventRow(es[i], es[i].userId == u.id));
    assert forall e :: e in es ==> rows[IndexOf(es, e)].event == e;
    rows
  }

  /** The position of an element of a sequence. */
  function IndexOf<T(==)>(s: seq<T>, x: T): (i: int)
    requires x in s
    ensures 0 <= i < |s| && s[i] == x
  {
    if s[0] == x then 0 else 1 + IndexOf(s[1..], x)
  }

  /** `Event.pending.order(:starts_at)` for an admin, `[]` otherwise. */
  method PendingEvents(events: seq<Event>, u: User) returns (pending: seq<Event>)
    ensures PendingSection(pending, events, u)
  {
    var waiting := (e: Event) => e.status == Pending;
    pending := if u.admin then SortBy(Filter(events, waiting), StartKey) else [];
    forall e
      ensures multiset(pending)[e] == if u.admin && e.status == Pending then multiset(events)[e] else 0
    {
      FilterCount(events, waiting, e);
    }
  }

  /**
   * `index` behind `require_login`. `dateParam`/`timeParam` are the parsed
   * `date`/`time` parameters, `today`/`now` the clock; `my_events` is cut at
   * `now` even when a `time` parameter is given.
   */
  method Index(current: Option<User>, spaces: seq<Space>, events: seq<Event>,
               dateParam: Option<int>, timeParam: Option<int>, today: int, now: int)
    returns (reply: Reply)
    ensures reply.Unauthorized? <==> current.None?
    ensures reply.Page? ==>
      var d := reply.data;
      var u := current.value;
      && d.targetDay == dateParam.GetOr(today)
      && d.currentTime == timeParam.GetOr(now)
      && SpacesSection(d.spaces, spaces, events, d.currentTime)
      && TimelineSection(d.timeline, events, u, d.targetDay)
      && MyEventsSection(d.myEvents, events, u, now)
      && PendingSection(d.pendingEvents, events, u)
  {
    if current.None? {
      return Unauthorized;
    }
    var u := current.value;
    var targetDay := dateParam.GetOr(today);
    var targetTime := timeParam.GetOr(now);
    var rows := SpaceRows(spaces, events, targetTime);
    var timeline := Timeline(events, u, targetDay);
    var myRows := MyEvents(events, u, now);
    var pending := PendingEvents(events, u);
    reply := Page(HomeData(rows, timeline, myRows, pending, targetTime, targetDay));
  }

  /** A multi-day event shown on two days is shown on every day between them. */
  lemma MultiDayEventShown(e: Event, first: int, last: int, day: int)
    requires InDay(e, first) && InDay(e, last) && first <= day <= last
    ensures InDay(e, day)
  {
  }

  /** An event ending exactly at midnight does not appear on the following day. */
  lemma EndAtMidnightExcluded(e: Event, day: int)
    requires e.endsAt == day * MinutesPerDay
    ensures !InDay(e, day)
  {
  }
}
