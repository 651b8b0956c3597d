/**
 * The day timeline (`TimelineSchedule`): the half-hour slot rows from 08:00 to
 * 22:00, the "mine" filter, and the layout loop that gives every event of the
 * selected day a vertical position and a lane. Event times are local minutes;
 * day `d` spans minutes `[d * 1440, (d + 1) * 1440)`.
 */
module Timeline {
  import opened Wrappers
  import opened Text
  import opened Calendar
  import opened Lists
  import opened Records
  import opened Home

  const StartHour := 8
  const EndHour := 22
  /** Pixels per 30-minute slot: 2 pixels per minute. */
  const SlotHeight := 60
  const MinHeight := 40

  function Max(a: int, b: int): int { if a >= b then a else b }

  // ---------------------------------------------------------------------------
  // Time slots

  datatype Slot = Slot(hour: int, minute: int, time: string)

  /** The `HH:MM` label of a slot. */
  function SlotLabel(hour: nat, minute: nat): string {
    Pad2(hour) + ":" + Pad2(minute)
  }

  function SlotOf(hour: nat, minute: nat): Slot {
    Slot(hour, minute, SlotLabel(hour, minute))
  }

  /** The k-th slot: 08:00, 08:30, 09:00, ... */
  function SlotAt(k: nat): Slot {
    SlotOf(StartHour + k / 2, (k % 2) * 30)
  }

  function SlotMinutes(s: Slot): int { s.hour * 60 + s.minute }

  /** The slot pushed for `hour`:`minute` is the one at index 2 * (hour - 8) + minute / 30. */
  lemma SlotAtIndex(hour: nat, minute: nat)
    requires hour >= StartHour && (minute == 0 || minute == 30)
    ensures SlotAt(2 * (hour - StartHour) + minute / 30) == SlotOf(hour, minute)
  {
    var k := 2 * (hour - StartHour) + minute / 30;
    DivModUnique(k, 2, hour - StartHour, minute / 30);
  }

  /** `timeSlots`: the nested hour/minute loops, stopping at 22:00. */
  method TimeSlots() returns (slots: seq<Slot>)
    ensures |slots| == 29
    ensures forall k :: 0 <= k < |slots| ==> slots[k] == SlotAt(k)
  {
    slots := [];
    var hour := StartHour;
    while hour <= EndHour
      invariant StartHour <= hour <= EndHour + 1
      invariant |slots| == if hour <= EndHour then 2 * (hour - StartHour) else 29
      invariant forall k :: 0 <= k < |slots| ==> slots[k] == SlotAt(k)
    {
      var minute := 0;
      while minute < 60
        invariant minute == 0 || minute == 30 || minute == 60
        invariant hour == EndHour ==> minute <= 30
        invariant |slots| == 2 * (hour - StartHour) + minute / 30
        invariant forall k :: 0 <= k < |slots| ==> slots[k] == SlotAt(k)
      {
        if hour == EndHour && minute > 0 {
          break;
        }
        SlotAtIndex(hour, minute);
        slots := slots + [SlotOf(hour, minute)];
        minute := minute + 30;
      }
      hour := hour + 1;
    }
  }

  /** The slots run from 08:00 to 22:00 in steps of exactly 30 minutes, labelled `HH:MM`. */
  lemma SlotsSpanBusinessHours()
    ensures SlotMinutes(SlotAt(0)) == 8 * 60 && SlotMinutes(SlotAt(28)) == 22 * 60
    ensures forall k: nat :: k < 28 ==> SlotMinutes(SlotAt(k + 1)) == SlotMinutes(SlotAt(k)) + 30
    ensures forall k: nat :: k < 29 ==>
      var s := SlotAt(k);
      |s.time| == 5 && s.time[2] == ':' && DigitsValue(s.time[..2]) == s.hour && DigitsValue(s.time[3..]) == s.minute
  {
    forall k: nat | k < 29
      ensures var s := SlotAt(k);
        |s.time| == 5 && s.time[2] == ':' && DigitsValue(s.time[..2]) == s.hour && DigitsValue(s.time[3..]) == s.minute
    {
      var s := SlotAt(k);
      assert s.time[..2] == Pad2(s.hour);
      assert s.time[3..] == Pad2(s.minute);
    }
  }

  // ---------------------------------------------------------------------------
  // The "mine" filter

  datatype EventFilter = All | Mine

  /** `filteredEvents`: with 'mine', the events the user is involved in, in order; with 'all', the input. */
  function FilterEvents(events: seq<TimelineEntry>, filter: EventFilter): (r: seq<TimelineEntry>)
    ensures filter == All ==> r == events
    ensures filter == Mine ==> forall x :: x in r <==> x in events && x.userInvolved
    ensures filter == Mine ==> r == Filter(events, (x: TimelineEntry) => x.userInvolved)
  {
    if filter == Mine then Filter(events, (x: TimelineEntry) => x.userInvolved) else events
  }

  // ---------------------------------------------------------------------------
  // Positions and lanes

  /** Minutes since 08:00 of the start's wall-clock time (`getHours`, `getMinutes`). */
  function StartMinute(e: Event): int { e.startsAt % MinutesPerDay - StartHour * 60 }

  /** Minutes since 08:00 of the end's wall-clock time; an end on a later day wraps around. */
  function EndMinute(e: Event): int { e.endsAt % MinutesPerDay - StartHour * 60 }

  /** Events that start before 08:00, or on another day than the selected one, get no position. */
  predicate Placed(e: Event, day: int) {
    StartMinute(e) >= 0 && e.startsAt / MinutesPerDay == day
  }

  /** An occupied span of a lane, in minutes since 08:00. */
  datatype Interval = Interval(startMinute: int, endMinute: int)

  function IntervalOf(e: Event): Interval { Interval(StartMinute(e), EndMinute(e)) }

  /** The test `!(end <= occupied.start || start >= occupied.end)`: spans that only touch do not overlap. */
  predicate Overlaps(occupied: Interval, startMinute: int, endMinute: int) {
    !(endMinute <= occupied.startMinute || startMinute >= occupied.endMinute)
  }

  /** `lane.some(occupied => overlaps)`. */
  predicate HasOverlap(lane: seq<Interval>, startMinute: int, endMinute: int) {
    exists iv :: iv in lane && Overlaps(iv, startMinute, endMinute)
  }

  datatype Position = Position(entry: TimelineEntry, top: int, height: int, lane: nat)

  /** `top = (startMinute / 30) * SLOT_HEIGHT`: 2 pixels per minute since 08:00. */
  function Top(e: Event): int { StartMinute(e) * SlotHeight / 30 }

  /** `Math.max(((endMinute - startMinute) / 30) * SLOT_HEIGHT, 40)`. */
  function Height(e: Event): int { Max((EndMinute(e) - StartMinute(e)) * SlotHeight / 30, MinHeight) }

  /** `totalLanes`: `Math.max(1, ...positions.map(p => p.lane + 1))`. */
  function TotalLanes(ps: seq<Position>): (n: nat)
    ensures n >= 1
    ensures forall p :: p in ps ==> p.lane < n
    ensures n == 1 || exists p :: p in ps && p.lane + 1 == n
  {
    if ps == [] then 1
    else
      var prefix := ps[..|ps| - 1];
      assert ps == prefix + [ps[|ps| - 1]];
      Max(TotalLanes(prefix), ps[|ps| - 1].lane + 1)
  }

  /** The spans in lane `lane`, in placement order. */
  function LaneContents(ps: seq<Position>, lane: nat): (r: seq<Interval>)
    ensures forall i :: 0 <= i < |ps| && ps[i].lane == lane ==> IntervalOf(ps[i].entry.event) in r
  {
    if ps == [] then []
    else
      var prefix := ps[..|ps| - 1];
      var r := LaneContents(prefix, lane) + (if ps[|ps| - 1].lane == lane then [IntervalOf(ps[|ps| - 1].entry.event)] else []);
      assert forall i :: 0 <= i < |prefix| ==> ps[i] == prefix[i];
      r
  }

  /** Conversely, every span in lane `lane` is the span of a position in that lane. */
  lemma {:induction false} LaneContentsOnlyLane(ps: seq<Position>, lane: nat)
    ensures forall iv :: iv in LaneContents(ps, lane) ==>
      exists i :: 0 <= i < |ps| && ps[i].lane == lane && IntervalOf(ps[i].entry.event) == iv
  {
    if ps != [] {
      var prefix := ps[..|ps| - 1];
      LaneContentsOnlyLane(prefix, lane);
      assert forall i :: 0 <= i < |prefix| ==> ps[i] == prefix[i];
    }
  }

  lemma {:induction false} LaneContentsBeyond(ps: seq<Position>, lane: nat)
    requires lane >= TotalLanes(ps)
    ensures LaneContents(ps, lane) == []
  {
    if ps != [] {
      LaneContentsBeyond(ps[..|ps| - 1], lane);
    }
  }

  /** The `lanes` array the loop maintains, as a function of the positions placed so far. */
  function Lanes(ps: seq<Position>): (lanes: seq<seq<Interval>>)
    ensures |lanes| == TotalLanes(ps)
    ensures forall l :: 0 <= l < |lanes| ==> lanes[l] == LaneContents(ps, l)
  {
    seq(TotalLanes(ps), l requires 0 <= l < TotalLanes(ps) => LaneContents(ps, l))
  }

  /** `lanes` with a new empty lane when `lane` is one past the last, then the span pushed onto lane `lane`. */
  function Push(lanes: seq<seq<Interval>>, lane: nat, iv: Interval): (r: seq<seq<Interval>>)
    requires lane <= |lanes|
    ensures |r| == if lane == |lanes| then |lanes| + 1 else |lanes|
    ensures forall l :: 0 <= l < |r| && l != lane ==> r[l] == lanes[l]
    ensures r[lane] == (if lane < |lanes| then lanes[lane] else []) + [iv]
  {
    var widened := lanes + (if lane == |lanes| then [[]] else []);
    widened[lane := widened[lane] + [iv]]
  }

  /** One more position: the lane count, one step unfolded. */
  lemma TotalLanesSnoc(ps: seq<Position>, p: Position)
    ensures TotalLanes(ps + [p]) == Max(TotalLanes(ps), p.lane + 1)
  {
    assert (ps + [p])[..|ps|] == ps;
  }

  /** One more position: the contents of lane `l`, one step unfolded. */
  lemma LaneContentsSnoc(ps: seq<Position>, p: Position, l: nat)
    ensures LaneContents(ps + [p], l) ==
      LaneContents(ps, l) + (if p.lane == l then [IntervalOf(p.entry.event)] else [])
  {
    assert (ps + [p])[..|ps|] == ps;
  }

  /** Placing `p` pushes its span onto its lane, opening that lane if it is the next one. */
  lemma LanesAppend(ps: seq<Position>, p: Position)
    requires p.lane <= TotalLanes(ps)
    ensures Lanes(ps + [p]) == Push(Lanes(ps), p.lane, IntervalOf(p.entry.event))
  {
    TotalLanesSnoc(ps, p);
    LanesAfterPush(ps, p);
  }

  /** Every lane after one more position is that lane of the pushed lanes. */
  lemma LanesAfterPush(ps: seq<Position>, p: Position)
    requires p.lane <= TotalLanes(ps)
    ensures var expected := Push(Lanes(ps), p.lane, IntervalOf(p.entry.event));
      forall l :: 0 <= l < |expected| ==> LaneContents(ps + [p], l) == expected[l]
  {
    forall l | 0 <= l < |Push(Lanes(ps), p.lane, IntervalOf(p.entry.event))|
      ensures LaneContents(ps + [p], l) == Push(Lanes(ps), p.lane, IntervalOf(p.entry.event))[l]
    {
      LaneAfterPush(ps, p, l);
    }
  }

  /** Lane `l` after one more position is lane `l` of the pushed lanes. */
  lemma LaneAfterPush(ps: seq<Position>, p: Position, l: nat)
    requires p.lane <= TotalLanes(ps)
    requires l < |Push(Lanes(ps), p.lane, IntervalOf(p.entry.event))|
    ensures LaneContents(ps + [p], l) == Push(Lanes(ps), p.lane, IntervalOf(p.entry.event))[l]
  {
    var iv := IntervalOf(p.entry.event);
    var expected := Push(Lanes(ps), p.lane, iv);
    LaneContentsSnoc(ps, p, l);
    if l == p.lane && l == TotalLanes(ps) {
      LaneContentsBeyond(ps, l);
      assert expected[l] == [] + [iv];
    } else if l == p.lane {
      assert expected[l] == Lanes(ps)[l] + [iv];
    } else {
      assert expected[l] == Lanes(ps)[l];
    }
  }

  /**
   * The lane the source picks, given the current lanes (one or two of them):
   * the first lane without an overlapping span; when the only lane is busy, a
   * new second lane; when both lanes are busy, lane 0 regardless.
   */
  function SourceLane(lanes: seq<seq<Interval>>, iv: Interval): (lane: nat)
    requires 1 <= |lanes| <= 2
    ensures lane <= 1
  {
    if !HasOverlap(lanes[0], iv.startMinute, iv.endMinute) then 0
    else if |lanes| == 2 && !HasOverlap(lanes[1], iv.startMinute, iv.endMinute) then 1
    else if |lanes| == 1 then 1
    else 0
  }

  function PositionAt(entry: TimelineEntry, lane: nat): Position {
    Position(entry, Top(entry.event), Height(entry.event), lane)
  }

  /** The positions `eventPositions` computes, event by event. */
  function Layout(events: seq<TimelineEntry>, day: int): (ps: seq<Position>)
    ensures TotalLanes(ps) <= 2
    decreases |events|
  {
    if events == [] then []
    else
      var ps := Layout(events[..|events| - 1], day);
      var entry := events[|events| - 1];
      if Placed(entry.event, day) then ps + [PositionAt(entry, SourceLane(Lanes(ps), IntervalOf(entry.event)))]
      else ps
  }

  /**
   * "Find available lane" and "create new lane if needed": the scan for the first
   * lane without an overlap, falling back to lane 0, then a new lane when the
   * chosen lane is the last one, non-empty and overlapping.
   */
  method PickLane(lanes: seq<seq<Interval>>, startMinute: int, endMinute: int)
    returns (assignedLane: nat, widened: seq<seq<Interval>>)
    requires 1 <= |lanes| <= 2
    ensures assignedLane == SourceLane(lanes, Interval(startMinute, endMinute))
    ensures widened == lanes + (if assignedLane == |lanes| then [[]] else [])
  {
    widened := lanes;
    assignedLane := 0;
    var i := 0;
    while i < |widened|
      invariant 0 <= i <= |widened|
      invariant assignedLane == 0
      invariant forall j :: 0 <= j < i ==> HasOverlap(widened[j], startMinute, endMinute)
    {
      if !HasOverlap(widened[i], startMinute, endMinute) {
        assignedLane := i;
        break;
      }
      i := i + 1;
    }
    if assignedLane == |widened| - 1 && |widened[assignedLane]| > 0 {
      if HasOverlap(widened[assignedLane], startMinute, endMinute) {
        widened := widened + [[]];
        assignedLane := |widened| - 1;
      }
    }
  }

  /** `eventPositions`: the `forEach` loop over the events with its mutable `lanes` and `positions`. */
  method EventPositions(events: seq<TimelineEntry>, day: int) returns (positions: seq<Position>)
    ensures positions == Layout(events, day)
    ensures forall p :: p in positions ==> p.lane < 2
  {
    positions := [];
    var lanes: seq<seq<Interval>> := [[]];
    var n := 0;
    while n < |events|
      invariant 0 <= n <= |events|
      invariant positions == Layout(events[..n], day)
      invariant lanes == Lanes(positions)
    {
      assert events[..n + 1][..n] == events[..n];
      var entry := events[n];
      var startMinute := StartMinute(entry.event);
      var endMinute := EndMinute(entry.event);
      if startMinute >= 0 && entry.event.startsAt / MinutesPerDay == day {
        var top := startMinute * SlotHeight / 30;
        var height := (endMinute - startMinute) * SlotHeight / 30;
        var assignedLane;
        assignedLane, lanes := PickLane(lanes, startMinute, endMinute);
        lanes := lanes[assignedLane := lanes[assignedLane] + [Interval(startMinute, endMinute)]];
        var p := Position(entry, top, Max(height, MinHeight), assignedLane);
        LanesAppend(positions, p);
        positions := positions + [p];
      }
      n := n + 1;
    }
    assert events[..n] == events;
  }

  /** The events a list of positions is for, in order. */
  function EntriesOf(ps: seq<Position>): (r: seq<TimelineEntry>)
    ensures |r| == |ps| && forall i :: 0 <= i < |ps| ==> r[i] == ps[i].entry
  {
    seq(|ps|, i requires 0 <= i < |ps| => ps[i].entry)
  }

  /** Holds of the entries the layout places on `day`. */
  function PlacedOn(day: int): TimelineEntry -> bool {
    (x: TimelineEntry) => Placed(x.event, day)
  }

  /** The entries of one more position. */
  lemma EntriesOfSnoc(ps: seq<Position>, q: Position)
    ensures EntriesOf(ps + [q]) == EntriesOf(ps) + [q.entry]
  {
  }

  /** There is one position per placed event, in input order. */
  lemma {:induction false} LayoutPlacesInOrder(events: seq<TimelineEntry>, day: int)
    ensures EntriesOf(Layout(events, day)) == Filter(events, PlacedOn(day))
    decreases |events|
  {
    if events != [] {
      var prefix := events[..|events| - 1];
      var last := events[|events| - 1];
      LayoutPlacesInOrder(prefix, day);
      assert events == prefix + [last];
      FilterAppend(prefix, [last], PlacedOn(day));
      FilterHead([last], PlacedOn(day));
      assert [last][1..] == [];
      LayoutSnoc(prefix, last, day);
      var ps := Layout(prefix, day);
      if Placed(last.event, day) {
        EntriesOfSnoc(ps, PositionAt(last, SourceLane(Lanes(ps), IntervalOf(last.event))));
      }
    }
  }

  /** Every position is for an event of the selected day from 08:00 on, 2 pixels per minute and at least 40 tall, in lane 0 or 1. */
  lemma {:induction false} LayoutGeometry(events: seq<TimelineEntry>, day: int)
    ensures forall p :: p in Layout(events, day) ==>
      && Placed(p.entry.event, day)
      && p.top == 2 * StartMinute(p.entry.event)
      && p.height == Max(2 * (EndMinute(p.entry.event) - StartMinute(p.entry.event)), MinHeight)
      && p.height >= MinHeight
      && p.lane < 2
    decreases |events|
  {
    if events != [] {
      LayoutGeometry(events[..|events| - 1], day);
    }
  }

  /** The lowest lane without an overlapping span at or after `from`, or `|lanes|` when every one overlaps. */
  function FirstFree(lanes: seq<seq<Interval>>, iv: Interval, from: nat): (r: nat)
    requires from <= |lanes|
    ensures from <= r <= |lanes|
    ensures r < |lanes| ==> !HasOverlap(lanes[r], iv.startMinute, iv.endMinute)
    ensures forall j :: from <= j < r ==> HasOverlap(lanes[j], iv.startMinute, iv.endMinute)
    decreases |lanes| - from
  {
    if from == |lanes| then |lanes|
    else if !HasOverlap(lanes[from], iv.startMinute, iv.endMinute) then from
    else FirstFree(lanes, iv, from + 1)
  }

  /**
   * When some existing lane has room, the source picks the lowest such lane;
   * when none has, it opens a second lane if there was only one, and otherwise
   * puts the event in lane 0 over an overlapping one.
   */
  lemma SourceLaneIsLowestFree(lanes: seq<seq<Interval>>, iv: Interval)
    requires 1 <= |lanes| <= 2
    ensures FirstFree(lanes, iv, 0) < |lanes| ==> SourceLane(lanes, iv) == FirstFree(lanes, iv, 0)
    ensures FirstFree(lanes, iv, 0) == |lanes| ==> SourceLane(lanes, iv) == (if |lanes| == 1 then 1 else 0)
  {
  }

  function SampleEntry(id: int, startsAt: int, endsAt: int): TimelineEntry {
    TimelineEntry(Event(id, "", None, startsAt, endsAt, 1, 1, Approved), false, false)
  }

  /** 09:00-12:00, 10:00-11:00 and 10:30-11:30 on day 0: minutes [60,240), [120,180), [150,210) after 08:00. */
  function ThreeOverlapping(): seq<TimelineEntry> {
    [SampleEntry(1, 540, 720), SampleEntry(2, 600, 660), SampleEntry(3, 630, 690)]
  }

  lemma NoLanesYet()
    ensures Lanes([]) == [[]]
  {
  }

  lemma PushOntoEmpty(iv: Interval)
    ensures Push([[]], 0, iv) == [[iv]]
  {
    var r := Push([[]], 0, iv);
    assert r[0] == [] + [iv] == [iv];
  }

  lemma PushNewLane(lane: seq<Interval>, iv: Interval)
    ensures Push([lane], 1, iv) == [lane, [iv]]
  {
    var r := Push([lane], 1, iv);
    assert r[1] == [] + [iv] == [iv];
  }

  /** One more event: placed after the others when it is on the day from 08:00 on, else skipped. */
  lemma LayoutSnoc(events: seq<TimelineEntry>, entry: TimelineEntry, day: int)
    ensures Layout(events + [entry], day) ==
      if Placed(entry.event, day) then
        var ps := Layout(events, day);
        ps + [PositionAt(entry, SourceLane(Lanes(ps), IntervalOf(entry.event)))]
      else Layout(events, day)
  {
    assert (events + [entry])[..|events|] == events;
  }

  /** The third event overlaps both lanes and is put in lane 0, on top of the first. */
  lemma ThirdEventStacksInLaneZero()
    ensures var ps := Layout(ThreeOverlapping(), 0);
      && |ps| == 3
      && ps[0].lane == 0 && ps[1].lane == 1 && ps[2].lane == 0
      && Overlaps(IntervalOf(ps[0].entry.event), StartMinute(ps[2].entry.event), EndMinute(ps[2].entry.event))
  {
    var es := ThreeOverlapping();
    var iv0, iv1 := Interval(60, 240), Interval(120, 180);
    assert IntervalOf(es[0].event) == iv0 && IntervalOf(es[1].event) == iv1;
    assert Placed(es[0].event, 0) && Placed(es[1].event, 0) && Placed(es[2].event, 0);
    assert es == [] + [es[0]] + [es[1]] + [es[2]];
    NoLanesYet();
    LayoutSnoc([], es[0], 0);
    var p1 := [PositionAt(es[0], 0)];
    LanesAppend([], p1[0]);
    PushOntoEmpty(IntervalOf(p1[0].entry.event));
    assert [] + [p1[0]] == p1;
    assert Lanes(p1) == [[iv0]];
    assert HasOverlap(Lanes(p1)[0], 120, 180);
    LayoutSnoc([es[0]], es[1], 0);
    var p2 := p1 + [PositionAt(es[1], 1)];
    LanesAppend(p1, p2[1]);
    PushNewLane([iv0], iv1);
    assert p1 + [p2[1]] == p2;
    assert Lanes(p2) == [[iv0], [iv1]];
    assert HasOverlap(Lanes(p2)[0], 150, 210);
    assert HasOverlap(Lanes(p2)[1], 150, 210);
    LayoutSnoc([es[0], es[1]], es[2], 0);
  }

  /** Spans that only touch share a lane: the half-open test lets a lane hold back-to-back events. */
  lemma TouchingEventsShareLane(first: TimelineEntry, second: TimelineEntry, day: int)
    requires Placed(first.event, day) && Placed(second.event, day)
    requires StartMinute(first.event) < EndMinute(first.event) <= StartMinute(second.event)
    ensures var ps := Layout([first, second], day); |ps| == 2 && ps[0].lane == 0 && ps[1].lane == 0
  {
    assert [first, second] == [] + [first] + [second];
    NoLanesYet();
    LayoutSnoc([], first, day);
    var p1 := [PositionAt(first, 0)];
    LanesAppend([], p1[0]);
    PushOntoEmpty(IntervalOf(p1[0].entry.event));
    assert [] + [p1[0]] == p1;
    assert Lanes(p1) == [[IntervalOf(first.event)]];
    assert !HasOverlap(Lanes(p1)[0], StartMinute(second.event), EndMinute(second.event));
    LayoutSnoc([first], second, day);
  }

  // ---------------------------------------------------------------------------
  // First fit, as intended

  /** First fit: the lowest lane without an overlapping span, or a new lane after the last. */
  function FirstFitLane(lanes: seq<seq<Interval>>, iv: Interval): (lane: nat)
    ensures lane <= |lanes|
  {
    FirstFree(lanes, iv, 0)
  }

  function FirstFitLayout(events: seq<TimelineEntry>, day: int): (ps: seq<Position>)
    decreases |events|
  {
    if events == [] then []
    else
      var ps := FirstFitLayout(events[..|events| - 1], day);
      var entry := events[|events| - 1];
      if Placed(entry.event, day) then ps + [PositionAt(entry, FirstFitLane(Lanes(ps), IntervalOf(entry.event)))]
      else ps
  }

  /** No position overlaps an earlier position in the same lane. */
  predicate LanesDisjoint(ps: seq<Position>) {
    forall i, j :: 0 <= i < j < |ps| && ps[i].lane == ps[j].lane ==>
      !Overlaps(IntervalOf(ps[i].entry.event), StartMinute(ps[j].entry.event), EndMinute(ps[j].entry.event))
  }

  /** With first fit, no two events in the same lane overlap. */
  lemma {:induction false} FirstFitNoOverlap(events: seq<TimelineEntry>, day: int)
    ensures LanesDisjoint(FirstFitLayout(events, day))
    decreases |events|
  {
    if events != [] {
      var prefix := events[..|events| - 1];
      var entry := events[|events| - 1];
      FirstFitNoOverlap(prefix, day);
      var ps := FirstFitLayout(prefix, day);
      if Placed(entry.event, day) {
        var iv := IntervalOf(entry.event);
        var lane := FirstFitLane(Lanes(ps), iv);
        var qs := ps + [PositionAt(entry, lane)];
        forall i | 0 <= i < |ps| && ps[i].lane == lane
          ensures !Overlaps(IntervalOf(ps[i].entry.event), iv.startMinute, iv.endMinute)
        {
          var piv := IntervalOf(ps[i].entry.event);
          assert ps[i] in ps;
          assert lane < TotalLanes(ps) == |Lanes(ps)|;
          assert piv in LaneContents(ps, lane);
          assert Lanes(ps)[lane] == LaneContents(ps, lane);
          assert !HasOverlap(Lanes(ps)[lane], iv.startMinute, iv.endMinute);
          assert !(piv in Lanes(ps)[lane] && Overlaps(piv, iv.startMinute, iv.endMinute));
        }
        assert FirstFitLayout(events, day) == qs;
        forall i, j | 0 <= i < j < |qs| && qs[i].lane == qs[j].lane
          ensures !Overlaps(IntervalOf(qs[i].entry.event), StartMinute(qs[j].entry.event), EndMinute(qs[j].entry.event))
        {
          assert qs[i] == ps[i];
          if j < |ps| {
            assert qs[j] == ps[j];
            assert LanesDisjoint(ps) && ps[i].lane == ps[j].lane;
          } else {
            assert qs[j] == PositionAt(entry, lane);
            assert qs[j].entry.event == entry.event;
            assert ps[i].lane == lane;
            assert !Overlaps(IntervalOf(ps[i].entry.event), iv.startMinute, iv.endMinute);
            assert iv.startMinute == StartMinute(entry.event) && iv.endMinute == EndMinute(entry.event);
          }
        }
      } else {
        assert FirstFitLayout(events, day) == ps;
      }
    }
  }

  lemma FirstFitSnoc(events: seq<TimelineEntry>, entry: TimelineEntry, day: int)
    ensures FirstFitLayout(events + [entry], day) ==
      if Placed(entry.event, day) then
        var ps := FirstFitLayout(events, day);
        ps + [PositionAt(entry, FirstFitLane(Lanes(ps), IntervalOf(entry.event)))]
      else FirstFitLayout(events, day)
  {
    assert (events + [entry])[..|events|] == events;
  }

  /** First fit places a lone event in lane 0, which then holds its span. */
  lemma FirstFitFirst(a: TimelineEntry, day: int)
    requires Placed(a.event, day)
    ensures FirstFitLayout([a], day) == [PositionAt(a, 0)]
    ensures Lanes([PositionAt(a, 0)]) == [[IntervalOf(a.event)]]
  {
    var p1 := [PositionAt(a, 0)];
    NoLanesYet();
    FirstFitSnoc([], a, day);
    assert [] + [a] == [a];
    LanesAppend([], p1[0]);
    PushOntoEmpty(IntervalOf(a.event));
    assert [] + [p1[0]] == p1;
  }

  /** First fit places a second event overlapping the first in a new lane 1. */
  lemma FirstFitFirstTwo(a: TimelineEntry, b: TimelineEntry, day: int)
    requires Placed(a.event, day) && Placed(b.event, day)
    requires Overlaps(IntervalOf(a.event), StartMinute(b.event), EndMinute(b.event))
    ensures var p2 := [PositionAt(a, 0), PositionAt(b, 1)];
      FirstFitLayout([a, b], day) == p2 && Lanes(p2) == [[IntervalOf(a.event)], [IntervalOf(b.event)]]
  {
    var iv0, iv1 := IntervalOf(a.event), IntervalOf(b.event);
    var p1 := [PositionAt(a, 0)];
    FirstFitFirst(a, day);
    assert iv0 in Lanes(p1)[0];
    assert FirstFitLane(Lanes(p1), iv1) == 1;
    FirstFitSnoc([a], b, day);
    assert [a] + [b] == [a, b];
    var p2 := p1 + [PositionAt(b, 1)];
    LanesAppend(p1, p2[1]);
    PushNewLane([iv0], iv1);
    assert p1 + [p2[1]] == p2;
  }

  /** With lanes [60,240) and [120,180), the span [150,210) overlaps both, so first fit opens lane 2. */
  lemma FirstFitThirdLane(iv: Interval)
    requires iv == Interval(150, 210)
    ensures FirstFitLane([[Interval(60, 240)], [Interval(120, 180)]], iv) == 2
  {
    var lanes := [[Interval(60, 240)], [Interval(120, 180)]];
    assert lanes[0][0] in lanes[0] && Overlaps(lanes[0][0], 150, 210);
    assert lanes[1][0] in lanes[1] && Overlaps(lanes[1][0], 150, 210);
    assert FirstFree(lanes, iv, 2) == 2;
    assert FirstFree(lanes, iv, 1) == 2;
  }

  /** On the three overlapping events, first fit opens a third lane for the third one. */
  lemma FirstFitOpensThirdLane()
    ensures var ps := FirstFitLayout(ThreeOverlapping(), 0);
      |ps| == 3 && ps[0].lane == 0 && ps[1].lane == 1 && ps[2].lane == 2
  {
    var es := ThreeOverlapping();
    assert IntervalOf(es[0].event) == Interval(60, 240) && IntervalOf(es[1].event) == Interval(120, 180);
    assert Placed(es[0].event, 0) && Placed(es[1].event, 0) && Placed(es[2].event, 0);
    FirstFitFirstTwo(es[0], es[1], 0);
    var p2 := [PositionAt(es[0], 0), PositionAt(es[1], 1)];
    var iv2 := IntervalOf(es[2].event);
    assert iv2 == Interval(150, 210);
    FirstFitThirdLane(iv2);
    assert FirstFitLane(Lanes(p2), iv2) == 2;
    FirstFitSnoc([es[0], es[1]], es[2], 0);
    assert [es[0], es[1]] + [es[2]] == es;
    assert FirstFitLayout(es, 0) == p2 + [PositionAt(es[2], 2)];
  }

  /** The first-fit choice: the scan for a lane without an overlap, or a new lane. */
  method PickFirstFit(lanes: seq<seq<Interval>>, startMinute: int, endMinute: int)
    returns (assignedLane: nat, widened: seq<seq<Interval>>)
    ensures assignedLane == FirstFitLane(lanes, Interval(startMinute, endMinute))
    ensures widened == lanes + (if assignedLane == |lanes| then [[]] else [])
  {
    assignedLane := 0;
    while assignedLane < |lanes| && HasOverlap(lanes[assignedLane], startMinute, endMinute)
      invariant assignedLane <= |lanes|
      invariant FirstFree(lanes, Interval(startMinute, endMinute), assignedLane) == FirstFitLane(lanes, Interval(startMinute, endMinute))
    {
      assignedLane := assignedLane + 1;
    }
    widened := lanes;
    if assignedLane == |lanes| {
      widened := lanes + [[]];
    }
  }

  /** `eventPositions` with first fit in place of the source's lane choice. */
  method FirstFitPositions(events: seq<TimelineEntry>, day: int) returns (positions: seq<Position>)
    ensures positions == FirstFitLayout(events, day)
    ensures LanesDisjoint(positions)
  {
    positions := [];
    var lanes: seq<seq<Interval>> := [[]];
    var n := 0;
    while n < |events|
      invariant 0 <= n <= |events|
      invariant positions == FirstFitLayout(events[..n], day)
      invariant lanes == Lanes(positions)
    {
      assert events[..n + 1][..n] == events[..n];
      var entry := events[n];
      var startMinute := StartMinute(entry.event);
      var endMinute := EndMinute(entry.event);
      if startMinute >= 0 && entry.event.startsAt / MinutesPerDay == day {
        var assignedLane;
        assignedLane, lanes := PickFirstFit(lanes, startMinute, endMinute);
        lanes := lanes[assignedLane := lanes[assignedLane] + [Interval(startMinute, endMinute)]];
        var p := PositionAt(entry, assignedLane);
        LanesAppend(positions, p);
        positions := positions + [p];
      }
      n := n + 1;
    }
    assert events[..n] == events;
    FirstFitNoOverlap(events, day);
  }
}
