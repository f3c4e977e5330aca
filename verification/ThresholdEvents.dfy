/** Threshold crossings of a series of available spaces, and the first down-crossing of each local day. */
module ThresholdEvents {
  import opened Common
  import opened Sorting
  import opened TimeUtils

  datatype Point = Point(at: int, available: int)

  datatype Event = Event(threshold: int, down: bool, at: int, before: int, after: int)

  function TimeOf(p: Point): Key {
    Key(p.at, 0)
  }

  function CrossedAt(e: Event): Key {
    Key(e.at, 0)
  }

  /** The at most one crossing of `threshold` from one point to the next. */
  function Crossing(previous: Point, point: Point, threshold: int): seq<Event> {
    if previous.available >= threshold > point.available then
      [Event(threshold, true, point.at, previous.available, point.available)]
    else if previous.available < threshold <= point.available then
      [Event(threshold, false, point.at, previous.available, point.available)]
    else []
  }

  /** The crossings between two points, in the order of the thresholds. */
  function Crossings(previous: Point, point: Point, thresholds: seq<int>): seq<Event> {
    if thresholds == [] then []
    else
      Crossings(previous, point, thresholds[..|thresholds| - 1])
      + Crossing(previous, point, thresholds[|thresholds| - 1])
  }

  /** The crossings along the points, from each to the next. */
  function EventsAlong(points: seq<Point>, thresholds: seq<int>): seq<Event> {
    if |points| < 2 then []
    else
      EventsAlong(points[..|points| - 1], thresholds)
      + Crossings(points[|points| - 2], points[|points| - 1], thresholds)
  }

  /** `detect_threshold_events_from_time_series`. */
  method DetectEvents(points: seq<Point>, thresholds: seq<int>) returns (events: seq<Event>)
    ensures events == EventsAlong(StableSort(points, TimeOf), thresholds)
    ensures AreEvents(points, thresholds, events)
  {
    DetectedAreEvents(points, thresholds);
    var ordered := StableSort(points, TimeOf);
    events := [];
    if |ordered| < 2 {
      return;
    }
    var previous := ordered[0];
    for i := 1 to |ordered|
      invariant previous == ordered[i - 1]
      invariant events == EventsAlong(ordered[..i], thresholds)
    {
      var point := ordered[i];
      var found := DetectBetween(previous, point, thresholds);
      assert ordered[..i + 1][..i] == ordered[..i];
      events := events + found;
      previous := point;
    }
    assert ordered[..|ordered|] == ordered;
  }

  /** The loop over the thresholds for one pair of points. */
  method DetectBetween(previous: Point, point: Point, thresholds: seq<int>) returns (events: seq<Event>)
    ensures events == Crossings(previous, point, thresholds)
  {
    events := [];
    for i := 0 to |thresholds|
      invariant events == Crossings(previous, point, thresholds[..i])
    {
      var threshold := thresholds[i];
      assert thresholds[..i + 1][..i] == thresholds[..i];
      if previous.available >= threshold > point.available {
        events := events + [Event(threshold, true, point.at, previous.available, point.available)];
      }
      if previous.available < threshold <= point.available {
        events := events + [Event(threshold, false, point.at, previous.available, point.available)];
      }
    }
    assert thresholds[..|thresholds|] == thresholds;
  }

  // ----- the events in terms of the points -----

  /** The spaces fall from at or above the threshold to below it, or rise back, at the time of the later point. */
  ghost predicate IsCrossing(e: Event, a: Point, b: Point, threshold: int) {
    && e.threshold == threshold && e.at == b.at && e.before == a.available && e.after == b.available
    && if e.down then e.before >= threshold > e.after else e.before < threshold <= e.after
  }

  ghost predicate CrossesAt(points: seq<Point>, thresholds: seq<int>, e: Event, i: nat, j: nat) {
    0 < i < |points| && j < |thresholds| && IsCrossing(e, points[i - 1], points[i], thresholds[j])
  }

  lemma {:induction false} CrossingsMember(a: Point, b: Point, thresholds: seq<int>, e: Event)
    ensures e in Crossings(a, b, thresholds)
            <==> exists j :: 0 <= j < |thresholds| && IsCrossing(e, a, b, thresholds[j])
  {
    if thresholds != [] {
      var front := thresholds[..|thresholds| - 1];
      CrossingsMember(a, b, front, e);
      assert forall j :: 0 <= j < |front| ==> front[j] == thresholds[j];
      assert e in Crossing(a, b, thresholds[|front|]) <==> IsCrossing(e, a, b, thresholds[|front|]);
    }
  }

  /** The events are exactly the crossings from each point to the next. */
  lemma {:induction false} EventsAreCrossings(points: seq<Point>, thresholds: seq<int>, e: Event)
    ensures e in EventsAlong(points, thresholds) <==> exists i, j :: CrossesAt(points, thresholds, e, i, j)
  {
    if |points| >= 2 {
      var front, last := points[..|points| - 1], |points| - 1;
      EventsAreCrossings(front, thresholds, e);
      CrossingsMember(points[last - 1], points[last], thresholds, e);
      if e in Crossings(points[last - 1], points[last], thresholds) {
        var j :| 0 <= j < |thresholds| && IsCrossing(e, points[last - 1], points[last], thresholds[j]);
        assert CrossesAt(points, thresholds, e, last, j);
      }
      forall i: nat, j: nat ensures CrossesAt(points, thresholds, e, i, j) <==>
          CrossesAt(front, thresholds, e, i, j) || (i == last && CrossesAt(points, thresholds, e, last, j)) {
      }
    }
  }

  ghost predicate InTimeOrder(events: seq<Event>) {
    forall i, j :: 0 <= i < j < |events| ==> events[i].at <= events[j].at
  }

  lemma {:induction false} EventsInOrder(points: seq<Point>, thresholds: seq<int>)
    requires forall i, j :: 0 <= i < j < |points| ==> points[i].at <= points[j].at
    ensures InTimeOrder(EventsAlong(points, thresholds))
  {
    if |points| >= 2 {
      var front, last := points[..|points| - 1], |points| - 1;
      var earlier, found := EventsAlong(front, thresholds), Crossings(points[last - 1], points[last], thresholds);
      EventsInOrder(front, thresholds);
      forall e | e in earlier ensures e.at <= points[last].at {
        EventsAreCrossings(front, thresholds, e);
      }
      forall e | e in found ensures e.at == points[last].at {
        CrossingsMember(points[last - 1], points[last], thresholds, e);
      }
    }
  }

  ghost predicate IsInTime(points: seq<Point>, ordered: seq<Point>) {
    multiset(ordered) == multiset(points) && forall i, j :: 0 <= i < j < |ordered| ==> ordered[i].at <= ordered[j].at
  }

  ghost predicate AreCrossings(points: seq<Point>, thresholds: seq<int>, events: seq<Event>) {
    forall e :: e in events <==> exists i, j :: CrossesAt(points, thresholds, e, i, j)
  }

  /** The events of a series: its crossings from each point to the next in time, by time. */
  ghost predicate AreEvents(points: seq<Point>, thresholds: seq<int>, events: seq<Event>) {
    InTimeOrder(events) && exists ordered :: IsInTime(points, ordered) && AreCrossings(ordered, thresholds, events)
  }

  lemma SortedIsInTime(points: seq<Point>)
    ensures IsInTime(points, StableSort(points, TimeOf))
  {
    var ordered := StableSort(points, TimeOf);
    StableSortSorts(points, TimeOf);
    forall i, j | 0 <= i < j < |ordered| ensures ordered[i].at <= ordered[j].at {
      assert AtMost(TimeOf(ordered[i]), TimeOf(ordered[j]));
    }
  }

  lemma DetectedAreEvents(points: seq<Point>, thresholds: seq<int>)
    ensures AreEvents(points, thresholds, EventsAlong(StableSort(points, TimeOf), thresholds))
  {
    var ordered := StableSort(points, TimeOf);
    SortedIsInTime(points);
    EventsInOrder(ordered, thresholds);
    assert AreCrossings(ordered, thresholds, EventsAlong(ordered, thresholds)) by {
      forall e ensures e in EventsAlong(ordered, thresholds)
                       <==> exists i, j :: CrossesAt(ordered, thresholds, e, i, j) {
        EventsAreCrossings(ordered, thresholds, e);
      }
    }
  }

  // ----- the events of one threshold -----

  function OfThreshold(events: seq<Event>, threshold: int): seq<Event> {
    if events == [] then []
    else
      OfThreshold(events[..|events| - 1], threshold)
      + if events[|events| - 1].threshold == threshold then [events[|events| - 1]] else []
  }

  lemma {:induction false} OfThresholdAppend(a: seq<Event>, b: seq<Event>, threshold: int)
    ensures OfThreshold(a + b, threshold) == OfThreshold(a, threshold) + OfThreshold(b, threshold)
    decreases |b|
  {
    if b == [] {
      assert a + b == a;
    } else {
      assert (a + b)[..|a + b| - 1] == a + b[..|b| - 1];
      OfThresholdAppend(a, b[..|b| - 1], threshold);
    }
  }

  /** How often a threshold is listed. */
  function Listed(thresholds: seq<int>, threshold: int): nat {
    if thresholds == [] then 0
    else Listed(thresholds[..|thresholds| - 1], threshold) + if thresholds[|thresholds| - 1] == threshold then 1 else 0
  }

  /** `n` copies of an event list. */
  function Times(n: nat, events: seq<Event>): seq<Event> {
    if n == 0 then [] else Times(n - 1, events) + events
  }

  lemma OfThresholdNext(a: seq<Event>, b: seq<Event>, threshold: int, n: nat, crossing: seq<Event>, listed: bool)
    requires OfThreshold(a, threshold) == Times(n, crossing)
    requires OfThreshold(b, threshold) == if listed then crossing else []
    ensures OfThreshold(a + b, threshold) == Times(if listed then n + 1 else n, crossing)
  {
    OfThresholdAppend(a, b, threshold);
    assert Times(n, crossing) + [] == Times(n, crossing);
  }

  /** Between two points, a threshold yields its crossing once for each time it is listed. */
  lemma {:induction false} CrossingsOfThreshold(previous: Point, point: Point, thresholds: seq<int>, threshold: int)
    ensures OfThreshold(Crossings(previous, point, thresholds), threshold)
         == Times(Listed(thresholds, threshold), Crossing(previous, point, threshold))
  {
    if thresholds != [] {
      var front, last := thresholds[..|thresholds| - 1], thresholds[|thresholds| - 1];
      CrossingsOfThreshold(previous, point, front, threshold);
      OfOneCrossing(previous, point, last, threshold);
      OfThresholdNext(Crossings(previous, point, front), Crossing(previous, point, last), threshold,
          Listed(front, threshold), Crossing(previous, point, threshold), last == threshold);
    }
  }

  lemma OfOneCrossing(previous: Point, point: Point, listed: int, threshold: int)
    ensures OfThreshold(Crossing(previous, point, listed), threshold)
         == if listed == threshold then Crossing(previous, point, threshold) else []
  {
    var crossing := Crossing(previous, point, listed);
    if crossing != [] {
      assert crossing[..0] == [];
      assert OfThreshold(crossing[..|crossing| - 1], threshold) == [];
    }
  }

  /** Down-crossings minus up-crossings. */
  function Balance(events: seq<Event>): int {
    if events == [] then 0 else Balance(events[..|events| - 1]) + if events[|events| - 1].down then 1 else -1
  }

  lemma {:induction false} BalanceAppend(a: seq<Event>, b: seq<Event>)
    ensures Balance(a + b) == Balance(a) + Balance(b)
    decreases |b|
  {
    if b == [] {
      assert a + b == a;
    } else {
      assert (a + b)[..|a + b| - 1] == a + b[..|b| - 1];
      BalanceAppend(a, b[..|b| - 1]);
    }
  }

  lemma OneMore(n: nat, x: int)
    requires n > 0
    ensures n * x == (n - 1) * x + x
  {
  }

  lemma {:induction false} BalanceOfTimes(n: nat, events: seq<Event>, balance: int)
    requires balance == Balance(events)
    ensures Balance(Times(n, events)) == n * balance
    decreases n
  {
    if n > 0 {
      BalanceOfTimes(n - 1, events, balance);
      BalanceAppend(Times(n - 1, events), events);
      OneMore(n, balance);
    }
  }

  function Side(p: Point, threshold: int): int {
    if p.available >= threshold then 1 else 0
  }

  lemma BalanceOfCrossing(previous: Point, point: Point, threshold: int)
    ensures Balance(Crossing(previous, point, threshold)) == Side(previous, threshold) - Side(point, threshold)
  {
    var crossing := Crossing(previous, point, threshold);
    if crossing != [] {
      assert Balance(crossing[..|crossing| - 1]) == 0;
    }
  }

  /** The events of one threshold along one point more. */
  lemma NextEvents(points: seq<Point>, thresholds: seq<int>, threshold: int)
    requires |points| >= 2
    ensures OfThreshold(EventsAlong(points, thresholds), threshold)
         == OfThreshold(EventsAlong(points[..|points| - 1], thresholds), threshold)
            + Times(Listed(thresholds, threshold), Crossing(points[|points| - 2], points[|points| - 1], threshold))
  {
    CrossingsOfThreshold(points[|points| - 2], points[|points| - 1], thresholds, threshold);
    OfThresholdAppend(EventsAlong(points[..|points| - 1], thresholds),
                      Crossings(points[|points| - 2], points[|points| - 1], thresholds), threshold);
  }

  /**
   Downs minus ups of a threshold are decided by the ends of the series alone: one for each time it is listed if the
   series starts at or above it and ends below, minus one if it is the other way round, else zero.
   */
  lemma {:induction false} DownsMinusUps(points: seq<Point>, thresholds: seq<int>, threshold: int)
    requires points != []
    ensures Balance(OfThreshold(EventsAlong(points, thresholds), threshold))
         == Listed(thresholds, threshold) * (Side(points[0], threshold) - Side(points[|points| - 1], threshold))
    decreases |points|
  {
    if |points| >= 2 {
      var front, previous, point := points[..|points| - 1], points[|points| - 2], points[|points| - 1];
      DownsMinusUps(front, thresholds, threshold);
      BalanceNext(points, thresholds, threshold);
      Telescope(Listed(thresholds, threshold), Side(points[0], threshold), Side(previous, threshold),
          Side(point, threshold));
    }
  }

  lemma BalanceNext(points: seq<Point>, thresholds: seq<int>, threshold: int)
    requires |points| >= 2
    ensures Balance(OfThreshold(EventsAlong(points, thresholds), threshold))
         == Balance(OfThreshold(EventsAlong(points[..|points| - 1], thresholds), threshold))
            + Listed(thresholds, threshold) * (Side(points[|points| - 2], threshold)
                - Side(points[|points| - 1], threshold))
  {
    var crossing := Crossing(points[|points| - 2], points[|points| - 1], threshold);
    var repeated := Times(Listed(thresholds, threshold), crossing);
    NextEvents(points, thresholds, threshold);
    BalanceAppend(OfThreshold(EventsAlong(points[..|points| - 1], thresholds), threshold), repeated);
    BalanceOfTimes(Listed(thresholds, threshold), crossing, Balance(crossing));
    BalanceOfCrossing(points[|points| - 2], points[|points| - 1], threshold);
  }

  lemma Telescope(n: nat, first: int, middle: int, last: int)
    ensures n * (first - middle) + n * (middle - last) == n * (first - last)
  {
  }

  // ----- alternation -----

  ghost predicate Alternates(events: seq<Event>) {
    forall i :: 0 < i < |events| ==> events[i].down != events[i - 1].down
  }

  /** Alternating events that lead from one side of the threshold to another: 1 is at or above, 0 below. */
  ghost predicate Leads(events: seq<Event>, first: int, last: int) {
    && Alternates(events)
    && (if events == [] then first == last
        else (events[0].down <==> first == 1) && (events[|events| - 1].down <==> last == 0))
  }

  lemma LeadsOn(events: seq<Event>, first: int, previous: Point, point: Point, threshold: int)
    requires first in {0, 1} && Leads(events, first, Side(previous, threshold))
    ensures Leads(events + Crossing(previous, point, threshold), first, Side(point, threshold))
  {
    var crossing := Crossing(previous, point, threshold);
    var more := events + crossing;
    if crossing == [] {
      assert more == events;
    } else {
      assert more[|events|] == crossing[0] && |more| == |events| + 1;
    }
  }

  lemma NextEventOnce(points: seq<Point>, thresholds: seq<int>, threshold: int)
    requires |points| >= 2 && Listed(thresholds, threshold) == 1
    ensures OfThreshold(EventsAlong(points, thresholds), threshold)
         == OfThreshold(EventsAlong(points[..|points| - 1], thresholds), threshold)
            + Crossing(points[|points| - 2], points[|points| - 1], threshold)
  {
    var crossing := Crossing(points[|points| - 2], points[|points| - 1], threshold);
    NextEvents(points, thresholds, threshold);
    assert Times(1, crossing) == Times(0, crossing) + crossing == crossing;
  }

  /** A threshold listed once: its events alternate, from the side of the first point to the side of the last. */
  lemma {:induction false} ListedOnceAlternates(points: seq<Point>, thresholds: seq<int>, threshold: int,
      events: seq<Event>)
    requires points != [] && Listed(thresholds, threshold) == 1
    requires events == OfThreshold(EventsAlong(points, thresholds), threshold)
    ensures Leads(events, Side(points[0], threshold), Side(points[|points| - 1], threshold))
    decreases |points|
  {
    if |points| >= 2 {
      var front, previous, point := points[..|points| - 1], points[|points| - 2], points[|points| - 1];
      var earlier := OfThreshold(EventsAlong(front, thresholds), threshold);
      ListedOnceAlternates(front, thresholds, threshold, earlier);
      NextEventOnce(points, thresholds, threshold);
      LeadsOn(earlier, Side(points[0], threshold), previous, point, threshold);
    }
  }

  /** Some step of the series crosses the threshold. */
  ghost predicate Crosses(points: seq<Point>, threshold: int) {
    exists i :: 0 < i < |points| && Side(points[i - 1], threshold) != Side(points[i], threshold)
  }

  /** A threshold listed more than once: every crossing comes as a run of equal events, so any crossing breaks it. */
  lemma {:induction false} ListedOftenRepeats(points: seq<Point>, thresholds: seq<int>, threshold: int)
    requires Listed(thresholds, threshold) >= 2
    ensures var events := OfThreshold(EventsAlong(points, thresholds), threshold);
            if Crosses(points, threshold) then !Alternates(events) else events == []
    decreases |points|
  {
    if |points| >= 2 {
      var front, n := points[..|points| - 1], Listed(thresholds, threshold);
      var previous, point := points[|points| - 2], points[|points| - 1];
      var earlier := OfThreshold(EventsAlong(front, thresholds), threshold);
      ListedOftenRepeats(front, thresholds, threshold);
      NextEvents(points, thresholds, threshold);
      if Side(previous, threshold) != Side(point, threshold) {
        RunOfEqualEvents(earlier, Crossing(previous, point, threshold), n);
        assert Side(points[|points| - 1 - 1], threshold) != Side(points[|points| - 1], threshold);
      } else {
        TimesNothing(n);
        assert earlier + [] == earlier;
        CrossesFront(points, threshold);
      }
    }
  }

  lemma CrossesFront(points: seq<Point>, threshold: int)
    requires |points| >= 2 && Side(points[|points| - 2], threshold) == Side(points[|points| - 1], threshold)
    ensures Crosses(points, threshold) <==> Crosses(points[..|points| - 1], threshold)
  {
    var front := points[..|points| - 1];
    if Crosses(points, threshold) {
      var i :| 0 < i < |points| && Side(points[i - 1], threshold) != Side(points[i], threshold);
      assert Side(front[i - 1], threshold) != Side(front[i], threshold);
    }
    if Crosses(front, threshold) {
      var i :| 0 < i < |front| && Side(front[i - 1], threshold) != Side(front[i], threshold);
      assert Side(points[i - 1], threshold) != Side(points[i], threshold);
    }
  }

  lemma {:induction false} TimesNothing(n: nat)
    ensures Times(n, []) == []
  {
    if n > 0 {
      TimesNothing(n - 1);
    }
  }

  lemma RunOfEqualEvents(earlier: seq<Event>, crossing: seq<Event>, n: nat)
    requires n >= 2 && |crossing| == 1
    ensures !Alternates(earlier + Times(n, crossing))
  {
    var events := earlier + Times(n, crossing);
    assert Times(n, crossing) == Times(n - 2, crossing) + crossing + crossing;
    assert events[|events| - 1] == crossing[0] && events[|events| - 1 - 1] == crossing[0];
  }

  /** The events of a listed threshold alternate exactly when it is listed once or never crossed. */
  lemma AlternatesIff(points: seq<Point>, thresholds: seq<int>, threshold: int)
    requires points != [] && Listed(thresholds, threshold) >= 1
    ensures Alternates(OfThreshold(EventsAlong(points, thresholds), threshold))
            <==> Listed(thresholds, threshold) == 1 || !Crosses(points, threshold)
  {
    if Listed(thresholds, threshold) == 1 {
      ListedOnceAlternates(points, thresholds, threshold, OfThreshold(EventsAlong(points, thresholds), threshold));
    } else {
      ListedOftenRepeats(points, thresholds, threshold);
    }
  }

  // ----- first crossings of a day -----

  /** A threshold on a Seoul day. */
  datatype DayKey = DayKey(threshold: int, day: int)

  function DayOf(e: Event): DayKey {
    DayKey(e.threshold, SeoulDay(e.at))
  }

  function IsDown(): Event -> bool {
    (e: Event) => e.down
  }

  /** The down-crossings, by time. */
  function DownEvents(events: seq<Event>): seq<Event> {
    StableSort(Select(events, IsDown()), CrossedAt)
  }

  /** `e` is a down-crossing and no down-crossing of its threshold and day is earlier. */
  ghost predicate FirstOfItsDay(events: seq<Event>, e: Event) {
    && e in events && e.down
    && forall f :: f in events && f.down && DayOf(f) == DayOf(e) ==> e.at <= f.at
  }

  /** The insertion-ordered dict after the down-crossings `seen`: their first of each key. */
  ghost predicate FirstCrossings(seen: seq<Event>, order: seq<DayKey>, first: map<DayKey, Event>) {
    && (forall i, j :: 0 <= i < j < |order| ==> order[i] != order[j])
    && (forall k :: k in order <==> k in first)
    && (forall k :: k in first ==> first[k] in seen && DayOf(first[k]) == k)
    && (forall e :: e in seen ==> DayOf(e) in first && first[DayOf(e)].at <= e.at)
  }

  lemma DownEventsMember(events: seq<Event>, e: Event)
    ensures e in DownEvents(events) <==> e in events && e.down
  {
    var downs := Select(events, IsDown());
    StableSortSorts(downs, CrossedAt);
    SameMember(downs, StableSort(downs, CrossedAt), e);
    SelectMember(events, IsDown(), e);
  }

  /** `setdefault` with the next event in time order. */
  lemma NextFirst(downs: seq<Event>, i: nat, order: seq<DayKey>, first: map<DayKey, Event>)
    requires i < |downs| && SortedBy(downs, CrossedAt) && FirstCrossings(downs[..i], order, first)
    ensures var e := downs[i];
            FirstCrossings(downs[..i + 1], if DayOf(e) in first then order else order + [DayOf(e)],
                           if DayOf(e) in first then first else first[DayOf(e) := e])
  {
    var e := downs[i];
    assert downs[..i + 1] == downs[..i] + [e];
    if DayOf(e) in first {
      var j :| 0 <= j < i && downs[..i][j] == first[DayOf(e)];
      assert AtMost(CrossedAt(downs[j]), CrossedAt(downs[i]));
    }
  }

  /** Latest first; equal times keep their order. */
  function LatestFirst(e: Event): Key {
    Key(-e.at, 0)
  }

  /** The loop over the down-crossings. */
  method FindFirstCrossings(downs: seq<Event>) returns (order: seq<DayKey>, first: map<DayKey, Event>)
    requires SortedBy(downs, CrossedAt)
    ensures FirstCrossings(downs, order, first)
  {
    order, first := [], map[];
    for i := 0 to |downs|
      invariant FirstCrossings(downs[..i], order, first)
    {
      NextFirst(downs, i, order, first);
      if DayOf(downs[i]) !in first {
        order, first := order + [DayOf(downs[i])], first[DayOf(downs[i]) := downs[i]];
      }
    }
    assert downs[..|downs|] == downs;
  }

  ghost predicate HasCrossing(crossings: seq<Event>, e: Event) {
    exists i :: 0 <= i < |crossings| && DayOf(crossings[i]) == DayOf(e)
  }

  /** One event per threshold and day with a down-crossing, each the first of its day. */
  ghost predicate OnePerDay(events: seq<Event>, crossings: seq<Event>) {
    && (forall i :: 0 <= i < |crossings| ==> FirstOfItsDay(events, crossings[i]))
    && (forall i, j :: 0 <= i < j < |crossings| ==> DayOf(crossings[i]) != DayOf(crossings[j]))
    && (forall e {:trigger HasCrossing(crossings, e)} :: e in events && e.down ==> HasCrossing(crossings, e))
  }

  // ----- the history in terms of the events -----

  ghost predicate SameDay(a: Event, b: Event) {
    a.threshold == b.threshold && (a.at + 9 * HOUR) / DAY == (b.at + 9 * HOUR) / DAY
  }

  /** The first down-crossing of its threshold on its local day. */
  ghost predicate IsFirst(events: seq<Event>, e: Event) {
    e in events && e.down && forall f :: f in events && f.down && SameDay(e, f) ==> e.at <= f.at
  }

  /** Some down-crossing of the same threshold and day is no later than that time. */
  ghost predicate IsNoLater(events: seq<Event>, e: Event, at: int) {
    exists f :: f in events && f.down && SameDay(f, e) && f.at <= at
  }

  /** The day of the crossing is shown, or the limit is reached by others that are no earlier. */
  ghost predicate IsShown(events: seq<Event>, limit: nat, history: seq<Event>, e: Event) {
    || (exists i :: 0 <= i < |history| && SameDay(history[i], e))
    || (|history| == limit && forall i :: 0 <= i < |history| ==> IsNoLater(events, e, history[i].at))
  }

  /** At most `limit` first down-crossings, one for each threshold and day, latest first; nothing later is left out. */
  ghost predicate IsHistory(events: seq<Event>, limit: nat, history: seq<Event>) {
    && |history| <= limit
    && (forall i :: 0 <= i < |history| ==> IsFirst(events, history[i]))
    && (forall i, j :: 0 <= i < j < |history| ==>
          history[i].at >= history[j].at && !SameDay(history[i], history[j]))
    && forall e {:trigger IsShown(events, limit, history, e)} ::
         e in events && e.down ==> IsShown(events, limit, history, e)
  }

  lemma CrossingOfSorted(events: seq<Event>, crossings: seq<Event>, sorted: seq<Event>, i: nat)
    requires forall k :: 0 <= k < |crossings| ==> FirstOfItsDay(events, crossings[k])
    requires multiset(sorted) == multiset(crossings) && i < |sorted|
    ensures IsFirst(events, sorted[i])
  {
    SameMember(crossings, sorted, sorted[i]);
    assert sorted[i] in sorted;
    var k :| 0 <= k < |crossings| && crossings[k] == sorted[i];
    assert FirstOfItsDay(events, crossings[k]);
  }

  lemma DayHasCrossing(events: seq<Event>, crossings: seq<Event>, e: Event) returns (first: Event)
    requires OnePerDay(events, crossings) && e in events && e.down
    ensures first in crossings && FirstOfItsDay(events, first) && SameDay(first, e)
  {
    assert HasCrossing(crossings, e);
    var k :| 0 <= k < |crossings| && DayOf(crossings[k]) == DayOf(e);
    first := crossings[k];
    assert FirstOfItsDay(events, crossings[k]);
  }

  lemma DayIsShown(events: seq<Event>, sorted: seq<Event>, limit: nat, e: Event, first: Event)
    requires first in sorted && FirstOfItsDay(events, first) && SameDay(first, e)
    requires forall i, j :: 0 <= i < j < |sorted| ==> sorted[i].at >= sorted[j].at
    ensures IsShown(events, limit, if |sorted| < limit then sorted else sorted[..limit], e)
  {
    var history := if |sorted| < limit then sorted else sorted[..limit];
    var i :| 0 <= i < |sorted| && sorted[i] == first;
    if i < |history| {
      assert SameDay(history[i], e);
    } else {
      forall n | 0 <= n < |history| ensures IsNoLater(events, e, history[n].at) {
        assert sorted[n].at >= sorted[i].at;
      }
    }
  }

  lemma AllAreFirst(events: seq<Event>, crossings: seq<Event>, sorted: seq<Event>)
    requires forall k :: 0 <= k < |crossings| ==> FirstOfItsDay(events, crossings[k])
    requires multiset(sorted) == multiset(crossings)
    ensures forall i :: 0 <= i < |sorted| ==> IsFirst(events, sorted[i])
  {
    forall i: nat | i < |sorted| ensures IsFirst(events, sorted[i]) {
      CrossingOfSorted(events, crossings, sorted, i);
    }
  }

  lemma SortedLatestFirst(crossings: seq<Event>, sorted: seq<Event>)
    requires sorted == StableSort(crossings, LatestFirst)
    ensures forall i, j :: 0 <= i < j < |sorted| ==> sorted[i].at >= sorted[j].at
  {
    StableSortSorts(crossings, LatestFirst);
    forall i, j | 0 <= i < j < |sorted| ensures sorted[i].at >= sorted[j].at {
      assert AtMost(LatestFirst(sorted[i]), LatestFirst(sorted[j]));
    }
  }

  lemma AllAreShown(events: seq<Event>, crossings: seq<Event>, sorted: seq<Event>, limit: nat, history: seq<Event>)
    requires OnePerDay(events, crossings) && sorted == StableSort(crossings, LatestFirst)
    requires history == if |sorted| < limit then sorted else sorted[..limit]
    ensures forall e {:trigger IsShown(events, limit, history, e)} ::
              e in events && e.down ==> IsShown(events, limit, history, e)
  {
    forall e | e in events && e.down ensures IsShown(events, limit, history, e) {
      var first := DayHasCrossing(events, crossings, e);
      StableSortSorts(crossings, LatestFirst);
      SortedLatestFirst(crossings, sorted);
      SameMember(crossings, sorted, first);
      DayIsShown(events, sorted, limit, e, first);
    }
  }

  lemma OnePerDayIsHistory(events: seq<Event>, crossings: seq<Event>, sorted: seq<Event>, limit: nat,
      history: seq<Event>)
    requires OnePerDay(events, crossings) && sorted == StableSort(crossings, LatestFirst)
    requires history == if |sorted| < limit then sorted else sorted[..limit]
    ensures IsHistory(events, limit, history)
  {
    StableSortSorts(crossings, LatestFirst);
    SortedLatestFirst(crossings, sorted);
    AllAreFirst(events, crossings, sorted);
    DistinctDays(crossings, sorted);
    AllAreShown(events, crossings, sorted, limit, history);
  }

  /** Sorting keeps different days different. */
  lemma DistinctDays(crossings: seq<Event>, sorted: seq<Event>)
    requires multiset(sorted) == multiset(crossings)
    requires forall i, j :: 0 <= i < j < |crossings| ==> DayOf(crossings[i]) != DayOf(crossings[j])
    ensures forall i, j :: 0 <= i < j < |sorted| ==> !SameDay(sorted[i], sorted[j])
  {
    forall i, j | 0 <= i < j < |sorted| ensures !SameDay(sorted[i], sorted[j]) {
      SameMember(crossings, sorted, sorted[i]);
      SameMember(crossings, sorted, sorted[j]);
      var a :| 0 <= a < |crossings| && crossings[a] == sorted[i];
      var b :| 0 <= b < |crossings| && crossings[b] == sorted[j];
      if a == b {
        TwiceInMultiset(sorted, i, j);
        OnceInMultiset(crossings, a);
      }
    }
  }

  lemma TwiceInMultiset(xs: seq<Event>, i: nat, j: nat)
    requires i < j < |xs| && xs[i] == xs[j]
    ensures multiset(xs)[xs[i]] >= 2
  {
    assert xs == xs[..i] + [xs[i]] + xs[i + 1..j] + [xs[j]] + xs[j + 1..];
  }

  lemma OnceInMultiset(xs: seq<Event>, a: nat)
    requires a < |xs| && forall i, j :: 0 <= i < j < |xs| ==> xs[i] != xs[j]
    ensures multiset(xs)[xs[a]] == 1
  {
    assert xs == xs[..a] + [xs[a]] + xs[a + 1..];
    assert xs[a] !in xs[..a] && xs[a] !in xs[a + 1..];
  }

  /**
   The history part of `build_threshold_insights`: `crossings` has one event per threshold and day, each the first
   down-crossing of its day, and the history is the `limit` latest of them, latest first.
   */
  method BuildHistory(points: seq<Point>, thresholds: seq<int>, limit: nat)
      returns (crossings: seq<Event>, history: seq<Event>)
    ensures OnePerDay(EventsAlong(StableSort(points, TimeOf), thresholds), crossings)
    ensures |history| == (if |crossings| < limit then |crossings| else limit)
    ensures history <= StableSort(crossings, LatestFirst)
    ensures exists events :: AreEvents(points, thresholds, events) && IsHistory(events, limit, history)
  {
    var events := DetectEvents(points, thresholds);
    StableSortSorts(Select(events, IsDown()), CrossedAt);
    var order, first := FindFirstCrossings(DownEvents(events));
    crossings := Values(order, first);
    CrossingsAreFirst(events, order, first);
    StableSortSorts(crossings, LatestFirst);
    var sorted := StableSort(crossings, LatestFirst);
    SameLength(sorted, crossings);
    history := if |sorted| < limit then sorted else sorted[..limit];
    OnePerDayIsHistory(events, crossings, sorted, limit, history);
  }

  lemma SameLength(a: seq<Event>, b: seq<Event>)
    requires multiset(a) == multiset(b)
    ensures |a| == |b|
  {
    assert |a| == |multiset(a)| && |b| == |multiset(b)|;
  }

  lemma CrossingIsFirst(events: seq<Event>, order: seq<DayKey>, first: map<DayKey, Event>, k: DayKey)
    requires FirstCrossings(DownEvents(events), order, first) && k in first
    ensures FirstOfItsDay(events, first[k]) && DayOf(first[k]) == k
  {
    DownEventsMember(events, first[k]);
    forall f | f in events && f.down && DayOf(f) == k ensures first[k].at <= f.at {
      DownEventsMember(events, f);
    }
  }

  lemma DownHasCrossing(events: seq<Event>, order: seq<DayKey>, first: map<DayKey, Event>, e: Event)
    requires FirstCrossings(DownEvents(events), order, first) && e in events && e.down
    ensures DayOf(e) in order && DayOf(e) in first
  {
    DownEventsMember(events, e);
  }

  lemma CrossingsAreFirst(events: seq<Event>, order: seq<DayKey>, first: map<DayKey, Event>)
    requires FirstCrossings(DownEvents(events), order, first)
    ensures OnePerDay(events, Values(order, first))
  {
    var crossings := Values(order, first);
    forall i | 0 <= i < |crossings| ensures FirstOfItsDay(events, crossings[i]) && DayOf(crossings[i]) == order[i] {
      assert order[i] in order;
      CrossingIsFirst(events, order, first, order[i]);
    }
    forall e | e in events && e.down ensures HasCrossing(crossings, e) {
      DownHasCrossing(events, order, first, e);
      var i :| 0 <= i < |order| && order[i] == DayOf(e);
      assert DayOf(crossings[i]) == DayOf(e);
    }
  }

  /** What the cut leaves out is no later than what it shows. */
  lemma HistoryShowsLatest(crossings: seq<Event>, limit: nat, shown: Event, left: Event)
    requires var sorted := StableSort(crossings, LatestFirst);
             && limit < |sorted| && shown in sorted[..limit] && left in sorted[limit..]
    ensures left.at <= shown.at
  {
    var sorted := StableSort(crossings, LatestFirst);
    StableSortSorts(crossings, LatestFirst);
    var i :| 0 <= i < limit && sorted[..limit][i] == shown;
    var j :| 0 <= j < |sorted| - limit && sorted[limit..][j] == left;
    assert AtMost(LatestFirst(sorted[i]), LatestFirst(sorted[limit + j]));
  }
}
