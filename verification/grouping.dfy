/** `groupEvents`: the events of a calendar view bucketed into one group per
    displayed unit (a day, or a month in the year view). */
module EventGroups {
  import opened Civil
  import opened Events
  import SixWeeks

  /** The views the switches of `groupEvents` and `getTimeline` recognise,
      plus every other label, for which neither switch assigns anything. */
  datatype View = Day | Week | FiveDays | Month | Year | Schedule | Unrecognised

  /** The case labels of the switches. */
  function ParseView(name: string): View {
    if name == "day" then Day
    else if name == "week" then Week
    else if name == "5-days" then FiveDays
    else if name == "month" then Month
    else if name == "year" then Year
    else if name == "schedule" then Schedule
    else Unrecognised
  }

  /** `calendarViewOptions`, the labels the view type declares. */
  const ViewOptions: seq<string> := ["Day", "5 days", "Week", "Month", "Year", "Schedule"]

  /** None of the declared view labels is a case label of the switches. */
  lemma ViewOptionsUnrecognised(i: int)
    requires 0 <= i < |ViewOptions|
    ensures ParseView(ViewOptions[i]) == Unrecognised
  {
  }

  /** `amountOfGroups`: left undefined for an unrecognised label, which makes
      the loop `i < amountOfGroups` run zero times. */
  function GroupCount(view: View): nat {
    match view
    case Day => 1
    case Week => 7
    case FiveDays => 5
    case Month => 42
    case Year => 12
    case Schedule => 4
    case Unrecognised => 0
  }

  /** `group.date` of the `i`-th group. */
  function Anchor(view: View, selected: Instant, i: nat): Instant
    requires i < GroupCount(view)
  {
    match view
    case Day => selected
    case Week => AddDays(StartOfWeek(selected), i)
    case Month => SixWeeks.Grid(YearMonthOf(selected.day))[i / 7][i % 7]
    case Year => AddMonths(StartOfMonth(selected), i)
    case _ => AddDays(selected, i)
  }

  /** `a.isSame(b, unit)` with unit "month" in the year view and "date" otherwise. */
  predicate SameUnit(view: View, a: Instant, b: Instant) {
    if view == Year then YearMonthOf(a.day) == YearMonthOf(b.day) else a.day == b.day
  }

  function MatchesAnchor(view: View, anchor: Instant): Event -> bool {
    e => SameUnit(view, EffectiveDate(e), anchor)
  }

  datatype Group = Group(date: Instant, events: seq<Event>)

  datatype Grouped = Grouped(allDay: seq<Group>, standard: seq<Group>)

  /** Reference definition: one group per anchor holding the sorted events
      that match it, the same groups listed as `allDay` and as `standard`. */
  function Groups(events: seq<Event>, view: View, selected: Instant): (gs: seq<Group>)
    ensures |gs| == GroupCount(view)
  {
    var sorted := SortByDay(events);
    seq(GroupCount(view), i requires 0 <= i < GroupCount(view) =>
      Group(Anchor(view, selected, i), Filter(sorted, MatchesAnchor(view, Anchor(view, selected, i)))))
  }

  function Grouping(events: seq<Event>, view: View, selected: Instant): Grouped {
    var gs := Groups(events, view, selected);
    Grouped(gs, gs)
  }

  function Flatten(rows: seq<seq<Instant>>): seq<Instant> {
    if rows == [] then [] else rows[0] + Flatten(rows[1..])
  }

  lemma {:induction false} FlattenRows(rows: seq<seq<Instant>>)
    requires forall r :: 0 <= r < |rows| ==> |rows[r]| == 7
    ensures |Flatten(rows)| == 7 * |rows|
    ensures forall i :: 0 <= i < 7 * |rows| ==> Flatten(rows)[i] == rows[i / 7][i % 7]
  {
    if rows != [] {
      FlattenRows(rows[1..]);
      forall i | 7 <= i < 7 * |rows|
        ensures Flatten(rows)[i] == rows[i / 7][i % 7]
      {
        DivUnique(i, 7, (i - 7) / 7 + 1, (i - 7) % 7);
      }
    }
  }

  /** The switch that sets `group.date` for the `i`-th group; the month view
      reads the flattened six-week matrix. */
  method GroupDate(view: View, selected: Instant, sixWeeksFromMonth: seq<Instant>, i: nat) returns (date: Instant)
    requires i < GroupCount(view)
    requires view == Month ==> (|sixWeeksFromMonth| == 42 &&
               forall k :: 0 <= k < 42 ==> sixWeeksFromMonth[k] == SixWeeks.Grid(YearMonthOf(selected.day))[k / 7][k % 7])
    ensures date == Anchor(view, selected, i)
  {
    date :=
      match view
      case Day => selected
      case Week => AddDays(StartOfWeek(selected), i)
      case Month => sixWeeksFromMonth[i]
      case Year => AddMonths(StartOfMonth(selected), i)
      case _ => AddDays(selected, i);
  }

  /** The first loop of `groupEvents`: one group object per anchor, each
      pushed onto both `allDay` and `standard`. */
  method NewGroups(view: View, selected: Instant, sixWeeksFromMonth: seq<Instant>, amountOfGroups: nat)
    returns (heap: seq<Group>, allDay: seq<nat>, standard: seq<nat>)
    requires amountOfGroups == GroupCount(view)
    requires view == Month ==> (|sixWeeksFromMonth| == 42 &&
               forall k :: 0 <= k < 42 ==> sixWeeksFromMonth[k] == SixWeeks.Grid(YearMonthOf(selected.day))[k / 7][k % 7])
    ensures |heap| == |standard| == GroupCount(view) && allDay == standard
    ensures forall k :: 0 <= k < |standard| ==> standard[k] == k
    ensures forall k :: 0 <= k < |heap| ==> heap[k] == Group(Anchor(view, selected, k), [])
  {
    heap, allDay, standard := [], [], [];
    var i := 0;
    while i < amountOfGroups
      invariant 0 <= i <= amountOfGroups && |heap| == i && allDay == standard && |standard| == i
      invariant forall k :: 0 <= k < i ==> standard[k] == k
      invariant forall k :: 0 <= k < i ==> heap[k] == Group(Anchor(view, selected, k), [])
    {
      var date := GroupDate(view, selected, sixWeeksFromMonth, i);
      heap := heap + [Group(date, [])];
      allDay := allDay + [|heap| - 1];
      standard := standard + [|heap| - 1];
      i := i + 1;
    }
  }

  /** One pass of the inner loop of `groupEvents`: every sorted event on the
      group's day (month, in the year view) is pushed, an all-day event
      through the `allDay` reference and a timed one through the `standard`
      reference. */
  method FillGroup(heap: seq<Group>, allDayGroup: nat, standardGroup: nat, sorted: seq<Event>, view: View)
    returns (heap': seq<Group>)
    requires allDayGroup == standardGroup < |heap| && heap[standardGroup].events == []
    ensures |heap'| == |heap|
    ensures heap'[standardGroup] == Group(heap[standardGroup].date,
                                          Filter(sorted, MatchesAnchor(view, heap[standardGroup].date)))
    ensures forall k :: 0 <= k < |heap| && k != standardGroup ==> heap'[k] == heap[k]
  {
    heap' := heap;
    var p := MatchesAnchor(view, heap[standardGroup].date);
    var j := 0;
    while j < |sorted|
      invariant 0 <= j <= |sorted| && |heap'| == |heap|
      invariant heap'[standardGroup] == Group(heap[standardGroup].date, Filter(sorted[..j], p))
      invariant forall k :: 0 <= k < |heap| && k != standardGroup ==> heap'[k] == heap[k]
    {
      var event := sorted[j];
      assert sorted[..j + 1] == sorted[..j] + [event];
      FilterConcat(sorted[..j], [event], p);
      FilterCons(event, [], p);
      var isSameDate := SameUnit(view, EffectiveDate(event), heap'[standardGroup].date);
      if isSameDate {
        if event.AllDay? {
          heap' := heap'[allDayGroup := heap'[allDayGroup].(events := heap'[allDayGroup].events + [event])];
        } else {
          heap' := heap'[standardGroup := heap'[standardGroup].(events := heap'[standardGroup].events + [event])];
        }
      }
      j := j + 1;
    }
    assert sorted[..|sorted|] == sorted;
  }

  /** The second loop of `groupEvents`: each group, reached through its
      `allDay` and `standard` references, scans all sorted events. */
  method FillGroups(heap: seq<Group>, allDay: seq<nat>, standard: seq<nat>, sorted: seq<Event>, view: View)
    returns (heap': seq<Group>)
    requires |heap| == |standard| && allDay == standard
    requires forall k :: 0 <= k < |standard| ==> standard[k] == k && heap[k].events == []
    ensures |heap'| == |heap|
    ensures forall k :: 0 <= k < |heap| ==>
              heap'[k] == Group(heap[k].date, Filter(sorted, MatchesAnchor(view, heap[k].date)))
  {
    heap' := heap;
    var i := 0;
    while i < |standard|
      invariant 0 <= i <= |standard| == |heap'| == |heap|
      invariant forall k :: 0 <= k < i ==>
                  heap'[k] == Group(heap[k].date, Filter(sorted, MatchesAnchor(view, heap[k].date)))
      invariant forall k :: i <= k < |heap| ==> heap'[k] == heap[k]
    {
      heap' := FillGroup(heap', allDay[i], standard[i], sorted, view);
      i := i + 1;
    }
  }

  /** `groupEvents({events, calendarView, calendarSelectedDate})`, following
      the source: the six-week matrix is built and flattened up front, the
      events are sorted, each group object is pushed onto both `allDay` and
      `standard`, then every group scans every sorted event. The group
      objects live in `heap`; `allDay` and `standard` hold references to them,
      so an event pushed through either array lands in the one shared group. */
  method GroupEvents(events: seq<Event>, view: View, selected: Instant) returns (r: Grouped)
    ensures r.allDay == r.standard
    ensures |r.standard| == GroupCount(view)
    ensures forall i :: 0 <= i < |r.standard| ==>
              && r.standard[i].date == Anchor(view, selected, i)
              && r.standard[i].events == Filter(SortByDay(events), MatchesAnchor(view, Anchor(view, selected, i)))
    ensures r == Grouping(events, view, selected)
  {
    var weeks := SixWeeks.GetSixWeeksByMonth(selected);
    var sixWeeksFromMonth := Flatten(weeks);
    FlattenRows(weeks);
    var amountOfGroups: nat :=
      match view
      case Day => 1
      case Week => 7
      case FiveDays => 5
      case Month => |sixWeeksFromMonth|
      case Year => 12
      case Schedule => 4
      case Unrecognised => 0;
    var sorted := SortByDay(events);
    var heap, allDay, standard := NewGroups(view, selected, sixWeeksFromMonth, amountOfGroups);
    heap := FillGroups(heap, allDay, standard, sorted, view);
    r := Grouped(seq(|allDay|, k requires 0 <= k < |allDay| => heap[allDay[k]]),
                 seq(|standard|, k requires 0 <= k < |standard| => heap[standard[k]]));
    assert r.standard == Groups(events, view, selected);
  }

  // ---------------------------------------------------------------------
  // Properties of the grouping

  /** The number of groups depends on the view alone, never on the events:
      one for a day, seven for a week, five for five days, 42 for a month,
      twelve for a year, four for the schedule and none for any other label. */
  lemma GroupCountByView(events: seq<Event>, view: View, selected: Instant)
    ensures var r := Grouping(events, view, selected);
            && |r.allDay| == |r.standard|
            && |r.standard| == (match view
                                case Day => 1 case Week => 7 case FiveDays => 5
                                case Month => 42 case Year => 12 case Schedule => 4
                                case Unrecognised => 0)
  {
  }

  /** The anchor of each group per view: the selected instant itself (day),
      the Sunday midnight opening its week plus `i` days (week), the `i`-th
      cell of the six-week matrix (month), the 1st of the selected month plus
      `i` months (year), and the selected instant plus `i` days (five days,
      schedule). */
  lemma AnchorsByView(view: View, selected: Instant, i: nat)
    requires i < GroupCount(view)
    ensures var a := Anchor(view, selected, i);
            match view
            case Day => a == selected
            case Week => a.time == 0 && Weekday(a.day) == i && selected.day - Weekday(selected.day) + i == a.day
            case Month => a == Midnight(SixWeeks.GridStart(YearMonthOf(selected.day)) + i)
            case Year => a == Midnight(FirstOfMonth(Shift(YearMonthOf(selected.day), i)))
            case _ => a == Instant(selected.day + i, selected.time)
  {
    match view
    case Week =>
      var w := Weekday(selected.day);
      var n := selected.day - w + i;
      assert n + 4 == 7 * ((selected.day + 4) / 7) + i;
      DivUnique(n + 4, 7, (selected.day + 4) / 7, i);
    case Month =>
      assert i == 7 * (i / 7) + i % 7;
    case Year =>
      var a := Anchor(view, selected, i);
      var d := FromDayNumber(a.day);
      assert d.Ym() == Shift(YearMonthOf(selected.day), i) && d.day == 1;
    case _ =>
  }

  /** Anchors of one grouping are pairwise distinct days (distinct months in
      the year view). */
  lemma AnchorsDistinct(view: View, selected: Instant, i: nat, j: nat)
    requires i < GroupCount(view) && j < GroupCount(view) && i != j
    ensures !SameUnit(view, Anchor(view, selected, i), Anchor(view, selected, j))
  {
    AnchorsByView(view, selected, i);
    AnchorsByView(view, selected, j);
    if view == Year {
      var ym := YearMonthOf(selected.day);
      var a, b := Shift(ym, i), Shift(ym, j);
      DateRoundTrip(Date(a.year, a.month, 1));
      DateRoundTrip(Date(b.year, b.month, 1));
      IndexInjective(a, b);
    }
  }

  /** An event is in group `i` exactly when it is one of the input events and
      its effective date falls on the group's anchor day (anchor month in the
      year view); all-day and timed events alike, since both lists are the
      same groups. */
  lemma GroupMembers(events: seq<Event>, view: View, selected: Instant, i: nat, e: Event)
    requires i < GroupCount(view)
    ensures var r := Grouping(events, view, selected);
            && r.allDay[i] == r.standard[i]
            && r.standard[i].date == Anchor(view, selected, i)
            && (e in r.standard[i].events <==> e in events && SameUnit(view, EffectiveDate(e), Anchor(view, selected, i)))
  {
    var sorted := SortByDay(events);
    FilterMembers(sorted, MatchesAnchor(view, Anchor(view, selected, i)));
    assert e in sorted <==> e in multiset(sorted);
    assert e in events <==> e in multiset(events);
  }

  /** No event lands in two groups. */
  lemma EventInAtMostOneGroup(events: seq<Event>, view: View, selected: Instant, i: nat, j: nat, e: Event)
    requires i < GroupCount(view) && j < GroupCount(view)
    requires e in Grouping(events, view, selected).standard[i].events
    requires e in Grouping(events, view, selected).standard[j].events
    ensures i == j
  {
    GroupMembers(events, view, selected, i, e);
    GroupMembers(events, view, selected, j, e);
    if i != j {
      AnchorsDistinct(view, selected, i, j);
    }
  }

  /** Outside the year view a group holds exactly the input events on its
      anchor day, in their input order. */
  lemma DayGroupInInputOrder(events: seq<Event>, view: View, selected: Instant, i: nat)
    requires i < GroupCount(view) && view != Year
    ensures Grouping(events, view, selected).standard[i].events
              == Filter(events, OnDay(Anchor(view, selected, i).day))
  {
    var a := Anchor(view, selected, i);
    var sorted := SortByDay(events);
    FilterExtensional(sorted, MatchesAnchor(view, a), OnDay(a.day));
  }

  /** The `i`-th group of the reference definition, unfolded. */
  lemma GroupAt(events: seq<Event>, view: View, selected: Instant, i: nat)
    requires i < GroupCount(view)
    ensures Grouping(events, view, selected).standard[i]
              == Group(Anchor(view, selected, i), Filter(SortByDay(events), MatchesAnchor(view, Anchor(view, selected, i))))
  {
  }

  /** Filtering a day out of a filtered sequence, when the first filter
      treats every event of that day alike. */
  lemma FilterDayOfFiltered(sorted: seq<Event>, events: seq<Event>, p: Event -> bool, k: int, b: bool)
    requires Filter(sorted, OnDay(k)) == Filter(events, OnDay(k))
    requires forall x :: DayKey(x) == k ==> p(x) == b
    ensures Filter(Filter(sorted, p), OnDay(k)) == if b then Filter(events, OnDay(k)) else []
  {
    FilterCommutes(sorted, p, OnDay(k));
    var onK := Filter(sorted, OnDay(k));
    assert forall x :: 0 <= x < |onK| ==> DayKey(onK[x]) == k;
    if b {
      FilterAll(onK, p);
    } else {
      FilterNone(onK, p);
    }
  }

  /** Each group is in ascending day order; in the year view the events of
      one day keep their input order and the days outside the anchor month
      are absent. */
  lemma YearGroupOrder(events: seq<Event>, selected: Instant, i: nat, k: int)
    requires i < 12
    ensures SortedByDay(Grouping(events, Year, selected).standard[i].events)
    ensures var g := Grouping(events, Year, selected).standard[i];
            Filter(g.events, OnDay(k))
              == if YearMonthOf(k) == YearMonthOf(g.date.day) then Filter(events, OnDay(k)) else []
  {
    var a := Anchor(Year, selected, i);
    GroupAt(events, Year, selected, i);
    var sorted := SortByDay(events);
    var p := MatchesAnchor(Year, a);
    FilterKeepsOrder(sorted, p);
    FilterDayOfFiltered(sorted, events, p, k, YearMonthOf(k) == YearMonthOf(a.day));
  }

  /** Day `n` of the month whose 1st is day `first`, at `minutes` past
      local midnight. */
  function DayAt(first: int, n: int, minutes: int): Instant
    requires 0 <= minutes < 1440
  {
    Instant(first + n - 1, minutes * 60000)
  }

  /** Day `n` of January 2024 at `minutes` past local midnight. The test
      fixture writes its instants at 05:00 UTC, the local midnight of the
      UTC-5 zone its expected output was recorded in. */
  function January(n: int, minutes: int): (i: Instant)
    requires 1 <= n <= 31 && 0 <= minutes < 1440
    ensures i.day == DayNumber(Date(2024, 0, n)) && Valid(Date(2024, 0, n))
    ensures i.time == minutes * 60000
  {
    DayAt(FirstOfMonth(YearMonth(2024, 0)), n, minutes)
  }

  /** The eleven events of the day-view test, in input order, for a month
      whose 1st is day `first`: an all-day fast and a dentist appointment on
      the 15th, a team meeting and lunch on the 17th, and one timed event on
      each day from the 18th to the 24th. */
  function FixtureFrom(first: int): seq<Event> {
    [ AllDay("Fast", DayAt(first, 15, 0)),
      Timed("Dentist appointment", DayAt(first, 15, 0), DayAt(first, 15, 60)),
      Timed("Team meeting", DayAt(first, 17, 0), DayAt(first, 17, 15)),
      Timed("Lunch with Sarah", DayAt(first, 17, 180), DayAt(first, 17, 225)),
      Timed("Presentation rehearsal", DayAt(first, 18, 0), DayAt(first, 18, 105)),
      Timed("Call with client", DayAt(first, 19, 0), DayAt(first, 19, 30)),
      Timed("Yoga class", DayAt(first, 20, 0), DayAt(first, 20, 0)),
      Timed("Grocery shopping", DayAt(first, 21, 0), DayAt(first, 21, 30)),
      Timed("Cook dinner", DayAt(first, 22, 0), DayAt(first, 22, 30)),
      Timed("Clean", DayAt(first, 23, 0), DayAt(first, 23, 30)),
      Timed("Some stuff", DayAt(first, 24, 0), DayAt(first, 24, 45)) ]
  }

  /** The fixture as the test builds it, in January 2024. */
  function Fixture(): (s: seq<Event>)
    ensures |s| == 11
    ensures s[0] == AllDay("Fast", January(15, 0))
    ensures s[2] == Timed("Team meeting", January(17, 0), January(17, 15))
    ensures s[3] == Timed("Lunch with Sarah", January(17, 180), January(17, 225))
  {
    FixtureFrom(FirstOfMonth(YearMonth(2024, 0)))
  }

  /** Of the fixture, only the team meeting and the lunch fall on the 17th. */
  lemma FixtureFromOnSeventeenth(first: int)
    ensures Filter(FixtureFrom(first), OnDay(first + 16)) == [FixtureFrom(first)[2], FixtureFrom(first)[3]]
  {
    var s := FixtureFrom(first);
    var p := OnDay(first + 16);
    var before := [s[0], s[1]];
    var on := [s[2], s[3]];
    var after := [s[4], s[5], s[6], s[7], s[8], s[9], s[10]];
    assert s == before + on + after;
    FilterConcat(before + on, after, p);
    FilterConcat(before, on, p);
    FilterNone(before, p);
    FilterAll(on, p);
    FilterNone(after, p);
  }

  /** The day-view test with the system clock at 2024-01-17 00:00 local
      time: the single group is anchored at that instant and holds the team
      meeting and the lunch in input order; because `allDay` and `standard`
      share the group object, the all-day list holds them too, so the
      expected empty all-day list does not hold. */
  lemma DayViewScenario(events: seq<Event>, today: Instant)
    requires events == Fixture() && today == January(17, 0)
    ensures Grouping(events, Day, today).standard == [Group(today, [events[2], events[3]])]
    ensures Grouping(events, Day, today).allDay == Grouping(events, Day, today).standard
  {
    var first := FirstOfMonth(YearMonth(2024, 0));
    FixtureFromOnSeventeenth(first);
    assert today.day == first + 16;
    DayViewGroups(events, today);
  }

  /** The day view has one group, at the selected instant, holding the
      events of that day in input order, and lists it twice. */
  lemma DayViewGroups(events: seq<Event>, selected: Instant)
    ensures Grouping(events, Day, selected).standard == [Group(selected, Filter(events, OnDay(selected.day)))]
    ensures Grouping(events, Day, selected).allDay == Grouping(events, Day, selected).standard
  {
    DayGroupInInputOrder(events, Day, selected, 0);
    var r := Grouping(events, Day, selected);
    assert |r.standard| == 1;
  }
}
