/** The calendar root: the selected date, the date picker's date, the view
    label, and the grouped events kept in step with them. */
module Calendar {
  import opened Options
  import opened Civil
  import opened Events
  import opened EventGroups

  datatype Unit = Days | Months

  /** `{ time, units }` of `getTimeline`. */
  datatype Timeline = Timeline(time: int, units: Unit)

  /** `getTimeline`: how far one period moves in each view. Both variables
      stay unassigned for a label the switch does not list. */
  function GetTimeline(view: View): (r: Option<Timeline>)
    ensures r.Some? <==> view != Unrecognised
    ensures r.Some? ==> r.value.time > 0
  {
    match view
    case Day => Some(Timeline(1, Days))
    case Week => Some(Timeline(7, Days))
    case FiveDays => Some(Timeline(5, Days))
    case Month => Some(Timeline(1, Months))
    case Year => Some(Timeline(1, Days))
    case Schedule => Some(Timeline(4, Days))
    case Unrecognised => None
  }

  /** `date.add(time, units)` for `sign` 1 and `date.subtract(time, units)`
      for `sign` -1. */
  function Move(i: Instant, t: Timeline, sign: int): (r: Instant)
    ensures MovedBy(i, r, t.units, sign * t.time)
  {
    match t.units
    case Days => AddDays(i, sign * t.time)
    case Months => AddMonths(i, sign * t.time)
  }

  /** `b` is `a` moved by `k` whole days, or by `k` calendar months with the
      day of month clamped to the target month. */
  ghost predicate MovedBy(a: Instant, b: Instant, units: Unit, k: int) {
    match units
    case Days => b.day == a.day + k && b.time == a.time
    case Months =>
      && YearMonthOf(b.day) == Shift(YearMonthOf(a.day), k)
      && DayOfMonth(b) == Min(DayOfMonth(a), MonthLength(YearMonthOf(b.day)))
      && b.time == a.time
  }

  datatype State = State(
    selectedDate: Instant,
    pickerDate: Instant,
    view: string,
    events: seq<Event>,
    grouped: Grouped)

  /** The grouped events are those of the selected date, view and events. */
  ghost predicate GroupedCurrent(s: State) {
    s.grouped == Grouping(s.events, ParseView(s.view), s.selectedDate)
  }

  /** The label a missing `defaultView` prop stands for. */
  const DefaultView: string := "5-days"

  /** The initial state. The clock is read once for the selected date
      (`now`) and once more for the picker's date (`pickerNow`); the view is
      the `defaultView` prop or "5-days", and the events are grouped for
      them. */
  method Mount(now: Instant, pickerNow: Instant, defaultView: Option<string>, events: seq<Event>) returns (s: State)
    ensures s.selectedDate == now && s.pickerDate == pickerNow && s.events == events
    ensures s.view == (if defaultView.Some? then defaultView.value else DefaultView)
    ensures GroupedCurrent(s)
  {
    var view := defaultView.GetOr(DefaultView);
    var grouped := GroupEvents(events, ParseView(view), now);
    s := State(now, pickerNow, view, events, grouped);
  }

  /** Both dates moved by `sign` periods of `t`, or `None` for no period. */
  function Step(s: State, t: Option<Timeline>, sign: int): (r: Option<State>)
    ensures r.Some? <==> t.Some?
    ensures r.Some? ==>
              && MovedBy(s.selectedDate, r.value.selectedDate, t.value.units, sign * t.value.time)
              && MovedBy(s.pickerDate, r.value.pickerDate, t.value.units, sign * t.value.time)
              && r.value.view == s.view && r.value.events == s.events && r.value.grouped == s.grouped
  {
    match t
    case None => None
    case Some(t) =>
      var selected := Move(s.selectedDate, t, sign);
      var picker := Move(s.pickerDate, t, sign);
      Some(s.(pickerDate := picker, selectedDate := selected))
  }

  /** `handleCalendarNextPeriod`: both dates move forward by the view's
      period; with an unlisted label the dates become invalid (`None`). */
  function NextPeriod(s: State): (r: Option<State>)
    ensures r.Some? <==> ParseView(s.view) != Unrecognised
    ensures r.Some? ==>
              var t := GetTimeline(ParseView(s.view)).value;
              && MovedBy(s.selectedDate, r.value.selectedDate, t.units, t.time)
              && MovedBy(s.pickerDate, r.value.pickerDate, t.units, t.time)
              && r.value.view == s.view && r.value.events == s.events && r.value.grouped == s.grouped
  {
    Step(s, GetTimeline(ParseView(s.view)), 1)
  }

  /** `handleCalendarPreviousPeriod`: both dates move back by the view's
      period; with an unlisted label the dates become invalid (`None`). */
  function PreviousPeriod(s: State): (r: Option<State>)
    ensures r.Some? <==> ParseView(s.view) != Unrecognised
    ensures r.Some? ==>
              var t := GetTimeline(ParseView(s.view)).value;
              && MovedBy(s.selectedDate, r.value.selectedDate, t.units, -t.time)
              && MovedBy(s.pickerDate, r.value.pickerDate, t.units, -t.time)
              && r.value.view == s.view && r.value.events == s.events && r.value.grouped == s.grouped
  {
    Step(s, GetTimeline(ParseView(s.view)), -1)
  }

  /** `handleCalendarDateReset`: only the selected date returns to today;
      the picker's date and the view are untouched. */
  function DateReset(s: State, today: Instant): (r: State)
    ensures r.selectedDate == today
    ensures r.pickerDate == s.pickerDate && r.view == s.view && r.events == s.events
  {
    s.(selectedDate := today)
  }

  /** `setCalendarView`, as the provider exposes it and the `defaultView`
      effect calls it. */
  function SetView(s: State, view: string): (r: State)
    ensures r.view == view
    ensures r.selectedDate == s.selectedDate && r.pickerDate == s.pickerDate && r.events == s.events
  {
    s.(view := view)
  }

  /** A new `events` prop. */
  function SetEvents(s: State, events: seq<Event>): (r: State)
    ensures r.events == events
    ensures r.selectedDate == s.selectedDate && r.pickerDate == s.pickerDate && r.view == s.view
  {
    s.(events := events)
  }

  /** The effect on the selected date, the view and the events: the events
      are grouped again. */
  method RegroupEffect(s: State) returns (r: State)
    ensures GroupedCurrent(r)
    ensures r.selectedDate == s.selectedDate && r.pickerDate == s.pickerDate
    ensures r.view == s.view && r.events == s.events
  {
    var grouped := GroupEvents(s.events, ParseView(s.view), s.selectedDate);
    r := s.(grouped := grouped);
  }

  datatype Action =
    | Next
    | Previous
    | Reset(today: Instant)
    | ChooseView(view: string)
    | DefaultViewChanged(defaultView: Option<string>)
    | NewEvents(events: seq<Event>)

  /** One action followed by the regrouping effect: the dates, view and
      events are those the action's handler leaves, and the grouped events
      match them; `None` when the period step is undefined. */
  method Dispatch(s: State, a: Action) returns (r: Option<State>)
    ensures r.None? <==> (a.Next? || a.Previous?) && ParseView(s.view) == Unrecognised
    ensures r.Some? ==> GroupedCurrent(r.value)
    ensures r.Some? ==>
              match a
              case Next => r.value.(grouped := s.grouped) == NextPeriod(s).value
              case Previous => r.value.(grouped := s.grouped) == PreviousPeriod(s).value
              case Reset(today) => r.value.(grouped := s.grouped) == DateReset(s, today)
              case ChooseView(v) => r.value.(grouped := s.grouped) == SetView(s, v)
              case DefaultViewChanged(v) => r.value.(grouped := s.grouped) == SetView(s, v.GetOr(DefaultView))
              case NewEvents(es) => r.value.(grouped := s.grouped) == SetEvents(s, es)
    ensures r.Some? && a.Reset? ==> r.value.selectedDate == a.today && r.value.pickerDate == s.pickerDate
    ensures r.Some? && a.DefaultViewChanged? ==>
              r.value.view == (if a.defaultView.Some? then a.defaultView.value else DefaultView)
  {
    var next: Option<State> :=
      match a
      case Next => NextPeriod(s)
      case Previous => PreviousPeriod(s)
      case Reset(today) => Some(DateReset(s, today))
      case ChooseView(v) => Some(SetView(s, v))
      case DefaultViewChanged(v) => Some(SetView(s, v.GetOr(DefaultView)))
      case NewEvents(es) => Some(SetEvents(s, es));
    if next.None? {
      return None;
    }
    var regrouped := RegroupEffect(next.value);
    r := Some(regrouped);
  }

  // ---------------------------------------------------------------------
  // Properties

  /** The period per view: one day, seven days, five days, one month, one
      day for the year view, four days for the schedule, and nothing for
      any other label. */
  lemma PeriodByView(s: State)
    ensures var v := ParseView(s.view);
            var r := NextPeriod(s);
            match v
            case Day => r.value.selectedDate == AddDays(s.selectedDate, 1)
            case Week => r.value.selectedDate == AddDays(s.selectedDate, 7)
            case FiveDays => r.value.selectedDate == AddDays(s.selectedDate, 5)
            case Month => YearMonthOf(r.value.selectedDate.day) == Shift(YearMonthOf(s.selectedDate.day), 1)
            case Year => r.value.selectedDate == AddDays(s.selectedDate, 1)
            case Schedule => r.value.selectedDate == AddDays(s.selectedDate, 4)
            case Unrecognised => r.None?
  {
  }

  /** For the views that step by days, the previous period undoes the next
      one and the reverse, on both dates. */
  lemma DayStepsInvert(s: State)
    requires ParseView(s.view) != Unrecognised && ParseView(s.view) != Month
    ensures NextPeriod(s).Some? && PreviousPeriod(NextPeriod(s).value) == Some(s)
    ensures PreviousPeriod(s).Some? && NextPeriod(PreviousPeriod(s).value) == Some(s)
  {
  }

  /** In the month view the previous period brings back the month of the
      next one, though not always the day. */
  lemma MonthStepsRestoreMonth(s: State)
    requires ParseView(s.view) == Month
    ensures NextPeriod(s).Some?
    ensures YearMonthOf(PreviousPeriod(NextPeriod(s).value).value.selectedDate.day) == YearMonthOf(s.selectedDate.day)
  {
    MonthViewStep(s);
    var next := NextPeriod(s).value;
    MonthViewStep(next);
    ShiftInverse(YearMonthOf(s.selectedDate.day), 1);
  }

  /** 2024-01-31 is day 19753, 2024-02-29 day 19782 and 2024-01-29 day 19751. */
  lemma JanuaryEndDays()
    ensures DayNumber(Date(2024, 0, 31)) == 19753
    ensures DayNumber(Date(2024, 1, 29)) == 19782
    ensures DayNumber(Date(2024, 0, 29)) == 19751
    ensures MonthLength(YearMonth(2024, 1)) == 29
  {
  }

  /** In the month view, next then previous from 2024-01-31 lands on
      2024-01-29: the step through February clamps the day. */
  lemma MonthStepsDoNotInvert(s: State)
    requires ParseView(s.view) == Month && s.selectedDate == Midnight(DayNumber(Date(2024, 0, 31)))
    ensures NextPeriod(s).value.selectedDate == Midnight(DayNumber(Date(2024, 1, 29)))
    ensures PreviousPeriod(NextPeriod(s).value).value.selectedDate == Midnight(DayNumber(Date(2024, 0, 29)))
  {
    JanuaryEndDays();
    MonthViewStep(s);
    var next := NextPeriod(s).value;
    JanuaryToFebruary(s.selectedDate);
    MonthViewStep(next);
    FebruaryToJanuary(next.selectedDate);
  }

  /** In the month view both period buttons move the selected date by one
      calendar month. */
  lemma MonthViewStep(s: State)
    requires ParseView(s.view) == Month
    ensures NextPeriod(s).Some? && NextPeriod(s).value.selectedDate == AddMonths(s.selectedDate, 1)
    ensures PreviousPeriod(s).Some? && PreviousPeriod(s).value.selectedDate == AddMonths(s.selectedDate, -1)
  {
  }

  /** One month on from 2024-01-31 is 2024-02-29. */
  lemma JanuaryToFebruary(i: Instant)
    requires i == Midnight(DayNumber(Date(2024, 0, 31)))
    ensures AddMonths(i, 1) == Midnight(DayNumber(Date(2024, 1, 29)))
  {
    JanuaryEndDays();
    DateRoundTrip(Date(2024, 0, 31));
    NextMonthRollsOver(YearMonth(2024, 0));
    ClampedStep(i, 1, Date(2024, 1, 29));
  }

  /** One month back from 2024-02-29 is 2024-01-29. */
  lemma FebruaryToJanuary(i: Instant)
    requires i == Midnight(DayNumber(Date(2024, 1, 29)))
    ensures AddMonths(i, -1) == Midnight(DayNumber(Date(2024, 0, 29)))
  {
    JanuaryEndDays();
    DateRoundTrip(Date(2024, 1, 29));
    PrevMonthRollsBack(YearMonth(2024, 1));
    ClampedStep(i, -1, Date(2024, 0, 29));
  }

  /** A month step lands on the date with the target month and the clamped
      day of month. */
  lemma ClampedStep(i: Instant, k: int, d: Date)
    requires Valid(d) && d.Ym() == Shift(YearMonthOf(i.day), k)
    requires d.day == Min(DayOfMonth(i), MonthLength(d.Ym()))
    ensures AddMonths(i, k) == Instant(DayNumber(d), i.time)
  {
    DayFromMonthAndDay(AddMonths(i, k).day, d);
  }

  /** A day is fixed by its month and its day of month. */
  lemma DayFromMonthAndDay(n: int, d: Date)
    requires Valid(d)
    requires YearMonthOf(n) == d.Ym() && FromDayNumber(n).day == d.day
    ensures n == DayNumber(d)
  {
  }

  /** After a reset the date picker still shows the date the periods moved
      it to: with the day view, next then reset leaves the picker one day
      ahead of where it was while the selected date is today. */
  lemma ResetLeavesPicker(s: State, today: Instant)
    requires ParseView(s.view) == Day
    ensures var r := DateReset(NextPeriod(s).value, today);
            r.selectedDate == today && r.pickerDate == AddDays(s.pickerDate, 1)
  {
  }

  /** None of the declared view labels ("Day", "5 days", ...) is a label the
      switches list: with any of them the calendar shows no groups and the
      period buttons produce invalid dates. */
  lemma DeclaredLabelsStall(s: State, i: int)
    requires 0 <= i < |ViewOptions| && s.view == ViewOptions[i]
    ensures NextPeriod(s).None? && PreviousPeriod(s).None?
    ensures Grouping(s.events, ParseView(s.view), s.selectedDate) == Grouped([], [])
  {
    ViewOptionsUnrecognised(i);
  }
}
