/** The month state of the date picker: the selected day, the month on
    display and the six-week grid of that month. */
module DatePicker {
  import opened Civil
  import SixWeeks

  /** `selectedDay`, `selectedMonth` and `weeks`. Only the year and month of
      `selectedMonth` matter to the grid, but the value is a full instant and
      is moved by whole months. */
  datatype Picker = Picker(selectedDay: Instant, selectedMonth: Instant, weeks: seq<seq<Instant>>)

  /** The month on display. */
  function Shown(p: Picker): YearMonth {
    YearMonthOf(p.selectedMonth.day)
  }

  /** The grid agrees with the month on display. */
  ghost predicate WeeksCurrent(p: Picker) {
    p.weeks == SixWeeks.Grid(Shown(p))
  }

  /** The picker as mounted: both the selected day and the month on display
      start at the calendar's picker date, and the grid is computed from it. */
  method Mount(pickerDate: Instant) returns (p: Picker)
    ensures p.selectedDay == pickerDate && p.selectedMonth == pickerDate
    ensures WeeksCurrent(p)
    ensures Shown(p) == YearMonthOf(pickerDate.day)
  {
    var weeks := SixWeeks.GetSixWeeksByMonth(pickerDate);
    p := Picker(pickerDate, pickerDate, weeks);
  }

  /** `handlePrevMonth`: the month on display moves back by one calendar
      month; the grid is left to the effect. */
  function PrevMonth(p: Picker): (r: Picker)
    ensures Shown(r) == Shift(Shown(p), -1)
    ensures r.selectedDay == p.selectedDay && r.weeks == p.weeks
  {
    p.(selectedMonth := AddMonths(p.selectedMonth, -1))
  }

  /** `handleNextMonth`: the month on display moves forward by one calendar
      month; the grid is left to the effect. */
  function NextMonth(p: Picker): (r: Picker)
    ensures Shown(r) == Shift(Shown(p), 1)
    ensures r.selectedDay == p.selectedDay && r.weeks == p.weeks
  {
    p.(selectedMonth := AddMonths(p.selectedMonth, 1))
  }

  /** The effect on a change of the calendar's picker date: both the selected
      day and the month on display are reset to it. */
  function SyncFrom(p: Picker, pickerDate: Instant): (r: Picker)
    ensures r.selectedDay == pickerDate && Shown(r) == YearMonthOf(pickerDate.day)
    ensures r.weeks == p.weeks
  {
    p.(selectedDay := pickerDate, selectedMonth := pickerDate)
  }

  /** `setSelectedDay`, as a cell click calls it. */
  function SelectDay(p: Picker, day: Instant): (r: Picker)
    ensures r.selectedDay == day && Shown(r) == Shown(p) && r.weeks == p.weeks
  {
    p.(selectedDay := day)
  }

  /** The effect on a change of `selectedMonth`: the grid is recomputed. */
  method WeeksEffect(p: Picker) returns (r: Picker)
    ensures WeeksCurrent(r)
    ensures r.selectedDay == p.selectedDay && r.selectedMonth == p.selectedMonth
  {
    var weeks := SixWeeks.GetSixWeeksByMonth(p.selectedMonth);
    r := p.(weeks := weeks);
  }

  datatype PickerAction = Prev | Next | Sync(pickerDate: Instant) | Select(day: Instant)

  /** One action followed by the effects it triggers: the grid is recomputed
      whenever the month on display may have moved. */
  method Dispatch(p: Picker, a: PickerAction) returns (r: Picker)
    requires WeeksCurrent(p)
    ensures WeeksCurrent(r)
    ensures match a
            case Prev => Shown(r) == Shift(Shown(p), -1) && r.selectedDay == p.selectedDay
            case Next => Shown(r) == Shift(Shown(p), 1) && r.selectedDay == p.selectedDay
            case Sync(d) => r.selectedDay == d && r.selectedMonth == d
            case Select(d) => r.selectedDay == d && r.selectedMonth == p.selectedMonth
  {
    match a
    case Prev =>
      r := WeeksEffect(PrevMonth(p));
    case Next =>
      r := WeeksEffect(NextMonth(p));
    case Sync(d) =>
      r := WeeksEffect(SyncFrom(p, d));
    case Select(d) =>
      r := SelectDay(p, d);
  }

  /** Next month from December is January of the following year, and
      otherwise the following month of the same year. */
  lemma NextMonthRollover(p: Picker)
    ensures var ym := Shown(p);
            Shown(NextMonth(p)) == if ym.month == 11 then YearMonth(ym.year + 1, 0)
                                   else YearMonth(ym.year, ym.month + 1)
  {
    NextMonthRollsOver(Shown(p));
  }

  /** Previous month from January is December of the preceding year, and
      otherwise the preceding month of the same year. */
  lemma PrevMonthRollback(p: Picker)
    ensures var ym := Shown(p);
            Shown(PrevMonth(p)) == if ym.month == 0 then YearMonth(ym.year - 1, 11)
                                   else YearMonth(ym.year, ym.month - 1)
  {
    PrevMonthRollsBack(Shown(p));
  }

  /** Next then previous, or previous then next, brings back the month on
      display and therefore the same grid. */
  lemma NextPrevRestoresGrid(p: Picker)
    ensures Shown(PrevMonth(NextMonth(p))) == Shown(p)
    ensures Shown(NextMonth(PrevMonth(p))) == Shown(p)
    ensures SixWeeks.Grid(Shown(PrevMonth(NextMonth(p)))) == SixWeeks.Grid(Shown(p))
  {
    ShiftInverse(Shown(p), 1);
    ShiftInverse(Shown(p), -1);
  }
}
