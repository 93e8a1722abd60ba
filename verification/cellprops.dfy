/** `getDayCellProps`: the attributes of one day cell of the date picker
    grid, and its click handler. */
module CellProps {
  import opened Options
  import opened Civil
  import SixWeeks
  import DatePicker
  import Navigator

  /** The arguments: the cell's date, the index of its week in the grid and
      the optional `hideDatesOutsideMonth` flag. */
  datatype CellArgs = CellArgs(date: Instant, weekIndex: int, hideDatesOutsideMonth: Option<bool>)

  /** The derived attributes (the date-formatted `aria-label` is left out). */
  datatype Props = Props(
    isOutsideMonth: bool,
    ariaDisabled: bool,
    dateLabel: int,
    hidden: bool,
    isToday: bool,
    isSelected: bool,
    tabIndex: int)

  /** `getDayCellProps` with the picker's selected day and displayed month,
      and `now` for the system clock. Dates are compared as ISO strings, that
      is as exact instants, and the month test compares month indices only. */
  function GetDayCellProps(args: CellArgs, selectedDay: Instant, selectedMonth: Instant, now: Instant): (r: Props)
    ensures r.isOutsideMonth <==> MonthIndexOf(args.date) != MonthIndexOf(selectedMonth)
    ensures r.ariaDisabled == r.isOutsideMonth
    ensures r.hidden <==> r.isOutsideMonth && args.hideDatesOutsideMonth == Some(true)
    ensures r.dateLabel == DayOfMonth(args.date)
    ensures r.isSelected <==> args.date == selectedDay
    ensures r.isToday <==> args.date == now
    ensures r.tabIndex == 0 <==> args.weekIndex == 0 && DayOfMonth(args.date) == 1
    ensures r.tabIndex == 0 || r.tabIndex == -1
  {
    var isOutsideMonth := MonthIndexOf(args.date) != MonthIndexOf(selectedMonth);
    var isFirstDate := args.weekIndex == 0 && DayOfMonth(args.date) == 1;
    var hidden := Hidden(isOutsideMonth, args.hideDatesOutsideMonth);
    Props(
      isOutsideMonth,
      isOutsideMonth,
      DayOfMonth(args.date),
      hidden,
      now == args.date,
      selectedDay == args.date,
      if isFirstDate then 0 else -1)
  }

  /** `hidden`: only a cell outside the month can be hidden, and only when
      the flag, which defaults to false, is set. */
  function Hidden(isOutsideMonth: bool, hideDatesOutsideMonth: Option<bool>): (h: bool)
    ensures h <==> isOutsideMonth && hideDatesOutsideMonth == Some(true)
  {
    if isOutsideMonth then hideDatesOutsideMonth.GetOr(false) else false
  }

  /** The props of the cell in row `r`, column `c` of the picker's grid. */
  function GridCellProps(p: DatePicker.Picker, r: nat, c: nat, hideOutside: Option<bool>, now: Instant): Props
    requires r < |p.weeks|
    requires c < |p.weeks[r]|
  {
    GetDayCellProps(CellArgs(p.weeks[r][c], r, hideOutside), p.selectedDay, p.selectedMonth, now)
  }

  /** The picker and navigator state after a click on a cell. */
  datatype Clicked = Clicked(picker: DatePicker.Picker, nav: Navigator.Nav, dom: Navigator.Dom)

  /** The click handler: the navigator's click runs first, and the picker's
      selected day moves to the cell only when the cell is outside the month. */
  function CellClick(args: CellArgs, picker: DatePicker.Picker, nav: Navigator.Nav, dom: Navigator.Dom, now: Instant): (r: Clicked)
    ensures (r.nav, r.dom) == Navigator.Click(nav, dom, args.date)
    ensures r.picker.selectedMonth == picker.selectedMonth && r.picker.weeks == picker.weeks
    ensures r.picker.selectedDay == (if MonthIndexOf(args.date) != MonthIndexOf(picker.selectedMonth) then args.date
                                else picker.selectedDay)
  {
    var props := GetDayCellProps(args, picker.selectedDay, picker.selectedMonth, now);
    var clicked := Navigator.Click(nav, dom, args.date);
    var selected := if props.isOutsideMonth then DatePicker.SelectDay(picker, args.date) else picker;
    Clicked(selected, clicked.0, clicked.1)
  }

  // ---------------------------------------------------------------------
  // Properties

  /** Without the flag, no cell is hidden. */
  lemma HiddenDefaultsToFalse(args: CellArgs, selectedDay: Instant, selectedMonth: Instant, now: Instant)
    requires args.hideDatesOutsideMonth == None
    ensures !GetDayCellProps(args, selectedDay, selectedMonth, now).hidden
  {
  }

  /** On the grid of the displayed month, comparing month indices agrees with
      comparing (year, month): a cell is outside the month exactly when it
      belongs to the month before or after. */
  lemma OutsideMonthOnGrid(p: DatePicker.Picker, r: nat, c: nat, hideOutside: Option<bool>, now: Instant)
    requires DatePicker.WeeksCurrent(p) && r < 6 && c < 7
    ensures GridCellProps(p, r, c, hideOutside, now).isOutsideMonth
            <==> YearMonthOf(p.weeks[r][c].day) != DatePicker.Shown(p)
  {
    var ym := DatePicker.Shown(p);
    SixWeeks.CellMonth(ym, r, c);
    Navigator.NeighboursDiffer(ym);
  }

  /** The first-date test picks exactly one cell of the grid: the 1st of the
      month, in row 0 at the column of its weekday. */
  lemma OneFirstDateCell(p: DatePicker.Picker, r: nat, c: nat, hideOutside: Option<bool>, now: Instant)
    requires DatePicker.WeeksCurrent(p) && r < 6 && c < 7
    ensures var ym := DatePicker.Shown(p);
            GridCellProps(p, r, c, hideOutside, now).tabIndex == 0
            <==> r == 0 && c == Weekday(FirstOfMonth(ym))
  {
    var ym := DatePicker.Shown(p);
    var w := Weekday(FirstOfMonth(ym));
    var n := p.weeks[r][c].day;
    SixWeeks.CellsConsecutive(ym, r, c);
    SixWeeks.FirstInRowZero(ym);
    if r == 0 {
      FirstOfMonthDayOne(ym);
      if c != w {
        FirstRowDayOne(ym, c);
      }
    }
  }

  /** The 1st of a month has day of month 1. */
  lemma FirstOfMonthDayOne(ym: YearMonth)
    ensures DayOfMonth(Midnight(FirstOfMonth(ym))) == 1
  {
    DateRoundTrip(Date(ym.year, ym.month, 1));
  }

  /** In row 0 of the grid, only the 1st of the month has day of month 1:
      the cells before it are the last days of the previous month, and the
      cells after it are the 2nd to the 7th. */
  lemma FirstRowDayOne(ym: YearMonth, c: nat)
    requires c < 7 && c != Weekday(FirstOfMonth(ym))
    ensures DayOfMonth(SixWeeks.Grid(ym)[0][c]) != 1
  {
    var w := Weekday(FirstOfMonth(ym));
    var n := SixWeeks.Grid(ym)[0][c].day;
    SixWeeks.CellMonth(ym, 0, c);
    var x := YearMonthOf(n);
    DayInMonthOf(n);
    var d := FromDayNumber(n);
    assert n == FirstOfMonth(x) + d.day - 1;
    if c < w {
      var prev := Shift(ym, -1);
      ShiftInverse(ym, -1);
      FirstOfNextMonth(prev);
      assert n >= FirstOfMonth(ym) - 6;
      assert MonthLength(prev) >= 28;
    }
  }

  /** A grid cell is a midnight, so it is today only when the clock reads
      exactly midnight. */
  lemma TodayOnlyAtMidnight(p: DatePicker.Picker, r: nat, c: nat, hideOutside: Option<bool>, now: Instant)
    requires DatePicker.WeeksCurrent(p) && r < 6 && c < 7
    requires GridCellProps(p, r, c, hideOutside, now).isToday
    ensures now.time == 0
  {
  }

  /** Clicking a cell inside the month changes no picker state; clicking one
      outside selects it, and the displayed month stays. */
  lemma ClickSelectsOutsideOnly(args: CellArgs, picker: DatePicker.Picker, nav: Navigator.Nav, dom: Navigator.Dom, now: Instant)
    ensures var r := CellClick(args, picker, nav, dom, now);
            var outside := GetDayCellProps(args, picker.selectedDay, picker.selectedMonth, now).isOutsideMonth;
            && (outside ==> r.picker == DatePicker.SelectDay(picker, args.date))
            && (!outside ==> r.picker == picker)
            && r.nav.lastFocused == Some(args.date)
  {
  }
}
