/** `useDatePickerNav`: arrow-key movement between the cells of the date
    picker grid. The DOM is abstracted as the tab index of each rendered cell,
    keyed by the instant in the cell's date attribute, plus the focused cell. */
module Navigator {
  import opened Options
  import opened Civil
  import SixWeeks

  datatype Key = ArrowLeft | ArrowRight | ArrowDown | ArrowUp | OtherKey

  /** Which month handler, if any, a key press calls. */
  datatype MonthRequest = Stay | ToPrevMonth | ToNextMonth

  /** The hook's state: `currentElement`, `nextFocusableElementDate` and
      `lastFocusedElement`, each a cell named by its date. */
  datatype Nav = Nav(current: Option<Instant>, pending: Option<Instant>, lastFocused: Option<Instant>)

  const Unset := Nav(None, None, None)

  /** The rendered cells' tab indices and the focused cell. */
  datatype Dom = Dom(tabIndex: map<Instant, int>, focused: Option<Instant>)

  /** The error thrown when the grid container's ref is not attached. */
  datatype NavError = MissingContainer

  /** The hook's new state after a key press, and the month handler it called. */
  datatype Press = Press(nav: Nav, request: MonthRequest)

  /** Days from the pressed cell to the cell an arrow key moves to. */
  function Offset(key: Key): int {
    match key
    case ArrowLeft => -1
    case ArrowRight => 1
    case ArrowDown => 7
    case ArrowUp => -7
    case OtherKey => 0
  }

  /** One arrow branch of `keydownNavigator`: the pressed cell becomes
      current, the target becomes pending, the pressed cell becomes last
      focused only when `recordLast` (left and right), and the month handler
      is called when the target's month index differs from the cell's. */
  function Arrow(nav: Nav, d: Instant, offset: int, recordLast: bool): Press {
    var target := AddDays(d, offset);
    var request :=
      if MonthIndexOf(target) == MonthIndexOf(d) then Stay
      else if offset < 0 then ToPrevMonth
      else ToNextMonth;
    Press(Nav(Some(d), Some(target), if recordLast then Some(d) else nav.lastFocused), request)
  }

  /** `keydownNavigator` on the cell whose date attribute is `cellDate`
      (`None` when the attribute is missing or empty), with `hasContainer`
      telling whether the grid container's ref is attached. */
  function KeyDown(nav: Nav, cellDate: Option<Instant>, hasContainer: bool, key: Key): (r: Result<Press, NavError>)
    ensures cellDate.None? ==> r == Success(Press(nav, Stay))
    ensures cellDate.Some? && !hasContainer ==> r == Failure(MissingContainer)
    ensures cellDate.Some? && hasContainer && key == OtherKey ==> r == Success(Press(nav, Stay))
    ensures cellDate.Some? && hasContainer && key != OtherKey ==>
              var d := cellDate.value;
              var t := AddDays(d, Offset(key));
              && r.Success?
              && r.value.nav.current == Some(d)
              && r.value.nav.pending == Some(t)
              && r.value.nav.lastFocused == (if key == ArrowLeft || key == ArrowRight then Some(d) else nav.lastFocused)
              && (r.value.request == Stay <==> MonthIndexOf(t) == MonthIndexOf(d))
              && (r.value.request == ToPrevMonth ==> key == ArrowLeft || key == ArrowUp)
              && (r.value.request == ToNextMonth ==> key == ArrowRight || key == ArrowDown)
  {
    if cellDate.None? then Success(Press(nav, Stay))
    else if !hasContainer then Failure(MissingContainer)
    else
      var d := cellDate.value;
      match key
      case ArrowLeft => Success(Arrow(nav, d, -1, true))
      case ArrowRight => Success(Arrow(nav, d, 1, true))
      case ArrowDown => Success(Arrow(nav, d, 7, false))
      case ArrowUp => Success(Arrow(nav, d, -7, false))
      case OtherKey => Success(Press(nav, Stay))
  }

  /** The effect on `currentElement`: it runs only when the current cell
      changed, and gives that cell tab index -1. */
  function CurrentEffect(before: Nav, after: Nav, dom: Dom): (r: Dom)
    ensures r.focused == dom.focused && r.tabIndex.Keys == dom.tabIndex.Keys
    ensures forall c :: c in dom.tabIndex ==>
              r.tabIndex[c] == (if after.current == Some(c) && before.current != after.current then -1
                                else dom.tabIndex[c])
  {
    match after.current
    case Some(c) =>
      if before.current != after.current && c in dom.tabIndex then dom.(tabIndex := dom.tabIndex[c := -1])
      else dom
    case None => dom
  }

  /** The deferred effect re-runs, and so schedules its timer again, when the
      pending date or the last-focused cell changed. */
  predicate DeferredRuns(before: Nav, after: Nav) {
    before.pending != after.pending || before.lastFocused != after.lastFocused
  }

  /** The timer callback of the deferred effect: nothing happens without a
      pending date or without a rendered cell carrying it; otherwise that cell
      gets tab index 0 and the focus, and then the last-focused cell, if
      rendered, gets -1. The pending date is never cleared. */
  function DeferredApply(nav: Nav, dom: Dom): (r: Dom)
    ensures nav.pending.None? || nav.pending.value !in dom.tabIndex ==> r == dom
    ensures nav.pending.Some? && nav.pending.value in dom.tabIndex ==>
              var t := nav.pending.value;
              && r.focused == Some(t)
              && r.tabIndex.Keys == dom.tabIndex.Keys
              && r.tabIndex[t] == (if nav.lastFocused == Some(t) then -1 else 0)
              && (forall c :: c in dom.tabIndex && nav.lastFocused == Some(c) ==> r.tabIndex[c] == -1)
              && (forall c :: c in dom.tabIndex && c != t && nav.lastFocused != Some(c) ==> r.tabIndex[c] == dom.tabIndex[c])
  {
    match nav.pending
    case None => dom
    case Some(t) =>
      if t !in dom.tabIndex then dom
      else
        var promoted := dom.tabIndex[t := 0];
        var demoted :=
          match nav.lastFocused
          case Some(l) => if l in promoted then promoted[l := -1] else promoted
          case None => promoted;
        Dom(demoted, Some(t))
  }

  /** The effects after a state change, in declaration order, on the DOM as
      rendered when they run: the current-element effect, then the deferred
      effect if its dependencies changed. */
  function Settle(before: Nav, after: Nav, dom: Dom): (r: Dom)
    ensures r.tabIndex.Keys == dom.tabIndex.Keys
    ensures before == after ==> r == dom
    ensures !DeferredRuns(before, after) ==> r.focused == dom.focused
    ensures DeferredRuns(before, after) && after.pending.Some? && after.pending.value in dom.tabIndex ==>
              r.focused == after.pending
    ensures forall c :: (c in dom.tabIndex && after.current != Some(c) && after.pending != Some(c)
                         && after.lastFocused != Some(c)) ==> r.tabIndex[c] == dom.tabIndex[c]
  {
    var d := CurrentEffect(before, after, dom);
    if DeferredRuns(before, after) then DeferredApply(after, d) else d
  }

  /** The click handler of `propHandler`: the clicked cell gets tab index 0
      and becomes last focused; no other cell is demoted. */
  function Click(nav: Nav, dom: Dom, cell: Instant): (r: (Nav, Dom))
    ensures r.0.lastFocused == Some(cell)
    ensures r.0.current == nav.current && r.0.pending == nav.pending
    ensures r.1.focused == dom.focused
    ensures r.1.tabIndex.Keys == dom.tabIndex.Keys + {cell} && r.1.tabIndex[cell] == 0
    ensures forall c :: c in dom.tabIndex && c != cell ==> r.1.tabIndex[c] == dom.tabIndex[c]
  {
    (nav.(lastFocused := Some(cell)), dom.(tabIndex := dom.tabIndex[cell := 0]))
  }

  // ---------------------------------------------------------------------
  // Properties

  /** Applying the timer callback twice is the same as applying it once. */
  lemma DeferredIdempotent(nav: Nav, dom: Dom)
    ensures DeferredApply(nav, DeferredApply(nav, dom)) == DeferredApply(nav, dom)
  {
    var once := DeferredApply(nav, dom);
    var twice := DeferredApply(nav, once);
    if nav.pending.Some? && nav.pending.value in dom.tabIndex {
      assert twice.tabIndex == once.tabIndex;
    }
  }

  /** The months before and after `ym` differ from it in month index. */
  lemma NeighboursDiffer(ym: YearMonth)
    ensures Shift(ym, -1).month != ym.month && Shift(ym, 1).month != ym.month
  {
    NextMonthRollsOver(ym);
    PrevMonthRollsBack(ym);
  }

  /** The month holding day `n + k`, for a day `n` of month `ym` and a step
      of at most a week: `ym` itself, or the neighbour on the side moved to. */
  function NeighbourOf(n: int, k: int, ym: YearMonth): YearMonth {
    if InMonth(n + k, ym) then ym else if k < 0 then Shift(ym, -1) else Shift(ym, 1)
  }

  /** A day within a week of a day of month `ym` lies in `ym` or in the
      month on the side it moved to, as each month has at least 28 days. */
  lemma NeighbourInterval(n: int, k: int, ym: YearMonth)
    requires InMonth(n, ym) && -7 <= k <= 7
    ensures InMonth(n + k, NeighbourOf(n, k, ym))
  {
    ShiftInverse(ym, -1);
    FirstOfNextMonth(Shift(ym, -1));
    FirstOfNextMonth(ym);
  }

  /** The calendar month of day `m`, within a week of day `n` of month
      `ym`, is `s`, the neighbour month chosen by `NeighbourOf`. */
  lemma NeighbourMonth(n: int, m: int, ym: YearMonth, s: YearMonth)
    requires InMonth(n, ym) && n - 7 <= m <= n + 7
    requires s == NeighbourOf(n, m - n, ym)
    ensures YearMonthOf(m) == s
  {
    NeighbourInterval(n, m - n, ym);
    MonthOfDayIn(m, s);
  }

  /** The month a key press leaves on display. */
  function AfterRequest(ym: YearMonth, request: MonthRequest): YearMonth {
    match request
    case Stay => ym
    case ToPrevMonth => Shift(ym, -1)
    case ToNextMonth => Shift(ym, 1)
  }

  /** An arrow press on a day of the month on display requests exactly the
      month change that puts the target's month on display. */
  lemma RequestFollowsTarget(nav: Nav, d: Instant, key: Key, ym: YearMonth, s: YearMonth, t: Instant)
    requires key != OtherKey && YearMonthOf(d.day) == ym
    requires t == AddDays(d, Offset(key)) && s == NeighbourOf(d.day, Offset(key), ym)
    ensures AfterRequest(ym, KeyDown(nav, Some(d), true, key).value.request) == s
    ensures YearMonthOf(t.day) == s
  {
    DayInMonthOf(d.day);
    NeighbourMonth(d.day, t.day, ym, s);
    NeighboursDiffer(ym);
  }

  /** The target of an arrow press on a day of the month on display lies
      in the month shown after the month change the press requests. */
  lemma TargetMonthShown(nav: Nav, d: Instant, key: Key, ym: YearMonth)
    requires key != OtherKey && YearMonthOf(d.day) == ym
    ensures var r := KeyDown(nav, Some(d), true, key);
            && r.value.nav.pending == Some(AddDays(d, Offset(key)))
            && YearMonthOf(r.value.nav.pending.value.day) == AfterRequest(ym, r.value.request)
  {
    var s := NeighbourOf(d.day, Offset(key), ym);
    var t := AddDays(d, Offset(key));
    RequestFollowsTarget(nav, d, key, ym, s, t);
  }

  /** Every midnight of month `s` is a cell of the grid of `s`, at the
      position its distance from the grid's first Sunday gives. */
  lemma TargetCell(t: Instant, s: YearMonth)
    requires t.time == 0 && YearMonthOf(t.day) == s
    ensures var p := t.day - SixWeeks.GridStart(s);
            && 0 <= p < 42
            && SixWeeks.Grid(s)[p / 7][p % 7] == t
  {
    DayInMonthOf(t.day);
    var dd := t.day - FirstOfMonth(s) + 1;
    SixWeeks.MonthDaysAppearOnce(s, dd);
  }

  /** For an arrow press on a cell of the month on display, the target is a
      cell of the grid shown after the month change the press requests: the
      deferred step then finds it. */
  lemma TargetInShownGrid(nav: Nav, d: Instant, key: Key, ym: YearMonth, press: Press)
    requires key != OtherKey && d.time == 0 && YearMonthOf(d.day) == ym
    requires KeyDown(nav, Some(d), true, key) == Success(press)
    ensures press.nav.pending.Some?
    ensures var shown := AfterRequest(ym, press.request);
            var t := press.nav.pending.value;
            var p := t.day - SixWeeks.GridStart(shown);
            && 0 <= p < 42
            && SixWeeks.Grid(shown)[p / 7][p % 7] == t
  {
    TargetMonthShown(nav, d, key, ym);
    TargetCell(press.nav.pending.value, AfterRequest(ym, press.request));
  }

  /** The lemmas above start from a cell of the month on display. A cell of
      a neighbouring month is focusable too, since a click gives it tab index
      0, and from there the target can miss the grid: with January 2024 on
      display, arrow-right on its first cell, Sunday 2023-12-31, compares
      month 11 with month 0 and asks for the next month; February 2024 is
      then shown, its grid opens on 2024-01-28, and the target 2024-01-01 is
      none of its cells, so the deferred step finds nothing to focus. */
  lemma OutsideCellTargetMissing(nav: Nav)
    ensures var jan := YearMonth(2024, 0);
            var d := SixWeeks.Grid(jan)[0][0];
            var press := KeyDown(nav, Some(d), true, ArrowRight).value;
            && d == Midnight(DayNumber(Date(2023, 11, 31)))
            && YearMonthOf(d.day) != jan
            && press.request == ToNextMonth
            && AfterRequest(jan, press.request) == YearMonth(2024, 1)
            && press.nav.pending == Some(Midnight(DayNumber(Date(2024, 0, 1))))
            && forall r, c :: 0 <= r < 6 && 0 <= c < 7 ==>
                 SixWeeks.Grid(YearMonth(2024, 1))[r][c] != press.nav.pending.value
  {
    var jan := YearMonth(2024, 0);
    var feb := YearMonth(2024, 1);
    SixWeeks.January2024();
    assert FirstOfMonth(YearMonth(2023, 11)) == 19692;
    MonthOfDayIn(19722, YearMonth(2023, 11));
    MonthOfDayIn(19723, jan);
    NextMonthRollsOver(jan);
    assert FirstOfMonth(feb) == 19754;
    assert Weekday(19754) == 4;
  }

  /** A click on a cell other than the initial tab stop leaves two cells with
      tab index 0: nothing keeps a single tab stop. */
  lemma ClickLeavesTwoTabStops(nav: Nav, dom: Dom, first: Instant, cell: Instant)
    requires first in dom.tabIndex && dom.tabIndex[first] == 0 && cell != first
    ensures var r := Click(nav, dom, cell);
            r.1.tabIndex[first] == 0 && r.1.tabIndex[cell] == 0
  {
  }

  /** Arrow-down on a cell, then a click on the same cell: the click changes
      the last-focused cell, so the deferred effect runs again with the old
      pending date; the focus goes back to the cell below and the clicked
      cell ends with tab index -1. */
  lemma ClickAfterDownRefocusesTarget(dom: Dom, d: Instant)
    requires d in dom.tabIndex && AddDays(d, 7) in dom.tabIndex
    ensures var press := KeyDown(Unset, Some(d), true, ArrowDown).value;
            var dom1 := Settle(Unset, press.nav, dom);
            var clicked := Click(press.nav, dom1, d);
            var dom2 := Settle(press.nav, clicked.0, clicked.1);
            && dom2.focused == Some(AddDays(d, 7))
            && dom2.tabIndex[AddDays(d, 7)] == 0
            && dom2.tabIndex[d] == -1
  {
    var press := KeyDown(Unset, Some(d), true, ArrowDown).value;
    assert press.nav == Nav(Some(d), Some(AddDays(d, 7)), None);
  }

  /** Arrow-right on a cell, once settled on the same DOM: the pressed cell is
      demoted and the cell to its right holds the focus and tab index 0. */
  lemma RightMovesTabStop(dom: Dom, d: Instant)
    requires d in dom.tabIndex && AddDays(d, 1) in dom.tabIndex
    ensures var press := KeyDown(Unset, Some(d), true, ArrowRight).value;
            var dom1 := Settle(Unset, press.nav, dom);
            && dom1.focused == Some(AddDays(d, 1))
            && dom1.tabIndex[AddDays(d, 1)] == 0
            && dom1.tabIndex[d] == -1
            && (forall c :: c in dom.tabIndex && c != d && c != AddDays(d, 1) ==> dom1.tabIndex[c] == dom.tabIndex[c])
  {
    var press := KeyDown(Unset, Some(d), true, ArrowRight).value;
    assert press.nav == Nav(Some(d), Some(AddDays(d, 1)), Some(d));
  }
}
