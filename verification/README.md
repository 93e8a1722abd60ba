# react-calendar date core, in Dafny

This project models the date logic of the `react-calendar` component library
(curatedcode/react-calendar) and proves properties of it. It covers:

- **`getSixWeeksByMonth`**, the six-week month matrix (6 rows of 7 midnights,
  Sunday first) that the date picker and the month view display.
- **`groupEvents`**, which sorts the events by day and buckets them into one
  group per displayed unit. There is one group per day, except in the year
  view, which has one group per month. The model keeps a detail of the code:
  `allDay` and `standard` are two arrays holding the *same* group objects.
- **The date picker's month state**: the selected day, the month on display,
  its grid, the previous/next-month handlers, and the effects that resync
  the picker and rebuild the grid.
- **`getDayCellProps`**: the flags of one day cell and its click handler.
- **`useDatePickerNav`**: the arrow-key handler, the effect that demotes the
  current cell, the deferred (timer) effect that focuses the target cell,
  and the click handler.
- **The calendar root**: `getTimeline`, the next/previous period and reset
  handlers, the regrouping effect, and the initial state with its
  `defaultView` effect.

Dates are local calendar days counted from 1970-01-01 (day 0, a Thursday),
paired with a time of day in milliseconds (`Civil.Instant`). The calendar is
the proleptic Gregorian one, with JavaScript's 0-based months. The system
clock becomes a parameter: `now`, `today` and `pickerNow`.

Files:

- `options.dfy`: `Option` and `Result`.
- `civil.dfy`: day numbers, months, weekdays, and the `dayjs` operations used.
- `sixweeks.dfy`: the month matrix.
- `events.dfy`: events, filtering and the stable day sort.
- `grouping.dfy`: `groupEvents`.
- `datepicker.dfy`: the picker's month state.
- `navigator.dfy`: keyboard navigation.
- `cellprops.dfy`: the cell props.
- `calendar.dfy`: the calendar root.

Things the code does that the model keeps as written:

- **`allDay` and `standard` share their groups.** An all-day event is pushed
  through the `allDay` reference and a timed one through `standard`, but both
  land in the same group object. So the two lists are equal and each holds
  all the matching events. The expectation in
  `src/tests/groupEvents.spec.ts` (an empty all-day list beside two timed
  events) therefore does not hold, as `EventGroups.DayViewScenario` shows.
- **The view labels do not match the switches.** The switches in
  `groupEvents` and `getTimeline` test the lowercase labels ("day",
  "5-days", …). The declared view type and `calendarViewOptions` list "Day",
  "5 days", …. With a declared label there are no groups, and the period
  buttons produce invalid dates.
- **The pending focus target is never cleared.** A click changes the
  last-focused cell, which re-runs the deferred effect with the old target
  (`Navigator.ClickAfterDownRefocusesTarget`).
- **An arrow press on a cell of a neighbouring month can lose the focus.**
  The month request compares the target with the pressed cell, not with the
  month on display. From a cell of the previous month, the request moves the
  display one month too far, so the deferred effect finds no cell for the
  target (`Navigator.OutsideCellTargetMissing`).
- **A click adds a tab stop and never removes one**
  (`Navigator.ClickLeavesTwoTabStops`).
- **The calendar reset moves only the selected date.** The date picker stays
  where the period buttons moved it (`Calendar.ResetLeavesPicker`).
- **Month steps are not invertible.** In the month view, next then previous
  from 31 January 2024 ends on 29 January (`Calendar.MonthStepsDoNotInvert`).

## Model

| member | source | states |
|---|---|---|
| SixWeeks.GetSixWeeksByMonth | src/components/fn/getSixWeeksByMonth.ts:9-25 | six rows of seven midnights; the cell in row r, column c is the day 7r + c − w after the 1st of the date's month, where w is the weekday of the 1st; the result is the reference grid of that month |
| SixWeeks.ColumnIsWeekday | src/tests/getSixWeeksByMonth.spec.ts:67-79 | every week starts on a Sunday and ends on a Saturday: column c falls on weekday c |
| SixWeeks.CellsConsecutive | src/components/fn/getSixWeeksByMonth.ts:15-22 | read row by row, the cells are consecutive midnights starting from a Sunday |
| SixWeeks.FirstInRowZero | src/components/fn/getSixWeeksByMonth.ts:13-15 | the 1st of the month sits in row 0, in the column of its weekday |
| SixWeeks.MonthDaysAppearOnce | src/components/fn/getSixWeeksByMonth.ts:17-22 | every day of the month appears in the grid, and at exactly one position |
| SixWeeks.CellMonth | src/components/fn/getSixWeeksByMonth.ts:17-22 | cells before the 1st belong to the previous month, then come the days of the month, and the rest belong to the next month (the `Date` constructor's normalisation) |
| SixWeeks.January2024 | src/tests/getSixWeeksByMonth.spec.ts:6-65 | the grid of January 2024 runs from Sunday 2023-12-31 to Saturday 2024-02-10, one day per cell |
| Civil.AddMonths | src/components/DatePicker/DatePicker.tsx:35-41 | adding k months moves the year and month by k and keeps the day of the month, clamped to the length of the target month; the time of day is kept |
| Events.SortByDay | src/components/fn/groupEvents.ts:61-71 | the sorted events are in ascending day order and are a permutation of the input; the events of any one day keep their input order (the comparator says 0 for the same day, and the sort is stable) |
| Events.InsertOnDay | src/components/fn/groupEvents.ts:61-71 | inserting an event into a day-sorted list puts it first among the events of its own day and changes no other day's list |
| EventGroups.ParseView | src/components/fn/groupEvents.ts:40-59 | the six lowercase case labels of the view switches (also those of `getTimeline` at src/components/Calendar/Calendar.tsx:53-78); any other string matches no case |
| EventGroups.ViewOptionsUnrecognised | src/components/types.ts:29-36 | no declared view label is a case label of the switches |
| EventGroups.FlattenRows | src/components/fn/groupEvents.ts:36-38 | the flattened matrix has 7 cells per row, and index i is row i / 7, column i % 7 |
| EventGroups.GroupDate | src/components/fn/groupEvents.ts:84-104 | the date of group i, read from the flattened matrix in the month view, is the anchor of the reference definition |
| EventGroups.NewGroups | src/components/fn/groupEvents.ts:78-108 | one empty group per anchor, with `allDay` and `standard` referencing the very same group objects in the same order |
| EventGroups.FillGroup | src/components/fn/groupEvents.ts:114-134 | the inner loop pushes all-day events through one reference and timed events through the other; the shared group ends up holding every sorted event that matches its anchor, in sorted order, and the other groups are unchanged |
| EventGroups.FillGroups | src/components/fn/groupEvents.ts:110-135 | every group holds exactly the sorted events that match its anchor |
| EventGroups.GroupEvents | src/components/fn/groupEvents.ts:30-138 | `allDay` equals `standard`; the number of groups is that of the view; group i is dated at the i-th anchor and holds the sorted events that match it; the result is the reference grouping |
| EventGroups.GroupCountByView | src/components/fn/groupEvents.ts:35-59 | 1, 7, 5, 42, 12 and 4 groups for day, week, 5-days, month, year and schedule, and none for any other label, whatever the events |
| EventGroups.AnchorsByView | src/components/fn/groupEvents.ts:84-104 | the anchors: the selected instant (day); the Sunday midnight of its week plus i days, on weekday i (week); grid cell i (month); the 1st of the month i months on (year); the selected instant plus i days (5-days, schedule and others) |
| EventGroups.AnchorsDistinct | src/components/fn/groupEvents.ts:120-124 | no two groups share an anchor day (anchor month in the year view) |
| EventGroups.GroupMembers | src/components/fn/groupEvents.ts:110-135 | an event is in group i if and only if it is an input event whose effective date is on the anchor's day (month in the year view); all-day and timed events alike |
| EventGroups.EventInAtMostOneGroup | src/components/fn/groupEvents.ts:110-135 | no event lands in two groups |
| EventGroups.DayGroupInInputOrder | src/components/fn/groupEvents.ts:61-71 | outside the year view, a group holds exactly the input events of its day, in input order |
| EventGroups.YearGroupOrder | src/components/fn/groupEvents.ts:61-71 | in the year view a group is in day order; each day of the anchor month keeps its input order, and days of other months are absent |
| EventGroups.DayViewGroups | src/components/fn/groupEvents.ts:40-86 | in the day view there is one group, dated at the selected instant, holding the input events of that day in input order, and `allDay` is the same list |
| EventGroups.FixtureFromOnSeventeenth | src/tests/groupEvents.spec.ts:19-75 | of the test's eleven events, only the team meeting and the lunch fall on the 17th, in that order |
| EventGroups.DayViewScenario | src/tests/groupEvents.spec.ts:15-108 | on the test's full eleven-event input, with the clock at 2024-01-17 00:00, the day view gives one group at that instant holding the team meeting and the lunch in input order, and the all-day list holds the same group |
| DatePicker.Mount | src/components/DatePicker/DatePicker.tsx:26-28 | the selected day and the month on display both start at the calendar's picker date, and the grid is that month's |
| DatePicker.SyncFrom | src/components/DatePicker/DatePicker.tsx:30-33 | a new picker date resets both the selected day and the month on display to it |
| DatePicker.PrevMonth | src/components/DatePicker/DatePicker.tsx:35-37 | the month on display moves back one calendar month; the selected day is unchanged |
| DatePicker.NextMonth | src/components/DatePicker/DatePicker.tsx:39-41 | the month on display moves forward one calendar month; the selected day is unchanged |
| DatePicker.SelectDay | src/components/DatePicker/DatePicker.tsx:26 | `setSelectedDay` moves the selected day and leaves the month on display and the grid |
| DatePicker.WeeksEffect | src/components/DatePicker/DatePicker.tsx:43-45 | the grid is rebuilt to match the month on display |
| DatePicker.Dispatch | src/components/DatePicker/DatePicker.tsx:26-45 | after any handler and its effects, the grid matches the month on display, and each handler has its own effect on the day and the month |
| DatePicker.NextMonthRollover | src/components/DatePicker/DatePicker.tsx:39-41 | next month from December is January of the next year, and otherwise the following month |
| DatePicker.PrevMonthRollback | src/components/DatePicker/DatePicker.tsx:35-37 | previous month from January is December of the year before, and otherwise the preceding month |
| DatePicker.NextPrevRestoresGrid | src/components/DatePicker/DatePicker.tsx:35-45 | next then previous (or previous then next) brings back the month on display and its grid |
| Navigator.KeyDown | src/components/DatePicker/useDatePickerNav.tsx:72-141 | nothing happens without a date attribute; a missing container throws; arrows set the pressed cell as current and the cell ±1 or ±7 days away as the target; left and right also record the pressed cell as last focused; the month handler is called exactly when the target's month index differs, backwards for left and up and forwards for right and down; other keys change nothing |
| Navigator.CurrentEffect | src/components/DatePicker/useDatePickerNav.tsx:24-27 | when the current cell changes, that cell gets tab index −1, and nothing else changes |
| Navigator.DeferredApply | src/components/DatePicker/useDatePickerNav.tsx:29-48 | without a pending date or a rendered cell for it, nothing happens; otherwise that cell gets tab index 0 and the focus, then the last-focused cell gets −1, and other cells are untouched |
| Navigator.Click | src/components/DatePicker/useDatePickerNav.tsx:147-150 | the clicked cell gets tab index 0 and becomes the last-focused cell; no other cell and no other state changes |
| Navigator.DeferredRuns | src/components/DatePicker/useDatePickerNav.tsx:29-48 | the deferred effect is scheduled again exactly when a dependency changed: the pending date or the last-focused cell (the container ref never changes) |
| Navigator.Settle | src/components/DatePicker/useDatePickerNav.tsx:24-48 | after a state change the effects run in declaration order: the set of rendered cells stays; with no change nothing happens; if the deferred effect does not re-run the focus stays; if it does and the pending cell is rendered, that cell has the focus; cells other than the current, pending and last-focused ones keep their tab index |
| Navigator.DeferredIdempotent | src/components/DatePicker/useDatePickerNav.tsx:30-45 | running the timer callback twice has the same effect as running it once |
| Navigator.RequestFollowsTarget | src/components/DatePicker/useDatePickerNav.tsx:84-140 | on a day of the month on display, an arrow requests exactly the month change that puts the target's month on display |
| Navigator.TargetMonthShown | src/components/DatePicker/useDatePickerNav.tsx:84-140 | for a pressed cell of the month on display, the target of the arrow press lies in the month that is on display after the press |
| Navigator.TargetInShownGrid | src/components/DatePicker/useDatePickerNav.tsx:84-140 | for a pressed midnight cell of the month on display, the target of the arrow press is a cell of the grid on display after the press, so the deferred effect can find it |
| Navigator.OutsideCellTargetMissing | src/components/DatePicker/useDatePickerNav.tsx:99-112 | with January 2024 on display, arrow-right on its first cell (2023-12-31, a cell of December) requests the next month, and the target 2024-01-01 is no cell of February's grid |
| Navigator.ClickLeavesTwoTabStops | src/components/DatePicker/useDatePickerNav.tsx:147-150 | a click on a cell other than the initial tab stop leaves two cells with tab index 0 |
| Navigator.ClickAfterDownRefocusesTarget | src/components/DatePicker/useDatePickerNav.tsx:29-48 | arrow-down on a cell, then a click on that cell: the deferred effect runs again and moves the focus back to the cell below, and the clicked cell ends with tab index −1 |
| Navigator.RightMovesTabStop | src/components/DatePicker/useDatePickerNav.tsx:99-112 | after arrow-right settles, the pressed cell has tab index −1, the cell to its right has 0 and the focus, and every other cell is unchanged |
| CellProps.GetDayCellProps | src/components/DatePicker/getDayCellProps.ts:28-65 | outside the month exactly when the month index differs from the displayed month's; aria-disabled mirrors it; hidden exactly when outside and the flag is set; the label is the day of the month; selected and today are exact instant equality; tab index 0 exactly for the cell in week 0 that is the 1st, and −1 otherwise |
| CellProps.CellClick | src/components/DatePicker/getDayCellProps.ts:66-69 | the navigator's click runs; the selected day moves to the cell only when the cell is outside the month; the month on display and the grid stay |
| CellProps.HiddenDefaultsToFalse | src/components/DatePicker/getDayCellProps.ts:31 | without the flag, no cell is hidden |
| CellProps.OutsideMonthOnGrid | src/components/DatePicker/getDayCellProps.ts:43 | on the grid on display, comparing month indices agrees with comparing year and month |
| CellProps.OneFirstDateCell | src/components/DatePicker/getDayCellProps.ts:46 | on the grid on display, exactly one cell has tab index 0: the 1st of the month, in row 0 |
| CellProps.TodayOnlyAtMidnight | src/components/DatePicker/getDayCellProps.ts:45 | a grid cell is flagged as today only when the clock reads exactly midnight |
| CellProps.ClickSelectsOutsideOnly | src/components/DatePicker/getDayCellProps.ts:66-69 | a click inside the month leaves the picker unchanged; a click outside selects the cell; the clicked cell becomes last focused either way |
| Calendar.GetTimeline | src/components/Calendar/Calendar.tsx:49-81 | a period is defined exactly for the listed view labels, and it is positive |
| Calendar.Move | src/components/Calendar/Calendar.tsx:86-104 | `add` and `subtract` move by whole days, or by calendar months with the day of the month clamped; the time of day is kept |
| Calendar.Mount | src/components/Calendar/Calendar.tsx:32-47 | the selected and picker dates come from the clock; the view is the `defaultView` prop or "5-days"; the groups are those of that state |
| Calendar.NextPeriod | src/components/Calendar/Calendar.tsx:83-93 | both dates move forward one period of the view, and nothing else changes; an unlisted label gives no defined date |
| Calendar.PreviousPeriod | src/components/Calendar/Calendar.tsx:95-105 | both dates move back one period of the view, and nothing else changes; an unlisted label gives no defined date |
| Calendar.DateReset | src/components/Calendar/Calendar.tsx:107-109 | only the selected date returns to the clock's reading; the picker date, view and events stay |
| Calendar.SetView | src/components/Calendar/Calendar.tsx:117-119 | the view changes and the dates and events stay |
| Calendar.SetEvents | src/components/Calendar/Calendar.tsx:111-115 | a new `events` prop, one of the regrouping effect's dependencies, replaces the events and leaves the dates and the view |
| Calendar.RegroupEffect | src/components/Calendar/Calendar.tsx:111-115 | the groups are recomputed from the selected date, view and events |
| Calendar.Dispatch | src/components/Calendar/Calendar.tsx:83-119 | after any handler and the regrouping effect, the dates, view and events are exactly those the handler leaves (both dates moved one period, the selected date reset, the view or the events replaced) and the groups match them; only the period buttons with an unlisted label leave no defined state |
| Calendar.PeriodByView | src/components/Calendar/Calendar.tsx:49-81 | one day, seven days, five days, one month, one day in the year view and four days in the schedule; nothing for any other label |
| Calendar.DayStepsInvert | src/components/Calendar/Calendar.tsx:83-105 | in the views that step by days, previous undoes next and the reverse, on both dates |
| Calendar.MonthStepsRestoreMonth | src/components/Calendar/Calendar.tsx:83-105 | in the month view, previous after next brings back the selected month |
| Calendar.MonthStepsDoNotInvert | src/components/Calendar/Calendar.tsx:83-105 | in the month view, next from 2024-01-31 gives 2024-02-29, and previous from there gives 2024-01-29 |
| Calendar.ResetLeavesPicker | src/components/Calendar/Calendar.tsx:107-109 | in the day view, next then reset gives a selected date of today, with the picker still one day ahead of where it was |
| Calendar.DeclaredLabelsStall | src/components/Calendar/Calendar.tsx:49-81 | with any declared view label, both period buttons give no defined date and there are no groups |

## Left out

- Time zones, daylight saving and ISO-string formatting. Days are local calendar days, and an ISO string comparison is equality of instants.
- SixWeeks.GetSixWeeksByMonth: does not model two limits of JavaScript's `Date` (src/components/fn/getSixWeeksByMonth.ts:13, 20). `new Date(y, m, n)` reads years 0 to 99 as 1900 to 1999, so the source builds the grid of 1950 for a date in year 50 while the model builds that of year 50. Beyond ±8.64e15 ms from the epoch the `Date` is invalid and `toISOString` throws, while `Civil` day numbers are unbounded. `Civil.DayOf` shares both limits.
- The `dayjs` library is not part of this model. Its month arithmetic is modelled by `Civil.AddMonths`, which keeps the day of the month and clamps it to the length of the target month, and its `startOf("week")` by the preceding Sunday midnight.
- React rendering and reconciliation. Each hook's state is a record, each effect is an explicit step, and the DOM is reduced to the tab index of each rendered cell plus the focused cell.
- Each day cell calls `useDatePickerNav` and so owns its own navigator state. The model follows one such instance.
- Navigator.Settle: the timer of the deferred effect is applied in full on the DOM as rendered when it fires. Cancellation races between timers are not modelled.
- The window `keydown` listener that calls `preventDefault` on arrow keys is browser behaviour with no state.
- Events.SortByDay: models `Array.prototype.sort` as a stable sort returning a new sequence. The in-place mutation of the caller's array is not modelled.
- Calendar.NextPeriod and Calendar.PreviousPeriod: for a label the switch does not list, `dayjs` receives undefined arguments and yields an invalid date. That date then reaches `groupEvents` and `getSixWeeksByMonth`, whose `toISOString()` (src/components/fn/getSixWeeksByMonth.ts:20) throws on it, and the date picker's sync hits the same throw. The model returns `None` for that crash and does not describe the invalid date.
- The calendar's provider exposes `calendarView`, `setCalendarView`, `handleCalendarNextPeriod`, `handleCalendarPreviousPeriod` and `handleCalendarDateReset` (src/components/Calendar/Calendar.tsx:126-136), while the context type that the header and view read names `currentView`, `setCurrentView`, `handleNextPeriod`, `handlePreviousPeriod` and `handleDateReset` (src/components/Calendar/Context.tsx:9-19). The `Calendar` handlers model the provider's functions, not what the shipped header ends up calling.
- `console.log` calls, stories, the `aria-label` and `monthYearLabel` strings, class names and the other presentational props.
- Event titles and end dates are carried along but never inspected, as in the code.
