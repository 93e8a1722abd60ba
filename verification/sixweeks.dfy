/** The six-week month matrix a date picker or month view displays:
    6 rows of 7 midnights, Sunday first, covering the whole month and
    padded with the neighbouring months' days. */
module SixWeeks {
  import opened Civil

  /** Day number of the Sunday that opens the grid of month `ym`. */
  function GridStart(ym: YearMonth): int {
    FirstOfMonth(ym) - Weekday(FirstOfMonth(ym))
  }

  /** The cell in row `r`, column `c` of the grid of month `ym`. */
  function Cell(ym: YearMonth, r: int, c: int): Instant {
    Midnight(GridStart(ym) + 7 * r + c)
  }

  /** Reference grid of month `ym`, written in closed form. */
  function Grid(ym: YearMonth): (weeks: seq<seq<Instant>>)
    ensures |weeks| == 6
    ensures forall r :: 0 <= r < 6 ==> |weeks[r]| == 7
    ensures forall r, c :: 0 <= r < 6 && 0 <= c < 7 ==> weeks[r][c] == Cell(ym, r, c)
  {
    seq(6, r requires 0 <= r < 6 => seq(7, c requires 0 <= c < 7 => Cell(ym, r, c)))
  }

  /** `getSixWeeksByMonth(date)`: a counter starts at minus the weekday of the
      1st of the date's month and is incremented before each of the 42 cells;
      each cell is `new Date(year, month, counter)`, which the calendar
      normalises into the neighbouring months when the counter is out of range. */
  method GetSixWeeksByMonth(date: Instant) returns (weeks: seq<seq<Instant>>)
    ensures |weeks| == 6 && forall r :: 0 <= r < 6 ==> |weeks[r]| == 7
    ensures forall r, c :: 0 <= r < 6 && 0 <= c < 7 ==>
              weeks[r][c] == Midnight(FirstOfMonth(YearMonthOf(date.day)) + 7 * r + c
                                      - Weekday(FirstOfMonth(YearMonthOf(date.day))))
    ensures weeks == Grid(YearMonthOf(date.day))
  {
    var ym := YearMonthOf(date.day);
    var firstDayOfMonth := Weekday(DayOf(ym, 1));
    var count := 0 - firstDayOfMonth;
    weeks := [];
    var r := 0;
    while r < 6
      invariant 0 <= r <= 6 && |weeks| == r
      invariant count == 7 * r - firstDayOfMonth
      invariant forall i :: 0 <= i < r ==> weeks[i] == Grid(ym)[i]
    {
      var week := [];
      var c := 0;
      while c < 7
        invariant 0 <= c <= 7 && |week| == c
        invariant count == 7 * r + c - firstDayOfMonth
        invariant forall j :: 0 <= j < c ==> week[j] == Cell(ym, r, j)
      {
        count := count + 1;
        week := week + [Midnight(DayOf(ym, count))];
        c := c + 1;
      }
      weeks := weeks + [week];
      r := r + 1;
    }
  }

  /** Column `c` of every row falls on weekday `c` (Sunday = 0). */
  lemma ColumnIsWeekday(ym: YearMonth, r: int, c: int)
    requires 0 <= r < 6 && 0 <= c < 7
    ensures Weekday(Grid(ym)[r][c].day) == c
  {
    var f := FirstOfMonth(ym);
    var n := Grid(ym)[r][c].day;
    assert n + 4 == 7 * ((f + 4) / 7 + r) + c;
    DivUnique(n + 4, 7, (f + 4) / 7 + r, c);
  }

  /** Read row-major, the cells are consecutive days starting from a Sunday. */
  lemma CellsConsecutive(ym: YearMonth, r: int, c: int)
    requires 0 <= r < 6 && 0 <= c < 7
    ensures Grid(ym)[r][c].day == Grid(ym)[0][0].day + 7 * r + c
    ensures Grid(ym)[r][c].time == 0
    ensures Weekday(Grid(ym)[0][0].day) == 0
  {
    ColumnIsWeekday(ym, 0, 0);
  }

  /** The 1st of the month sits in row 0, in the column of its weekday. */
  lemma FirstInRowZero(ym: YearMonth)
    ensures Grid(ym)[0][Weekday(FirstOfMonth(ym))] == Midnight(FirstOfMonth(ym))
  {
  }

  /** Position (row-major, 0..41) of day `d` of the month in the grid. */
  function PositionOf(ym: YearMonth, d: int): int {
    Weekday(FirstOfMonth(ym)) + d - 1
  }

  /** Every day of the month appears in the grid, at exactly one position. */
  lemma MonthDaysAppearOnce(ym: YearMonth, d: int)
    requires 1 <= d <= MonthLength(ym)
    ensures var p := PositionOf(ym, d);
            0 <= p < 42 && Grid(ym)[p / 7][p % 7] == Midnight(DayOf(ym, d))
    ensures forall r, c :: 0 <= r < 6 && 0 <= c < 7 && Grid(ym)[r][c] == Midnight(DayOf(ym, d))
              ==> 7 * r + c == PositionOf(ym, d)
  {
    var p := PositionOf(ym, d);
    assert p == 7 * (p / 7) + p % 7;
  }

  /** The month of each cell: the cells before the 1st belong to the previous
      month, the cells from the 1st through the last day to the month itself,
      and the rest to the next month. */
  lemma CellMonth(ym: YearMonth, r: int, c: int)
    requires 0 <= r < 6 && 0 <= c < 7
    ensures var p := 7 * r + c;
            var w := Weekday(FirstOfMonth(ym));
            YearMonthOf(Grid(ym)[r][c].day)
              == if p < w then Shift(ym, -1)
                 else if p < w + MonthLength(ym) then ym
                 else Shift(ym, 1)
  {
    var p := 7 * r + c;
    var w := Weekday(FirstOfMonth(ym));
    var n := Grid(ym)[r][c].day;
    assert n == FirstOfMonth(ym) + p - w;
    var prev := Shift(ym, -1);
    var next := Shift(ym, 1);
    ShiftInverse(ym, -1);
    FirstOfNextMonth(prev);
    FirstOfNextMonth(ym);
    assert MonthLength(prev) >= 28 && MonthLength(next) >= 28;
    if p < w {
      YearMonthOfIff(n, prev);
    } else if p < w + MonthLength(ym) {
      YearMonthOfIff(n, ym);
    } else {
      YearMonthOfIff(n, next);
    }
  }

  /** The grid of January 2024 runs from Sunday 2023-12-31 to Saturday 2024-02-10. */
  lemma January2024()
    ensures Grid(YearMonth(2024, 0))[0][0] == Midnight(DayNumber(Date(2023, 11, 31)))
    ensures Grid(YearMonth(2024, 0))[5][6] == Midnight(DayNumber(Date(2024, 1, 10)))
    ensures forall r, c :: 0 <= r < 6 && 0 <= c < 7 ==>
              Grid(YearMonth(2024, 0))[r][c].day == DayNumber(Date(2023, 11, 31)) + 7 * r + c
  {
    assert FirstOfMonth(YearMonth(2024, 0)) == 19723;
    assert Weekday(19723) == 1;
    assert DayNumber(Date(2023, 11, 31)) == 19722;
    assert DayNumber(Date(2024, 1, 10)) == 19763;
  }
}
