/** The proleptic Gregorian calendar over local day numbers.

    Every date the calendar code handles is a local calendar day plus a time
    of day. Day 0 is 1970-01-01 (a Thursday); months are numbered 0..11 as
    JavaScript's `Date` and the date library number them. Daylight saving
    time is not modelled: every local day has the same length. */
module Civil {

  /** Days from 0000-01-01 to 1970-01-01. */
  const EpochOffset: int := 719528
  const MsPerDay: int := 86400000

  /** A month number as `Date.prototype.getMonth` returns it: January is 0. */
  type Month = m: int | 0 <= m < 12

  /** Milliseconds since local midnight. */
  type TimeOfDay = t: int | 0 <= t < MsPerDay

  predicate IsLeapYear(y: int) {
    y % 4 == 0 && (y % 100 != 0 || y % 400 == 0)
  }

  function DaysInYear(y: int): int {
    if IsLeapYear(y) then 366 else 365
  }

  function DaysInMonth(y: int, m: Month): (n: int)
    ensures 28 <= n <= 31
  {
    if m == 1 then (if IsLeapYear(y) then 29 else 28)
    else if m == 3 || m == 5 || m == 8 || m == 10 then 30
    else 31
  }

  /** Days of year `y` that lie before month `m`; month 12 stands for the end of the year. */
  function DaysBeforeMonth(y: int, m: int): int
    requires 0 <= m <= 12
  {
    var common :=
      if m == 0 then 0 else if m == 1 then 31 else if m == 2 then 59
      else if m == 3 then 90 else if m == 4 then 120 else if m == 5 then 151
      else if m == 6 then 181 else if m == 7 then 212 else if m == 8 then 243
      else if m == 9 then 273 else if m == 10 then 304 else if m == 11 then 334
      else 365;
    common + (if m >= 2 && IsLeapYear(y) then 1 else 0)
  }

  lemma MonthTable(y: int, m: Month)
    ensures DaysBeforeMonth(y, m + 1) == DaysBeforeMonth(y, m) + DaysInMonth(y, m)
    ensures DaysBeforeMonth(y, 12) == DaysInYear(y)
  {
  }

  /** Multiples of `c` in [0, y) (minus those in [y, 0) when `y` is negative). */
  function Multiples(y: int, c: int): int
    requires c > 0
  {
    (y + c - 1) / c
  }

  /** Leap years in [0, y) (negative when y is negative). */
  function LeapYearsBefore(y: int): int {
    Multiples(y, 4) - Multiples(y, 100) + Multiples(y, 400)
  }

  /** Day number of January 1st of year `y`, counted from 0000-01-01. */
  function DaysBeforeYear(y: int): int {
    365 * y + LeapYearsBefore(y)
  }

  lemma YearStep(y: int)
    ensures DaysBeforeYear(y + 1) == DaysBeforeYear(y) + DaysInYear(y)
  {
    MultipleStep(y, 4);
    MultipleStep(y, 100);
    MultipleStep(y, 400);
    if y % 100 == 0 {
      DivUnique(y, 4, 25 * (y / 100), 0);
    }
    if y % 400 == 0 {
      DivUnique(y, 100, 4 * (y / 400), 0);
    }
  }

  /** One more year counts one more multiple of `c` exactly when the year
      is a multiple of `c`. */
  lemma MultipleStep(y: int, c: int)
    requires c > 0
    ensures Multiples(y + 1, c) == Multiples(y, c) + (if y % c == 0 then 1 else 0)
  {
    var q, r := y / c, y % c;
    DivUnique(y + c, c, q + 1, r);
    if r == 0 {
      DivUnique(y + c - 1, c, q, c - 1);
    } else {
      DivUnique(y + c - 1, c, q + 1, r - 1);
    }
  }

  lemma DivUnique(x: int, c: int, q: int, r: int)
    requires c > 0 && 0 <= r < c && x == c * q + r
    ensures x / c == q && x % c == r
  {
    var q', r' := x / c, x % c;
    assert c * q + r == c * q' + r';
    if q' < q {
      assert c * (q - q') == c * q - c * q';
      MulAtLeast(c, q - q');
    } else if q < q' {
      assert c * (q' - q) == c * q' - c * q;
      MulAtLeast(c, q' - q);
    }
  }

  lemma MulAtLeast(c: int, d: int)
    requires c > 0 && d >= 1
    ensures c * d >= c
  {
    assert c * d == c + c * (d - 1);
  }

  // ---------------------------------------------------------------------
  // Months as (year, month) pairs

  datatype YearMonth = YearMonth(year: int, month: Month)

  /** Months counted from January of year 0. */
  function Index(ym: YearMonth): int {
    12 * ym.year + ym.month
  }

  function FromIndex(k: int): (ym: YearMonth)
    ensures Index(ym) == k
  {
    YearMonth(k / 12, k % 12)
  }

  lemma IndexInjective(a: YearMonth, b: YearMonth)
    ensures Index(a) == Index(b) <==> a == b
  {
  }

  /** The month `k` months after `ym` (before it when `k` is negative). */
  function Shift(ym: YearMonth, k: int): (r: YearMonth)
    ensures Index(r) == Index(ym) + k
  {
    FromIndex(Index(ym) + k)
  }

  /** The month after `ym`: December rolls over to January of the next year. */
  lemma NextMonthRollsOver(ym: YearMonth)
    ensures Shift(ym, 1) == (if ym.month == 11 then YearMonth(ym.year + 1, 0)
                             else YearMonth(ym.year, ym.month + 1))
  {
    var r := Shift(ym, 1);
    var expected := if ym.month == 11 then YearMonth(ym.year + 1, 0) else YearMonth(ym.year, ym.month + 1);
    IndexInjective(r, expected);
  }

  /** The month before `ym`: January rolls back to December of the previous year. */
  lemma PrevMonthRollsBack(ym: YearMonth)
    ensures Shift(ym, -1) == (if ym.month == 0 then YearMonth(ym.year - 1, 11)
                              else YearMonth(ym.year, ym.month - 1))
  {
    var r := Shift(ym, -1);
    var expected := if ym.month == 0 then YearMonth(ym.year - 1, 11) else YearMonth(ym.year, ym.month - 1);
    IndexInjective(r, expected);
  }

  lemma ShiftInverse(ym: YearMonth, k: int)
    ensures Shift(Shift(ym, k), -k) == ym
  {
    IndexInjective(Shift(Shift(ym, k), -k), ym);
  }

  function MonthLength(ym: YearMonth): int {
    DaysInMonth(ym.year, ym.month)
  }

  /** Day number of the first day of the month. */
  function FirstOfMonth(ym: YearMonth): int {
    DaysBeforeYear(ym.year) + DaysBeforeMonth(ym.year, ym.month) - EpochOffset
  }

  /** The day number that `new Date(year, month, n)` denotes: day overflow,
      zero and negative days roll into the neighbouring months. */
  function DayOf(ym: YearMonth, n: int): int {
    FirstOfMonth(ym) + n - 1
  }

  /** Consecutive months are adjacent intervals of days. */
  lemma FirstOfNextMonth(ym: YearMonth)
    ensures FirstOfMonth(Shift(ym, 1)) == FirstOfMonth(ym) + MonthLength(ym)
  {
    NextMonthRollsOver(ym);
    MonthTable(ym.year, ym.month);
    if ym.month == 11 {
      YearStep(ym.year);
    }
  }

  /** Later months start after earlier ones end. */
  lemma {:induction false} MonthsOrdered(a: YearMonth, b: YearMonth)
    requires Index(a) < Index(b)
    ensures FirstOfMonth(a) + MonthLength(a) <= FirstOfMonth(b)
    decreases Index(b) - Index(a)
  {
    var c := Shift(b, -1);
    ShiftInverse(b, -1);
    FirstOfNextMonth(c);
    if Index(c) == Index(a) {
      IndexInjective(a, c);
    } else {
      MonthsOrdered(a, c);
    }
  }

  predicate InMonth(n: int, ym: YearMonth) {
    FirstOfMonth(ym) <= n < FirstOfMonth(ym) + MonthLength(ym)
  }

  /** A day lies in at most one month. */
  lemma InMonthUnique(n: int, a: YearMonth, b: YearMonth)
    requires InMonth(n, a) && InMonth(n, b)
    ensures a == b
  {
    IndexInjective(a, b);
    if Index(a) < Index(b) {
      MonthsOrdered(a, b);
    } else if Index(b) < Index(a) {
      MonthsOrdered(b, a);
    }
  }

  // ---------------------------------------------------------------------
  // Calendar dates

  datatype Date = Date(year: int, month: Month, day: int) {
    function Ym(): YearMonth {
      YearMonth(year, month)
    }
  }

  predicate Valid(d: Date) {
    1 <= d.day <= DaysInMonth(d.year, d.month)
  }

  function DayNumber(d: Date): int {
    DayOf(d.Ym(), d.day)
  }

  /** Walking forward month by month from `ym` reaches the month holding
      day `n`. */
  lemma {:induction false} MonthAtOrAfter(n: int, ym: YearMonth) returns (r: YearMonth)
    requires FirstOfMonth(ym) <= n
    ensures InMonth(n, r)
    decreases n - FirstOfMonth(ym)
  {
    if n < FirstOfMonth(ym) + MonthLength(ym) {
      r := ym;
    } else {
      FirstOfNextMonth(ym);
      r := MonthAtOrAfter(n, Shift(ym, 1));
    }
  }

  /** Walking back month by month from `ym` reaches the month holding day
      `n`. */
  lemma {:induction false} MonthBefore(n: int, ym: YearMonth) returns (r: YearMonth)
    requires n < FirstOfMonth(ym)
    ensures InMonth(n, r)
    decreases FirstOfMonth(ym) - n
  {
    var prev := Shift(ym, -1);
    ShiftInverse(ym, -1);
    FirstOfNextMonth(prev);
    if FirstOfMonth(prev) <= n {
      r := prev;
    } else {
      r := MonthBefore(n, prev);
    }
  }

  /** Every day number is the day number of some valid date: the day of the
      month whose interval holds it. */
  lemma DateExists(n: int)
    ensures exists d :: Valid(d) && DayNumber(d) == n
  {
    var start := YearMonth(1970, 0);
    var ym;
    if FirstOfMonth(start) <= n {
      ym := MonthAtOrAfter(n, start);
    } else {
      ym := MonthBefore(n, start);
    }
    var d := Date(ym.year, ym.month, n - FirstOfMonth(ym) + 1);
    assert Valid(d) && DayNumber(d) == n;
  }

  /** Distinct valid dates have distinct day numbers. */
  lemma DateUnique(a: Date, b: Date)
    requires Valid(a) && Valid(b) && DayNumber(a) == DayNumber(b)
    ensures a == b
  {
    var n := DayNumber(a);
    assert InMonth(n, a.Ym()) && InMonth(n, b.Ym());
    InMonthUnique(n, a.Ym(), b.Ym());
  }

  lemma DatesUnique()
    ensures forall a: Date, b: Date :: Valid(a) && Valid(b) && DayNumber(a) == DayNumber(b) ==> a == b
  {
    forall a: Date, b: Date | Valid(a) && Valid(b) && DayNumber(a) == DayNumber(b)
      ensures a == b
    {
      DateUnique(a, b);
    }
  }

  /** The calendar date of a day number: the one valid date with that day
      number. */
  function FromDayNumber(n: int): (d: Date)
    ensures Valid(d) && DayNumber(d) == n
  {
    DateExists(n);
    DatesUnique();
    var d :| Valid(d) && DayNumber(d) == n;
    d
  }

  function YearMonthOf(n: int): YearMonth {
    FromDayNumber(n).Ym()
  }

  /** A day belongs to exactly the month whose interval holds it. */
  lemma YearMonthOfIff(n: int, ym: YearMonth)
    ensures YearMonthOf(n) == ym <==> InMonth(n, ym)
  {
    var d := FromDayNumber(n);
    assert InMonth(n, d.Ym());
    if InMonth(n, ym) {
      InMonthUnique(n, ym, d.Ym());
    }
  }

  /** The month whose interval holds day `n` is the month of `n`. */
  lemma MonthOfDayIn(n: int, ym: YearMonth)
    requires InMonth(n, ym)
    ensures YearMonthOf(n) == ym
  {
    YearMonthOfIff(n, ym);
  }

  /** Day `n` lies in the interval of its own month. */
  lemma DayInMonthOf(n: int)
    ensures InMonth(n, YearMonthOf(n))
  {
    YearMonthOfIff(n, YearMonthOf(n));
  }

  /** Converting a valid date to its day number and back gives the date again. */
  lemma DateRoundTrip(d: Date)
    requires Valid(d)
    ensures FromDayNumber(DayNumber(d)) == d
  {
    var n := DayNumber(d);
    var e := FromDayNumber(n);
    assert InMonth(n, d.Ym());
    InMonthUnique(n, d.Ym(), e.Ym());
  }

  /** 0 is Sunday, as `Date.prototype.getDay` numbers weekdays. */
  function Weekday(n: int): (w: int)
    ensures 0 <= w < 7
  {
    (n + 4) % 7
  }

  // ---------------------------------------------------------------------
  // Instants

  /** A local date and time, the value behind a date-library object or an
      ISO string: two instants are the same ISO string exactly when equal. */
  datatype Instant = Instant(day: int, time: TimeOfDay)

  function Midnight(n: int): Instant {
    Instant(n, 0)
  }

  function AddDays(i: Instant, k: int): Instant {
    Instant(i.day + k, i.time)
  }

  /** `date.month()`. */
  function MonthIndexOf(i: Instant): Month {
    FromDayNumber(i.day).month
  }

  /** `date.date()`: the day of the month. */
  function DayOfMonth(i: Instant): int {
    FromDayNumber(i.day).day
  }

  /** `date.startOf("month")`. */
  function StartOfMonth(i: Instant): (r: Instant)
    ensures r.time == 0 && r.day <= i.day && YearMonthOf(r.day) == YearMonthOf(i.day)
    ensures DayOfMonth(r) == 1
  {
    var ym := YearMonthOf(i.day);
    DateRoundTrip(Date(ym.year, ym.month, 1));
    Midnight(FirstOfMonth(ym))
  }

  /** `date.startOf("week")` with weeks starting on Sunday. */
  function StartOfWeek(i: Instant): (r: Instant)
    ensures r.time == 0 && Weekday(r.day) == 0 && i.day - 7 < r.day <= i.day
  {
    Midnight(i.day - Weekday(i.day))
  }

  function Min(a: int, b: int): int {
    if a <= b then a else b
  }

  /** `date.add(k, "months")`: the month moves by `k`, the day of the month
      is kept but clamped to the length of the target month, and the time of
      day is kept. */
  function AddMonths(i: Instant, k: int): (r: Instant)
    ensures YearMonthOf(r.day) == Shift(YearMonthOf(i.day), k)
    ensures DayOfMonth(r) == Min(DayOfMonth(i), MonthLength(YearMonthOf(r.day)))
    ensures r.time == i.time
  {
    var d := FromDayNumber(i.day);
    var ym := Shift(d.Ym(), k);
    var target := Date(ym.year, ym.month, Min(d.day, MonthLength(ym)));
    DateRoundTrip(target);
    Instant(DayNumber(target), i.time)
  }
}
