/** The month grid (src/pages/Calendar.tsx). The component relies on the
    JavaScript `Date` object; the model uses the day arithmetic of ECMAScript
    (section 21.4.1 of ECMA-262: DayFromYear, the cumulative month table, MakeDay
    with month overflow, WeekDay) on whole days, with year, month (0-based)
    and day as integers. */
module Calendar {
  import opened Wrappers
  import opened Arithmetic

  predicate IsLeapYear(y: int) {
    y % 4 == 0 && (y % 100 != 0 || y % 400 == 0)
  }

  /** The Gregorian length of month `m` (0 = January) of year `y`. */
  function DaysInMonth(m: int, y: int): (r: nat)
    requires 0 <= m < 12
    ensures 28 <= r <= 31
  {
    if m == 1 then (if IsLeapYear(y) then 29 else 28)
    else if m == 3 || m == 5 || m == 8 || m == 10 then 30
    else 31
  }

  /** Day number (days since 1970-01-01) of January 1 of year `y`; Dafny's `/`
      by a positive divisor is the floor the standard uses. */
  function DayFromYear(y: int): int {
    365 * (y - 1970) + (y - 1969) / 4 - (y - 1901) / 100 + (y - 1601) / 400
  }

  /** Days of the year before the first of month `m`. */
  function MonthStart(m: int, leap: bool): nat
    requires 0 <= m < 12
  {
    var base := [0, 31, 59, 90, 120, 151, 181, 212, 243, 273, 304, 334][m];
    if leap && m >= 2 then base + 1 else base
  }

  /** `new Date(y, m, d)` as a day number: months outside 0..11 carry into the
      year, days outside the month carry into neighbouring months. */
  function MakeDay(y: int, m: int, d: int): int {
    var ym := y + m / 12;
    var mn := m % 12;
    DayFromYear(ym) + MonthStart(mn, IsLeapYear(ym)) + d - 1
  }

  /** `new Date(...).getDay()`: 0 = Sunday; 1970-01-01 was a Thursday. */
  function WeekDay(day: int): (r: nat)
    ensures r < 7
  {
    (day + 4) % 7
  }

  /** A year has 366 days when it is a leap year and 365 otherwise. */
  lemma YearLength(y: int)
    ensures DayFromYear(y + 1) - DayFromYear(y) == if IsLeapYear(y) then 366 else 365
  {
    DivStep(y - 1969, 4);
    DivStep(y - 1901, 100);
    DivStep(y - 1601, 400);
    ModShift(y, -492, 4);
    ModShift(y, -19, 100);
    ModShift(y, -4, 400);
  }

  /** Inside the year, `MakeDay` is the year's first day plus the month offset. */
  lemma MakeDayInYear(y: int, m: int, d: int)
    requires 0 <= m < 12
    ensures MakeDay(y, m, d) == DayFromYear(y) + MonthStart(m, IsLeapYear(y)) + d - 1
  {
    DivModUnique(m, 12, 0, m);
  }

  /** Consecutive days of the same month argument are consecutive day numbers. */
  lemma MakeDayNext(y: int, m: int, d: int)
    ensures MakeDay(y, m, d + 1) == MakeDay(y, m, d) + 1
  {
  }

  /** Month 12 is January of the next year. */
  lemma MakeDayNextYear(y: int, d: int)
    ensures MakeDay(y, 12, d) == DayFromYear(y + 1) + d - 1
  {
    DivModUnique(12, 12, 1, 0);
  }

  /** The cumulative month table adds up the month lengths. */
  lemma MonthStartStep(m: int, y: int)
    requires 0 <= m < 11
    ensures MonthStart(m + 1, IsLeapYear(y)) == MonthStart(m, IsLeapYear(y)) + DaysInMonth(m, y)
  {
  }

  /** `getDaysInMonth` takes day 0 of the following month: that is the same
      day as day DaysInMonth of month `m`. */
  lemma DayZeroOfNextMonth(m: int, y: int)
    requires 0 <= m < 12
    ensures MakeDay(y, m + 1, 0) == MakeDay(y, m, DaysInMonth(m, y))
  {
    MakeDayInYear(y, m, DaysInMonth(m, y));
    if m == 11 {
      MakeDayNextYear(y, 0);
      YearLength(y);
    } else {
      MakeDayInYear(y, m + 1, 0);
      MonthStartStep(m, y);
    }
  }

  /** Days 1..DaysInMonth of month `m` lie between its first day and the
      first day of the next month, so `getDate` reads back the day itself;
      in particular day 0 of the next month reads back DaysInMonth. */
  lemma DayWithinMonth(m: int, y: int, d: int)
    requires 0 <= m < 12 && 1 <= d <= DaysInMonth(m, y)
    ensures MakeDay(y, m, 1) <= MakeDay(y, m, d) < MakeDay(y, m + 1, 1)
  {
    var base := DayFromYear(y) + MonthStart(m, IsLeapYear(y));
    MakeDayInYear(y, m, 1);
    MakeDayInYear(y, m, d);
    assert MakeDay(y, m + 1, 1) == base + DaysInMonth(m, y) by {
      MakeDayInYear(y, m, DaysInMonth(m, y));
      DayZeroOfNextMonth(m, y);
      MakeDayNext(y, m + 1, 0);
    }
  }

  /** `getFirstDayOfMonth`: the weekday of day 1. */
  function FirstDayOfMonth(m: int, y: int): (r: nat)
    requires 0 <= m < 12
    ensures r < 7
  {
    WeekDay(MakeDay(y, m, 1))
  }

  /** The next month starts `DaysInMonth` days after the first of this one. */
  lemma NextMonthStart(m: int, y: int)
    requires 0 <= m < 12
    ensures MakeDay(y, m + 1, 1) == MakeDay(y, m, 1) + DaysInMonth(m, y)
  {
    MakeDayInYear(y, m, 1);
    MakeDayInYear(y, m, DaysInMonth(m, y));
    DayZeroOfNextMonth(m, y);
    MakeDayNext(y, m + 1, 0);
  }

  /** Consecutive months: the next month starts `DaysInMonth` weekdays later. */
  lemma FirstDayOfNextMonth(m: int, y: int)
    requires 0 <= m < 12
    ensures WeekDay(MakeDay(y, m + 1, 1)) == (FirstDayOfMonth(m, y) + DaysInMonth(m, y)) % 7
  {
    NextMonthStart(m, y);
    ModAdd(MakeDay(y, m, 1) + 4, DaysInMonth(m, y), 7);
  }

  // ----- The grid -----

  datatype Cell = Blank | Day(day: nat, marked: bool)

  /** A logbook's date (`logbook.date?.toDate()`) as year, 0-based month, day. */
  datatype LogDate = LogDate(year: int, month: int, day: int)

  /** `logbooks.find(...)` succeeds: some logbook is dated that day. */
  predicate HasLogbook(logbooks: seq<Option<LogDate>>, y: int, m: int, d: int) {
    exists i :: 0 <= i < |logbooks| && logbooks[i] == Some(LogDate(y, m, d))
  }

  function Flatten(rows: seq<seq<Cell>>): seq<Cell> {
    if rows == [] then [] else Flatten(rows[..|rows| - 1]) + rows[|rows| - 1]
  }

  /** `rows` cuts `cells` into consecutive slices of 7, the last one possibly shorter. */
  ghost predicate RowsOfSeven(rows: seq<seq<Cell>>, cells: seq<Cell>) {
    && 7 * |rows| - 7 < |cells| <= 7 * |rows|
    && forall w :: 0 <= w < |rows| ==>
         rows[w] == cells[7 * w .. if 7 * w + 7 <= |cells| then 7 * w + 7 else |cells|]
  }

  /** Concatenating the rows gives back the cells. */
  lemma {:induction false} RowsFlatten(rows: seq<seq<Cell>>, cells: seq<Cell>)
    requires RowsOfSeven(rows, cells)
    ensures Flatten(rows) == cells
  {
    if rows != [] {
      var n := |rows| - 1;
      var prefix := cells[..7 * n];
      forall w | 0 <= w < n
        ensures rows[..n][w] == prefix[7 * w .. if 7 * w + 7 <= |prefix| then 7 * w + 7 else |prefix|]
      {
        assert 7 * w + 7 <= 7 * n;
      }
      RowsFlatten(rows[..n], prefix);
      assert rows[n] == cells[7 * n..];
      assert cells == prefix + cells[7 * n..];
    }
  }

  /** A non-empty grid has ceil(cells / 7) rows, all full but the last. */
  lemma WeekShape(rows: seq<seq<Cell>>, cells: seq<Cell>)
    requires RowsOfSeven(rows, cells) && |cells| > 0
    ensures |rows| == (|cells| + 6) / 7
    ensures forall w :: 0 <= w < |rows| - 1 ==> |rows[w]| == 7
    ensures 1 <= |rows[|rows| - 1]| <= 7
  {
    var n := |rows|;
    DivModUnique(|cells| + 6, 7, n, |cells| + 6 - 7 * n);
    forall w | 0 <= w < n - 1 ensures |rows[w]| == 7 {
      assert 7 * w + 7 <= 7 * (n - 1);
    }
  }

  /** `new Date(y, ...)` reads a year argument from 0 to 99 as 1900 + y. */
  function ConstructorYear(y: int): int {
    if 0 <= y <= 99 then 1900 + y else y
  }

  /** The last loop of `renderCalendar`: `days.slice(i, i + 7)` for i = 0, 7, 14, ... */
  method SplitWeeks(days: seq<Cell>) returns (weeks: seq<seq<Cell>>)
    ensures RowsOfSeven(weeks, days)
  {
    weeks := [];
    var k := 0;
    while k < |days|
      invariant k == 7 * |weeks|
      invariant 7 * |weeks| - 7 < |days| || weeks == []
      invariant forall w :: 0 <= w < |weeks| ==>
        weeks[w] == days[7 * w .. if 7 * w + 7 <= |days| then 7 * w + 7 else |days|]
    {
      var stop := if k + 7 <= |days| then k + 7 else |days|;
      weeks := weeks + [days[k..stop]];
      k := k + 7;
    }
  }

  /** `renderCalendar`: blank cells up to the weekday of day 1, then one cell
      per day of the month with a marker where a logbook falls on that day,
      cut into weeks of 7. The month length and first weekday come from
      `new Date(year, ...)`, so they are those of `ConstructorYear(year)`; the
      logbook markers compare with the displayed year itself. */
  method RenderCalendar(y: int, m: int, logbooks: seq<Option<LogDate>>) returns (weeks: seq<seq<Cell>>)
    requires 0 <= m < 12
    ensures var first, n := FirstDayOfMonth(m, ConstructorYear(y)), DaysInMonth(m, ConstructorYear(y));
      var cells := Flatten(weeks);
      && |cells| == first + n
      && (forall i :: 0 <= i < first ==> cells[i] == Blank)
      && (forall d :: 1 <= d <= n ==> cells[first + d - 1] == Day(d, HasLogbook(logbooks, y, m, d)))
      && |weeks| == (first + n + 6) / 7
      && (forall w :: 0 <= w < |weeks| - 1 ==> |weeks[w]| == 7)
      && 1 <= |weeks[|weeks| - 1]| <= 7
  {
    var daysInMonth := DaysInMonth(m, ConstructorYear(y));
    var firstDay := FirstDayOfMonth(m, ConstructorYear(y));
    var days: seq<Cell> := [];
    var i := 0;
    while i < firstDay
      invariant 0 <= i <= firstDay
      invariant |days| == i
      invariant forall j :: 0 <= j < i ==> days[j] == Blank
    {
      days := days + [Blank];
      i := i + 1;
    }
    var day := 1;
    while day <= daysInMonth
      invariant 1 <= day <= daysInMonth + 1
      invariant |days| == firstDay + day - 1
      invariant forall j :: 0 <= j < firstDay ==> days[j] == Blank
      invariant forall d :: 1 <= d < day ==> days[firstDay + d - 1] == Day(d, HasLogbook(logbooks, y, m, d))
    {
      var marked := HasLogbook(logbooks, y, m, day);
      days := days + [Day(day, marked)];
      day := day + 1;
    }
    weeks := SplitWeeks(days);
    RowsFlatten(weeks, days);
    WeekShape(weeks, days);
  }

  // ----- Month navigation -----

  /** The displayed date (`displayedDate`): year, 0-based month, day of month. */
  class CalendarView {
    var year: int
    var month: int
    var day: int

    ghost predicate Valid()
      reads this
    {
      0 <= month < 12 && 1 <= day <= DaysInMonth(month, year)
    }

    /** The component starts on the current date, given by the caller. */
    constructor (today: LogDate)
      requires 0 <= today.month < 12 && 1 <= today.day <= DaysInMonth(today.month, today.year)
      ensures Valid()
      ensures year == today.year && month == today.month && day == today.day
    {
      year, month, day := today.year, today.month, today.day;
    }

    /** `new Date(year, month - 1, 1)`: day 1 of the previous month, wrapping
        from January to December of the year before. */
    method HandlePrevMonth()
      requires Valid()
      modifies this
      ensures Valid() && day == 1
      ensures MakeDay(year, month, 1) == MakeDay(ConstructorYear(old(year)), old(month) - 1, 1)
      ensures !(0 <= old(year) <= 99) && old(month) == 0 ==> year == old(year) - 1 && month == 11
      ensures !(0 <= old(year) <= 99) && old(month) > 0 ==> year == old(year) && month == old(month) - 1
    {
      var y := ConstructorYear(year);
      if month == 0 {
        DivModUnique(-1, 12, -1, 11);
      } else {
        DivModUnique(month - 1, 12, 0, month - 1);
      }
      year, month, day := y + (month - 1) / 12, (month - 1) % 12, 1;
      DivModUnique(month, 12, 0, month);
    }

    /** `new Date(year, month + 1, 1)`: day 1 of the next month, wrapping from
        December to January of the year after. */
    method HandleNextMonth()
      requires Valid()
      modifies this
      ensures Valid() && day == 1
      ensures MakeDay(year, month, 1) == MakeDay(ConstructorYear(old(year)), old(month) + 1, 1)
      ensures !(0 <= old(year) <= 99) && old(month) == 11 ==> year == old(year) + 1 && month == 0
      ensures !(0 <= old(year) <= 99) && old(month) < 11 ==> year == old(year) && month == old(month) + 1
    {
      var y := ConstructorYear(year);
      if month == 11 {
        DivModUnique(12, 12, 1, 0);
      } else {
        DivModUnique(month + 1, 12, 0, month + 1);
      }
      year, month, day := y + (month + 1) / 12, (month + 1) % 12, 1;
      DivModUnique(month, 12, 0, month);
    }
  }
}
