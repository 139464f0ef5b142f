/** Calendar dates as (year, month, day) triples, and the few pieces of
    JavaScript `Date` arithmetic the application relies on: the normalising
    constructor `new Date(year, monthIndex, day)`, `getDay()` and the
    inclusive day windows the backend hands to `Op.between`. */
module Dates {
  import opened Text

  datatype Date = Date(year: int, month: int, day: int)

  predicate IsLeapYear(y: int) {
    y % 4 == 0 && (y % 100 != 0 || y % 400 == 0)
  }

  /** The number of days of month `m` (1..12) of year `y` in the proleptic Gregorian calendar. */
  function DaysInMonth(y: int, m: int): (n: int)
    requires 1 <= m <= 12
    ensures 28 <= n <= 31
  {
    if m == 2 then (if IsLeapYear(y) then 29 else 28)
    else if m == 4 || m == 6 || m == 9 || m == 11 then 30
    else 31
  }

  predicate IsValid(d: Date) {
    1 <= d.month <= 12 && 1 <= d.day <= DaysInMonth(d.year, d.month)
  }

  /** Chronological order on dates (lexicographic on year, month, day). */
  predicate Le(a: Date, b: Date) {
    a.year < b.year
    || (a.year == b.year && (a.month < b.month || (a.month == b.month && a.day <= b.day)))
  }

  /** An inclusive range of days, as `[Op.between]: [start, end]` at day granularity. */
  datatype Window = Window(start: Date, end: Date)

  predicate InWindow(d: Date, w: Window) {
    Le(w.start, d) && Le(d, w.end)
  }

  // ---------------------------------------------------------------------
  // `new Date(year, monthIndex, day)`
  // ---------------------------------------------------------------------

  /** JavaScript maps a year argument 0..99 of the Date constructor to 1900..1999. */
  function FullYear(y: int): int {
    if 0 <= y <= 99 then 1900 + y else y
  }

  /** The year and month (1..12) that `new Date(y, monthIndex, ...)` lands in:
      a month index outside 0..11 carries into the year. */
  function NormalYear(y: int, monthIndex: int): int {
    FullYear(y) + monthIndex / 12
  }

  function NormalMonth(monthIndex: int): (m: int)
    ensures 1 <= m <= 12
  {
    monthIndex % 12 + 1
  }

  /** `new Date(y, monthIndex, day)` for a day that exists in every month. */
  function MakeDate(y: int, monthIndex: int, day: int): (d: Date)
    requires 1 <= day <= 28
    ensures IsValid(d)
  {
    Date(NormalYear(y, monthIndex), NormalMonth(monthIndex), day)
  }

  /** `new Date(y, monthIndex + 1, 0)`: day 0 of the following month, that is
      the last day of month `monthIndex`. */
  function LastDayOf(y: int, monthIndex: int): (d: Date)
    ensures IsValid(d)
  {
    var yy := NormalYear(y, monthIndex);
    var mm := NormalMonth(monthIndex);
    Date(yy, mm, DaysInMonth(yy, mm))
  }

  /** `[new Date(year, month - 1, 1), new Date(year, month, 0)]`. */
  function MonthWindow(year: int, month: int): Window {
    Window(MakeDate(year, month - 1, 1), LastDayOf(year, month - 1))
  }

  /** `[new Date(year, 0, 1), new Date(year, 11, 31)]`. */
  function YearWindow(year: int): Window {
    Window(MakeDate(year, 0, 1), Date(FullYear(year), 12, 31))
  }

  /** A valid date lies in the month window exactly when it has the window's
      normalised year and month. */
  lemma InMonthWindowIff(d: Date, year: int, month: int)
    requires IsValid(d)
    ensures InWindow(d, MonthWindow(year, month))
            <==> d.year == NormalYear(year, month - 1) && d.month == NormalMonth(month - 1)
  {
  }

  /** For an ordinary month number and a year the constructor does not
      remap, the window is exactly that calendar month. */
  lemma MonthWindowOfOrdinaryMonth(d: Date, year: int, month: int)
    requires IsValid(d) && 1 <= month <= 12 && !(0 <= year <= 99)
    ensures InWindow(d, MonthWindow(year, month)) <==> d.year == year && d.month == month
  {
    InMonthWindowIff(d, year, month);
    assert (month - 1) / 12 == 0 && (month - 1) % 12 == month - 1;
  }

  lemma InYearWindowIff(d: Date, year: int)
    requires IsValid(d)
    ensures InWindow(d, YearWindow(year)) <==> d.year == FullYear(year)
  {
  }

  /** The 15th, where the generator dates its rows, lies inside the month window. */
  lemma FifteenthInMonthWindow(year: int, month: int)
    ensures InWindow(MakeDate(year, month - 1, 15), MonthWindow(year, month))
  {
  }

  // ---------------------------------------------------------------------
  // Day numbers and weekdays (`getDay()`, 0 = Sunday)
  // ---------------------------------------------------------------------

  /** Days from 0001-01-01 to January 1st of year `y`. */
  function DaysBeforeYear(y: int): int {
    365 * (y - 1) + (y - 1) / 4 - (y - 1) / 100 + (y - 1) / 400
  }

  /** Days from January 1st to the first of month `m` of year `y`. */
  function DaysBeforeMonth(y: int, m: int): int
    requires 1 <= m <= 12
  {
    [0, 31, 59, 90, 120, 151, 181, 212, 243, 273, 304, 334][m - 1]
    + (if m > 2 && IsLeapYear(y) then 1 else 0)
  }

  /** Days since 0001-01-01, which was a Monday. */
  function DayNumber(d: Date): int
    requires 1 <= d.month <= 12
  {
    DaysBeforeYear(d.year) + DaysBeforeMonth(d.year, d.month) + d.day - 1
  }

  function Weekday(d: Date): (w: int)
    requires 1 <= d.month <= 12
    ensures 0 <= w < 7
  {
    (DayNumber(d) + 1) % 7
  }

  /** The day after `d` in the calendar. */
  function NextDay(d: Date): (n: Date)
    requires IsValid(d)
    ensures IsValid(n) && Le(d, n) && d != n
  {
    if d.day < DaysInMonth(d.year, d.month) then Date(d.year, d.month, d.day + 1)
    else if d.month < 12 then Date(d.year, d.month + 1, 1)
    else Date(d.year + 1, 1, 1)
  }

  lemma Div4Step(y: int)
    ensures y / 4 - (y - 1) / 4 == (if y % 4 == 0 then 1 else 0)
  {
    assert y - 1 == 4 * ((y - 1) / 4) + (y - 1) % 4;
  }

  lemma Div100Step(y: int)
    ensures y / 100 - (y - 1) / 100 == (if y % 100 == 0 then 1 else 0)
  {
    assert y - 1 == 100 * ((y - 1) / 100) + (y - 1) % 100;
  }

  lemma Div400Step(y: int)
    ensures y / 400 - (y - 1) / 400 == (if y % 400 == 0 then 1 else 0)
  {
    assert y - 1 == 400 * ((y - 1) / 400) + (y - 1) % 400;
  }

  /** A year has 365 days, one more when it is a leap year. */
  lemma {:induction false} YearLength(y: int)
    ensures DaysBeforeYear(y + 1) - DaysBeforeYear(y)
            == DaysBeforeMonth(y, 12) + DaysInMonth(y, 12)
  {
    Div4Step(y);
    Div100Step(y);
    Div400Step(y);
  }

  /** Consecutive month starts are one month length apart. */
  lemma MonthLength(y: int, m: int)
    requires 1 <= m < 12
    ensures DaysBeforeMonth(y, m + 1) == DaysBeforeMonth(y, m) + DaysInMonth(y, m)
  {
  }

  /** The day-number function counts calendar days consecutively. */
  lemma NextDayNumber(d: Date)
    requires IsValid(d)
    ensures DayNumber(NextDay(d)) == DayNumber(d) + 1
  {
    if d.day == DaysInMonth(d.year, d.month) {
      if d.month < 12 {
        MonthLength(d.year, d.month);
      } else {
        YearLength(d.year);
        assert DaysBeforeMonth(d.year + 1, 1) == 0;
      }
    }
  }

  /** So the day after `d` falls on the next weekday. */
  lemma NextDayWeekday(d: Date)
    requires IsValid(d)
    ensures Weekday(NextDay(d)) == (Weekday(d) + 1) % 7
  {
    NextDayNumber(d);
    var k := DayNumber(d) + 1;
    assert DayNumber(NextDay(d)) + 1 == k + 1;
    ModSucc(k);
  }

  lemma ModSucc(k: int)
    ensures (k + 1) % 7 == (k % 7 + 1) % 7
  {
    assert k == 7 * (k / 7) + k % 7;
    assert k + 1 == 7 * (k / 7) + (k % 7 + 1);
  }

  /** 1970-01-01 (the JavaScript epoch) was a Thursday. */
  lemma EpochIsThursday()
    ensures Weekday(Date(1970, 1, 1)) == 4
  {
  }

  // ---------------------------------------------------------------------
  // The `YYYY-MM-DD` form
  // ---------------------------------------------------------------------

  /** `String(n).padStart(2, "0")`. */
  function Padded2(n: int): (r: string)
    ensures |r| >= 2
  {
    PadStart(IntToString(n), 2, '0')
  }

  /** A date-only column as the server sends it, and the calendar's day key
      `${year}-${pad2(month)}-${pad2(day)}`. */
  function IsoDate(d: Date): string {
    IntToString(d.year) + "-" + Padded2(d.month) + "-" + Padded2(d.day)
  }

  /** The three fields of a `YYYY-MM-DD` text. */
  lemma IsoDateSplit(d: Date)
    requires d.year >= 0 && d.month >= 0 && d.day >= 0
    ensures Split(IsoDate(d), '-') == [NatToString(d.year), PadStart(NatToString(d.month), 2, '0'), PadStart(NatToString(d.day), 2, '0')]
  {
    var cells := [NatToString(d.year), PadStart(NatToString(d.month), 2, '0'), PadStart(NatToString(d.day), 2, '0')];
    PadStartValue(d.month, 2);
    PadStartValue(d.day, 2);
    assert forall j, i :: 0 <= j < 3 && 0 <= i < |cells[j]| ==> IsDigit(cells[j][i]);
    assert forall j :: 0 <= j < 3 ==> '-' !in cells[j];
    assert cells == [IntToString(d.year), Padded2(d.month), Padded2(d.day)];
    assert Join(cells[2..], "-") == cells[2];
    assert IsoDate(d) == Join(cells, "-");
    SplitJoin(cells, '-');
  }

  /** For a year of at least zero and a valid date, the text splits at '-'
      into three digit fields that read back as the year, month and day. */
  lemma IsoDateReadsBack(d: Date)
    requires d.year >= 0 && IsValid(d)
    ensures var parts := Split(IsoDate(d), '-');
            |parts| == 3
            && (forall j, i :: 0 <= j < 3 && 0 <= i < |parts[j]| ==> IsDigit(parts[j][i]))
            && DigitsValue(parts[0]) == d.year && DigitsValue(parts[1]) == d.month && DigitsValue(parts[2]) == d.day
  {
    IsoDateSplit(d);
    NatToStringRoundTrip(d.year);
    PadStartValue(d.month, 2);
    PadStartValue(d.day, 2);
  }

  /** Distinct valid dates have distinct `YYYY-MM-DD` texts. */
  lemma IsoDateInjective(d: Date, e: Date)
    requires d.year >= 0 && IsValid(d) && e.year >= 0 && IsValid(e)
    requires IsoDate(d) == IsoDate(e)
    ensures d == e
  {
    IsoDateReadsBack(d);
    IsoDateReadsBack(e);
  }
}
