/** The month calendar of the routine page: one blank cell per weekday
    before the 1st, then one cell per day keyed `YYYY-MM-DD` and holding the
    schedules dated that day; the three counters above it; and the status
    labels of the detail view. */
module Calendar {
  import opened Dates
  import opened Text
  import opened Seqs
  import opened Records

  /** A row of `/routines` as the page reads it: the stakeholder, the
      pickup date and the status as texts. */
  datatype Entry = Entry(stakeholder: string, pickupDate: string, status: string)

  /** A calendar cell: an empty lead-in cell, or a day with its key, the
      schedules of that day and the two CSS flags. */
  datatype Cell =
    | Blank(index: nat)
    | Day(day: int, key: string, schedules: seq<Entry>, hasSchedule: bool, isToday: bool)

  /** What a click on a day opens: the day's key and its schedules. */
  datatype Detail = Detail(date: string, schedules: seq<Entry>)

  // ---------------------------------------------------------------------
  // The grid
  // ---------------------------------------------------------------------

  /** `new Date(selectedYear, selectedMonth - 1, 1).getDay()`. */
  function StartingWeekday(year: int, month: int): (w: int)
    ensures 0 <= w < 7
  {
    Weekday(MakeDate(year, month - 1, 1))
  }

  /** `new Date(selectedYear, selectedMonth, 0).getDate()`. */
  function ShownDays(year: int, month: int): int {
    LastDayOf(year, month - 1).day
  }

  /** `${selectedYear}-${pad2(selectedMonth)}-${pad2(day)}`. */
  function DayKey(year: int, month: int, day: int): string {
    IsoDate(Date(year, month, day))
  }

  function DatedOn(key: string): Entry -> bool {
    (e: Entry) => e.pickupDate == key
  }

  /** The cell of `day`; `today` is the clock's date. */
  function DayCell(entries: seq<Entry>, year: int, month: int, day: int, today: Date): Cell {
    var key := DayKey(year, month, day);
    var onDay := Filter(entries, DatedOn(key));
    Day(day, key, onDay, |onDay| > 0, key == IsoDate(today))
  }

  /** `renderCalendar`: the lead-in loop and then the loop over the days. */
  method RenderCalendar(entries: seq<Entry>, year: int, month: int, today: Date) returns (days: seq<Cell>)
    ensures days == Blanks(StartingWeekday(year, month)) + Tabulate(CellOfDay(entries, year, month, today), ShownDays(year, month))
  {
    var firstDay := MakeDate(year, month - 1, 1);
    var lastDay := LastDayOf(year, month - 1);
    var daysInMonth := lastDay.day;
    var startingDayOfWeek := Weekday(firstDay);
    days := RenderLeadIn(startingDayOfWeek);
    var dayCells := RenderDays(entries, year, month, daysInMonth, today);
    days := days + dayCells;
  }

  /** The grid `renderCalendar` draws: the blank cells before the weekday of
      the 1st, then one cell per day of the month, day `d` at index
      `start + d - 1`. */
  lemma CalendarLayout(entries: seq<Entry>, year: int, month: int, today: Date)
    ensures var days := Blanks(StartingWeekday(year, month)) + Tabulate(CellOfDay(entries, year, month, today), ShownDays(year, month));
            |days| == StartingWeekday(year, month) + ShownDays(year, month)
            && (forall i :: 0 <= i < StartingWeekday(year, month) ==> days[i] == Blank(i))
            && (forall i :: StartingWeekday(year, month) <= i < |days| ==>
                  days[i] == CellOfDay(entries, year, month, today)(i - StartingWeekday(year, month) + 1))
  {
    LayoutAt(StartingWeekday(year, month), CellOfDay(entries, year, month, today), ShownDays(year, month));
  }

  lemma LayoutAt(start: nat, cellOf: int -> Cell, n: nat)
    ensures var days := Blanks(start) + Tabulate(cellOf, n);
            |days| == start + n
            && (forall i :: 0 <= i < start ==> days[i] == Blank(i))
            && (forall i :: start <= i < |days| ==> days[i] == cellOf(i - start + 1))
  {
    BlanksAt(start);
    TabulateAt(cellOf, n);
  }

  /** The first `n` blank cells. */
  function Blanks(n: nat): seq<Cell> {
    if n == 0 then [] else Blanks(n - 1) + [Blank(n - 1)]
  }

  lemma {:induction false} BlanksAt(n: nat)
    ensures |Blanks(n)| == n && forall k :: 0 <= k < n ==> Blanks(n)[k] == Blank(k)
  {
    if n > 0 {
      BlanksAt(n - 1);
    }
  }

  /** The lead-in loop: one blank cell per weekday before the 1st. */
  method RenderLeadIn(n: nat) returns (days: seq<Cell>)
    ensures days == Blanks(n)
  {
    days := [];
    var i := 0;
    while i < n
      invariant 0 <= i <= n && days == Blanks(i)
    {
      days := days + [Blank(i)];
      i := i + 1;
    }
  }

  /** The cell of each day of the month shown. */
  function CellOfDay(entries: seq<Entry>, year: int, month: int, today: Date): int -> Cell {
    d => DayCell(entries, year, month, d, today)
  }

  /** The loop over the days 1 to `daysInMonth`. */
  method RenderDays(entries: seq<Entry>, year: int, month: int, daysInMonth: nat, today: Date)
    returns (cells: seq<Cell>)
    ensures cells == Tabulate(CellOfDay(entries, year, month, today), daysInMonth)
  {
    cells := [];
    var day := 1;
    while day <= daysInMonth
      invariant 1 <= day <= daysInMonth + 1
      invariant cells == Tabulate(CellOfDay(entries, year, month, today), day - 1)
    {
      var cell := RenderDay(entries, year, month, day, today);
      cells := cells + [cell];
      day := day + 1;
    }
  }

  /** One pass of the day loop: the key, the day's schedules and the flags. */
  method RenderDay(entries: seq<Entry>, year: int, month: int, day: int, today: Date) returns (cell: Cell)
    ensures cell == CellOfDay(entries, year, month, today)(day)
  {
    var date := DayKey(year, month, day);
    var schedulesOnDay := Filter(entries, DatedOn(date));
    var isToday := date == IsoDate(today);
    cell := Day(day, date, schedulesOnDay, |schedulesOnDay| > 0, isToday);
  }

  /** The click handler opens the detail view only on a day with schedules. */
  function Click(c: Cell): (d: Option<Detail>)
    ensures d.Some? <==> c.Day? && |c.schedules| > 0
    ensures d.Some? ==> d.value == Detail(c.key, c.schedules)
  {
    if c.Day? && |c.schedules| > 0 then Some(Detail(c.key, c.schedules)) else None
  }

  /** The number of day cells is the length of the month shown: 28 to 31,
      and for an ordinary month and year the calendar's own month length,
      so February has 29 days exactly in leap years. */
  lemma ShownDaysSpec(year: int, month: int)
    ensures 28 <= ShownDays(year, month) <= 31
    ensures 1 <= month <= 12 && !(0 <= year <= 99) ==> ShownDays(year, month) == DaysInMonth(year, month)
    ensures month == 2 && !(0 <= year <= 99) ==> (ShownDays(year, month) == 29 <==> IsLeapYear(year))
  {
    if 1 <= month <= 12 {
      assert (month - 1) / 12 == 0 && (month - 1) % 12 == month - 1;
    }
  }

  /** Every day sits in the column of its weekday (0 = Sunday): the lead-in
      cells shift the 1st to its weekday and the days follow one per cell. */
  lemma ColumnIsWeekday(year: int, month: int, d: int)
    requires 1 <= d <= ShownDays(year, month)
    ensures (StartingWeekday(year, month) + d - 1) % 7
            == Weekday(Date(NormalYear(year, month - 1), NormalMonth(month - 1), d))
  {
    var first := MakeDate(year, month - 1, 1);
    var date := Date(first.year, first.month, d);
    assert DayNumber(date) == DayNumber(first) + d - 1;
    ModShift(DayNumber(first) + 1, d - 1);
  }

  lemma ModShift(a: int, k: nat)
    ensures (a % 7 + k) % 7 == (a + k) % 7
  {
    var q := a / 7;
    assert a == 7 * q + a % 7;
    assert a + k == 7 * q + (a % 7 + k);
  }

  /** A day's key is `YYYY-MM-DD`: for a year of at least zero and a real
      date it splits into three digit fields, the month and the day two
      digits wide, reading back as the year, month and day. */
  lemma DayKeyFormat(year: int, month: int, day: int)
    requires year >= 0 && IsValid(Date(year, month, day))
    ensures var parts := Split(DayKey(year, month, day), '-');
            |parts| == 3 && |parts[1]| == 2 && |parts[2]| == 2
            && (forall j, i :: 0 <= j < 3 && 0 <= i < |parts[j]| ==> IsDigit(parts[j][i]))
            && DigitsValue(parts[0]) == year && DigitsValue(parts[1]) == month && DigitsValue(parts[2]) == day
  {
    IsoDateReadsBack(Date(year, month, day));
    IsoDateSplit(Date(year, month, day));
    TwoDigitLength(month);
    TwoDigitLength(day);
  }

  /** A day cell holds exactly the entries whose pickup date is its key, in
      the order they came; it is marked as having schedules, and opens the
      detail view, exactly when there is one. */
  lemma DayCellSpec(entries: seq<Entry>, year: int, month: int, day: int, today: Date)
    ensures var c := DayCell(entries, year, month, day, today);
            c.key == DayKey(year, month, day)
            && (forall e :: e in c.schedules <==> e in entries && e.pickupDate == c.key)
            && (c.hasSchedule <==> exists k :: 0 <= k < |entries| && entries[k].pickupDate == c.key)
            && (Click(c).Some? <==> c.hasSchedule)
  {
    var c := DayCell(entries, year, month, day, today);
    FilterMembers(entries, DatedOn(c.key));
    if |c.schedules| > 0 {
      assert c.schedules[0] in entries;
    }
  }

  /** Two different days of an ordinary month never share an entry. */
  lemma DaysDisjoint(entries: seq<Entry>, year: int, month: int, d1: int, d2: int, today: Date)
    requires year >= 0 && IsValid(Date(year, month, d1)) && IsValid(Date(year, month, d2)) && d1 != d2
    ensures forall e :: !(e in DayCell(entries, year, month, d1, today).schedules
                          && e in DayCell(entries, year, month, d2, today).schedules)
  {
    FilterMembers(entries, DatedOn(DayKey(year, month, d1)));
    FilterMembers(entries, DatedOn(DayKey(year, month, d2)));
    if DayKey(year, month, d1) == DayKey(year, month, d2) {
      IsoDateInjective(Date(year, month, d1), Date(year, month, d2));
    }
  }

  /** The "today" flag is set on the cell of the clock's date and no other. */
  lemma TodayFlag(entries: seq<Entry>, year: int, month: int, day: int, today: Date)
    requires year >= 0 && IsValid(Date(year, month, day)) && today.year >= 0 && IsValid(today)
    ensures DayCell(entries, year, month, day, today).isToday <==> today == Date(year, month, day)
  {
    if DayKey(year, month, day) == IsoDate(today) {
      IsoDateInjective(Date(year, month, day), today);
    }
  }

  // ---------------------------------------------------------------------
  // The counters
  // ---------------------------------------------------------------------

  datatype Stats = Stats(total: nat, completed: nat, pending: nat, stakeholders: nat)

  function StatusText(st: string): Entry -> bool {
    (e: Entry) => e.status == st
  }

  function StakeholderOf(e: Entry): string {
    e.stakeholder
  }

  /** `calculateStats`: the rows, the completed ones, the pending ones and
      the distinct stakeholders. */
  function CalculateStats(entries: seq<Entry>): (s: Stats)
    ensures s.total == |entries|
    ensures s.completed + s.pending <= s.total
    ensures s.stakeholders <= s.total && (s.total > 0 ==> s.stakeholders >= 1)
  {
    StatsBounds(entries);
    Stats(|entries|, |Filter(entries, StatusText("completed"))|, |Filter(entries, StatusText("pending"))|,
          |Image(entries, StakeholderOf)|)
  }

  lemma StatsBounds(entries: seq<Entry>)
    ensures |Filter(entries, StatusText("completed"))| + |Filter(entries, StatusText("pending"))| <= |entries|
    ensures |Image(entries, StakeholderOf)| <= |entries|
    ensures |entries| > 0 ==> |Image(entries, StakeholderOf)| >= 1
  {
    FilterUnion(entries, StatusText("completed"), StatusText("pending"),
                (e: Entry) => e.status == "completed" || e.status == "pending", (e: Entry) => 0);
    ImageCard(entries, StakeholderOf);
    if |entries| > 0 {
      assert StakeholderOf(entries[0]) in Image(entries, StakeholderOf);
    }
  }

  /** The counters count what their labels say. */
  lemma CalculateStatsSpec(entries: seq<Entry>)
    ensures forall e :: e in Filter(entries, StatusText("completed")) <==> e in entries && e.status == "completed"
    ensures forall e :: e in Filter(entries, StatusText("pending")) <==> e in entries && e.status == "pending"
    ensures CalculateStats(entries).completed == |Filter(entries, StatusText("completed"))|
    ensures CalculateStats(entries).pending == |Filter(entries, StatusText("pending"))|
    ensures forall name :: name in Image(entries, StakeholderOf) <==> exists k :: 0 <= k < |entries| && entries[k].stakeholder == name
    ensures CalculateStats(entries).stakeholders == |Image(entries, StakeholderOf)|
  {
    FilterMembers(entries, StatusText("completed"));
    FilterMembers(entries, StatusText("pending"));
  }

  // ---------------------------------------------------------------------
  // Status labels
  // ---------------------------------------------------------------------

  /** `getStatusLabel`: the four statuses in Indonesian, anything else as it is. */
  function StatusLabel(status: string): (text: string)
    ensures status == "scheduled" ==> text == "Terjadwal"
    ensures status == "completed" ==> text == "Selesai"
    ensures status == "pending" ==> text == "Pending"
    ensures status == "cancelled" ==> text == "Dibatalkan"
    ensures status !in {"scheduled", "completed", "pending", "cancelled"} ==> text == status
  {
    if status == "scheduled" then "Terjadwal"
    else if status == "completed" then "Selesai"
    else if status == "pending" then "Pending"
    else if status == "cancelled" then "Dibatalkan"
    else status
  }

  /** The four known statuses get four different labels, so the label
      still tells them apart. */
  lemma StatusLabelsDistinct(a: string, b: string)
    requires a in {"scheduled", "completed", "pending", "cancelled"}
    requires b in {"scheduled", "completed", "pending", "cancelled"}
    requires StatusLabel(a) == StatusLabel(b)
    ensures a == b
  {
  }
}
