/** The yearly expense report: per month of the selected year the number
    of proposals that came in and the sum of their amounts, the year's
    totals, the comparison of two months, the bar chart and the CSV
    download. */
module Report {
  import opened Dates
  import opened Text
  import opened Seqs
  import opened Proposals

  const MonthNames: seq<string> := ["Januari", "Februari", "Maret", "April", "Mei", "Juni", "Juli",
                                    "Agustus", "September", "Oktober", "November", "Desember"]

  // ---------------------------------------------------------------------
  // Months
  // ---------------------------------------------------------------------

  /** `date.getMonth() + 1 === month && date.getFullYear() === year` on `tanggal_masuk`. */
  function InMonthOf(year: int, month: int): Proposal -> bool {
    (p: Proposal) => p.entryDate.month == month && p.entryDate.year == year
  }

  function InYear(year: int): Proposal -> bool {
    (p: Proposal) => p.entryDate.year == year
  }

  /** `getMonthlyProposalCount(month, year)`. */
  function MonthlyCount(ps: seq<Proposal>, month: int, year: int): nat {
    |Filter(ps, InMonthOf(year, month))|
  }

  /** `getMonthlyExpense(month, year)`: the amounts added up, an unreadable one as 0. */
  function MonthlyExpense(ps: seq<Proposal>, month: int, year: int): int {
    SumBy(Filter(ps, InMonthOf(year, month)), Price)
  }

  /** The month functions look at exactly the proposals of that month and year. */
  lemma MonthlySpec(ps: seq<Proposal>, month: int, year: int)
    ensures forall p :: p in Filter(ps, InMonthOf(year, month))
                        <==> p in ps && p.entryDate.month == month && p.entryDate.year == year
    ensures MonthlyCount(ps, month, year) == |Filter(ps, InMonthOf(year, month))|
    ensures MonthlyExpense(ps, month, year) == SumBy(Filter(ps, InMonthOf(year, month)), Price)
    ensures forall a, b :: ps == a + b ==> MonthlyCount(ps, month, year) == MonthlyCount(a, month, year) + MonthlyCount(b, month, year)
    ensures forall a, b :: ps == a + b ==> MonthlyExpense(ps, month, year) == MonthlyExpense(a, month, year) + MonthlyExpense(b, month, year)
  {
    FilterMembers(ps, InMonthOf(year, month));
    forall a, b | ps == a + b
      ensures MonthlyCount(ps, month, year) == MonthlyCount(a, month, year) + MonthlyCount(b, month, year)
      ensures MonthlyExpense(ps, month, year) == MonthlyExpense(a, month, year) + MonthlyExpense(b, month, year)
    {
      FilterAppend(a, b, InMonthOf(year, month));
      SumByAppend(Filter(a, InMonthOf(year, month)), Filter(b, InMonthOf(year, month)), Price);
    }
  }

  /** One bar of the year, as `yearlyData` holds it. */
  datatype MonthRow = MonthRow(month: string, expense: int, count: nat)

  function RowOf(ps: seq<Proposal>, month: int, year: int): MonthRow
    requires 1 <= month <= 12
  {
    MonthRow(MonthNames[month - 1], MonthlyExpense(ps, month, year), MonthlyCount(ps, month, year))
  }

  /** `yearlyData`: twelve rows in month order, row i for month i + 1 of `year`. */
  function YearlyData(ps: seq<Proposal>, year: int): (rows: seq<MonthRow>)
    ensures |rows| == 12
    ensures forall i :: 0 <= i < 12 ==> rows[i] == RowOf(ps, i + 1, year)
  {
    seq(12, i requires 0 <= i < 12 => RowOf(ps, i + 1, year))
  }

  // ---------------------------------------------------------------------
  // Totals
  // ---------------------------------------------------------------------

  function RowCount(r: MonthRow): int { r.count }
  function RowExpense(r: MonthRow): int { r.expense }

  /** `totalYearProposals` and `totalYearExpense`. */
  function TotalYearProposals(rows: seq<MonthRow>): int { SumBy(rows, RowCount) }
  function TotalYearExpense(rows: seq<MonthRow>): int { SumBy(rows, RowExpense) }

  /** The month a proposal counts for in `year`, or 0 outside that year. */
  function YearKey(year: int): Proposal -> int {
    (p: Proposal) => if p.entryDate.year == year then p.entryDate.month else 0
  }

  /** For months 1..12 the report's test is the bucket of `YearKey`. */
  lemma MonthIsBucket(ps: seq<Proposal>, month: int, year: int)
    requires 1 <= month <= 12
    ensures Filter(ps, InMonthOf(year, month)) == Filter(ps, KeyIs(YearKey(year), month))
  {
    FilterCongruent(ps, InMonthOf(year, month), KeyIs(YearKey(year), month));
  }

  /** The first n rows add up to the first n buckets. */
  lemma {:induction false} RowsAreBuckets(ps: seq<Proposal>, year: int, n: nat)
    requires n <= 12
    ensures SumBy(YearlyData(ps, year)[..n], RowCount) == CountUpTo(ps, YearKey(year), n)
    ensures SumBy(YearlyData(ps, year)[..n], RowExpense) == SumUpTo(ps, YearKey(year), Price, n)
  {
    if n > 0 {
      var rows := YearlyData(ps, year);
      RowsAreBuckets(ps, year, n - 1);
      assert rows[..n][..n - 1] == rows[..n - 1];
      MonthIsBucket(ps, n, year);
    }
  }

  /** The year's totals: the sum of the twelve counts is the number of
      proposals dated in the year, and the sum of the twelve expenses is
      the sum of their amounts (an unreadable one as 0). */
  lemma YearTotals(ps: seq<Proposal>, year: int)
    requires forall k :: 0 <= k < |ps| ==> 1 <= ps[k].entryDate.month <= 12
    ensures TotalYearProposals(YearlyData(ps, year)) == |Filter(ps, InYear(year))|
    ensures TotalYearExpense(YearlyData(ps, year)) == SumBy(Filter(ps, InYear(year)), Price)
  {
    var rows := YearlyData(ps, year);
    RowsAreBuckets(ps, year, 12);
    assert rows[..12] == rows;
    BucketsAddUp(ps, YearKey(year), Price, 12);
    FilterCongruent(ps, KeyBetween(YearKey(year), 1, 12), InYear(year));
  }

  // ---------------------------------------------------------------------
  // Comparing two months
  // ---------------------------------------------------------------------

  /** `percentageChange`: the change relative to the comparison month, or 0
      when that month spent nothing (a falsy denominator). */
  function PercentageChange(difference: int, comparison: int): real {
    if comparison != 0 then (difference as real / comparison as real) * 100.0 else 0.0
  }

  datatype Comparison = Comparison(current: MonthRow, other: MonthRow, difference: int, percentage: real, up: bool)

  /** The selected month against the comparison month, both of `year`. */
  function Compare(ps: seq<Proposal>, year: int, selectedMonth: int, comparisonMonth: int): Comparison
    requires 1 <= selectedMonth <= 12 && 1 <= comparisonMonth <= 12
  {
    var current := RowOf(ps, selectedMonth, year);
    var other := RowOf(ps, comparisonMonth, year);
    var difference := current.expense - other.expense;
    Comparison(current, other, difference, PercentageChange(difference, other.expense), difference >= 0)
  }

  /** The trend points up exactly when the selected month spent at least as
      much; the percentage is 0 against a month that spent nothing, otherwise
      it is the difference over the comparison amount; against a month that
      spent a positive amount it is non-negative exactly when the trend is
      up; a month compared with itself shows no change. */
  lemma CompareSpec(ps: seq<Proposal>, year: int, selectedMonth: int, comparisonMonth: int)
    requires 1 <= selectedMonth <= 12 && 1 <= comparisonMonth <= 12
    ensures var c := Compare(ps, year, selectedMonth, comparisonMonth);
            c.difference == MonthlyExpense(ps, selectedMonth, year) - MonthlyExpense(ps, comparisonMonth, year)
            && (c.up <==> MonthlyExpense(ps, selectedMonth, year) >= MonthlyExpense(ps, comparisonMonth, year))
            && (c.other.expense == 0 ==> c.percentage == 0.0)
            && (c.other.expense != 0 ==> c.percentage * c.other.expense as real == c.difference as real * 100.0)
            && (c.other.expense > 0 ==> (c.percentage >= 0.0 <==> c.up))
            && (selectedMonth == comparisonMonth ==> c.difference == 0 && c.percentage == 0.0 && c.up)
  {
    var c := Compare(ps, year, selectedMonth, comparisonMonth);
    if c.other.expense != 0 {
      var d, e := c.difference as real, c.other.expense as real;
      assert c.percentage == (d / e) * 100.0;
      assert (d / e) * e == d;
      if c.other.expense > 0 {
        DivSign(d, e);
      }
    }
  }

  lemma DivSign(d: real, e: real)
    requires e > 0.0
    ensures (d / e) * 100.0 >= 0.0 <==> d >= 0.0
  {
    assert (d / e) * e == d;
    if d / e < 0.0 {
      assert (d / e) * e < 0.0;
    }
  }

  // ---------------------------------------------------------------------
  // The bar chart and the average
  // ---------------------------------------------------------------------

  /** `Math.max(...values)`. */
  function MaxOf(s: seq<int>): (m: int)
    requires |s| > 0
    ensures forall k :: 0 <= k < |s| ==> s[k] <= m
    ensures exists k :: 0 <= k < |s| && s[k] == m
  {
    if |s| == 1 then s[0]
    else
      var m := MaxOf(s[..|s| - 1]);
      assert forall k :: 0 <= k < |s| - 1 ==> s[..|s| - 1][k] == s[k];
      if s[|s| - 1] > m then s[|s| - 1] else m
  }

  function Expenses(rows: seq<MonthRow>): (e: seq<int>)
    ensures |e| == |rows| && forall k :: 0 <= k < |rows| ==> e[k] == rows[k].expense
  {
    seq(|rows|, k requires 0 <= k < |rows| => rows[k].expense)
  }

  /** `maxExpense > 0 ? (expense / maxExpense) * 100 : 0`. */
  function BarHeight(expense: int, maxExpense: int): real {
    if maxExpense > 0 then (expense as real / maxExpense as real) * 100.0 else 0.0
  }

  /** With no positive maximum every bar is flat; otherwise a month that
      spent nothing or more lies between 0 and 100, and the month with the
      largest expense reaches the top. */
  lemma BarHeights(rows: seq<MonthRow>, i: int)
    requires |rows| > 0 && 0 <= i < |rows|
    ensures var m := MaxOf(Expenses(rows));
            var h := BarHeight(rows[i].expense, m);
            (m <= 0 ==> h == 0.0)
            && (m > 0 && rows[i].expense >= 0 ==> 0.0 <= h <= 100.0)
            && (m > 0 && rows[i].expense == m ==> h == 100.0)
  {
    var m := MaxOf(Expenses(rows));
    var e := rows[i].expense;
    assert e <= m;
    if m > 0 {
      RatioBounds(e as real, m as real);
    }
  }

  lemma RatioBounds(e: real, m: real)
    requires m > 0.0 && e <= m
    ensures e >= 0.0 ==> 0.0 <= (e / m) * 100.0 <= 100.0
    ensures e == m ==> (e / m) * 100.0 == 100.0
  {
    assert (e / m) * m == e;
  }

  /** `averageMonthlyExpense`. */
  function AverageMonthlyExpense(rows: seq<MonthRow>): real {
    TotalYearExpense(rows) as real / 12.0
  }

  /** Twelve months of average make the year's total, and the average
      never exceeds the largest month. */
  lemma AverageBounds(ps: seq<Proposal>, year: int)
    ensures AverageMonthlyExpense(YearlyData(ps, year)) * 12.0 == TotalYearExpense(YearlyData(ps, year)) as real
    ensures AverageMonthlyExpense(YearlyData(ps, year)) <= MaxOf(Expenses(YearlyData(ps, year))) as real
  {
    var rows := YearlyData(ps, year);
    var m := MaxOf(Expenses(rows));
    SumAtMostMax(rows, m);
  }

  lemma {:induction false} SumAtMostMax(rows: seq<MonthRow>, m: int)
    requires forall k :: 0 <= k < |rows| ==> rows[k].expense <= m
    ensures SumBy(rows, RowExpense) <= |rows| * m
  {
    if |rows| > 0 {
      SumAtMostMax(rows[..|rows| - 1], m);
    }
  }

  // ---------------------------------------------------------------------
  // CSV download
  // ---------------------------------------------------------------------

  const Header: seq<string> := ["Bulan", "Pengeluaran (IDR)", "Jumlah Proposal"]

  function ReportRow(r: MonthRow): seq<string> {
    [r.month, IntToString(r.expense), IntToString(r.count)]
  }

  function ReportTable(rows: seq<MonthRow>): (t: seq<seq<string>>)
    ensures |t| == |rows| + 1 && t[0] == Header
    ensures forall k :: 1 <= k <= |rows| ==> t[k] == ReportRow(rows[k - 1])
  {
    [Header] + seq(|rows|, k requires 0 <= k < |rows| => ReportRow(rows[k]))
  }

  /** `handleExport`: cells joined by ",", rows by "\n", nothing quoted. */
  function ReportCsv(rows: seq<MonthRow>): string {
    Join(JoinRows(ReportTable(rows), ","), "\n")
  }

  /** Rows whose month names hold no comma or line break read back from
      the download cell by cell. */
  lemma ReportTableReadsBack(rows: seq<MonthRow>)
    requires forall k :: 0 <= k < |rows| ==> ',' !in rows[k].month && '\n' !in rows[k].month
    ensures var lines := Split(ReportCsv(rows), '\n');
            |lines| == |rows| + 1 && Split(lines[0], ',') == Header
            && forall k :: 1 <= k <= |rows| ==> Split(lines[k], ',') == ReportRow(rows[k - 1])
  {
    var table := ReportTable(rows);
    forall k, j | 0 <= k < |table| && 0 <= j < |table[k]| ensures ',' !in table[k][j] && '\n' !in table[k][j] {
      if k == 0 {
        HeaderClean();
      } else {
        RowClean(rows[k - 1]);
      }
    }
    TableReadsBack(table, ',', '\n');
  }

  lemma HeaderClean()
    ensures forall j :: 0 <= j < |Header| ==> ',' !in Header[j] && '\n' !in Header[j]
  {
  }

  /** Numbers print without a comma or a line break. */
  lemma RowClean(r: MonthRow)
    requires ',' !in r.month && '\n' !in r.month
    ensures forall j :: 0 <= j < |ReportRow(r)| ==> ',' !in ReportRow(r)[j] && '\n' !in ReportRow(r)[j]
  {
    IntToStringAvoids(r.expense, ',');
    IntToStringAvoids(r.expense, '\n');
    IntToStringAvoids(r.count, ',');
    IntToStringAvoids(r.count, '\n');
  }

  /** The download is the header and exactly twelve month rows, each of
      which reads back as the month's name, expense and count. */
  lemma ReportCsvReadsBack(ps: seq<Proposal>, year: int)
    ensures var lines := Split(ReportCsv(YearlyData(ps, year)), '\n');
            |lines| == 13 && Split(lines[0], ',') == Header
            && forall i :: 0 <= i < 12 ==>
                 Split(lines[i + 1], ',') == [MonthNames[i], IntToString(MonthlyExpense(ps, i + 1, year)),
                                              IntToString(MonthlyCount(ps, i + 1, year))]
  {
    var rows := YearlyData(ps, year);
    assert forall i :: 0 <= i < 12 ==> ',' !in MonthNames[i] && '\n' !in MonthNames[i];
    ReportTableReadsBack(rows);
    var lines := Split(ReportCsv(rows), '\n');
    forall i | 0 <= i < 12
      ensures Split(lines[i + 1], ',') == [MonthNames[i], IntToString(MonthlyExpense(ps, i + 1, year)),
                                          IntToString(MonthlyCount(ps, i + 1, year))]
    {
      assert Split(lines[i + 1], ',') == ReportRow(rows[i]);
    }
  }
}
