/** The proposal list of the dashboard page: the filter effect (search,
    status, date range, then an in-place sort), fixed-size pagination and
    the page-button window, the summary cards, the row selection, the
    column-header sort toggle, the CSV export and the case-id format. */
module Dashboard {
  import opened Dates
  import opened Records
  import opened Text
  import opened Sorting
  import opened Seqs
  import opened Proposals

  const ItemsPerPage: nat := 10

  function Min(a: int, b: int): int { if a <= b then a else b }
  function Max(a: int, b: int): int { if a >= b then a else b }

  // ---------------------------------------------------------------------
  // Filter criteria
  // ---------------------------------------------------------------------

  /** `field?.toLowerCase().includes(term.toLowerCase())`: a missing field never matches. */
  predicate FieldHas(field: Option<string>, term: string) {
    field.Some? && Contains(Lower(field.value), Lower(term))
  }

  /** The search box looks in the name, origin, PIC name, case id and product detail. */
  predicate SearchHit(term: string, p: Proposal) {
    FieldHas(p.name, term) || FieldHas(p.origin, term) || FieldHas(p.picName, term)
    || FieldHas(p.caseId, term) || FieldHas(p.detail, term)
  }

  /** The filter inputs: the search text, the status select ("all" or one
      status) and the two optional date inputs (an empty input is `None`). */
  datatype Criteria = Criteria(search: string, status: string, start: Option<Date>, end: Option<Date>)

  const NoCriteria: Criteria := Criteria("", "all", None, None)

  predicate KeepSearch(c: Criteria, p: Proposal) {
    |c.search| > 0 ==> SearchHit(c.search, p)
  }

  predicate KeepStatus(c: Criteria, p: Proposal) {
    c.status != "all" ==> p.status == c.status
  }

  /** `start <= date` and `date <= end` with the end taken to its last
      millisecond: at day granularity, an inclusive range. */
  predicate KeepDates(c: Criteria, p: Proposal) {
    (c.start.Some? ==> Le(c.start.value, p.entryDate))
    && (c.end.Some? ==> Le(p.entryDate, c.end.value))
  }

  /** A proposal the list shows under criteria `c`. */
  predicate Keep(c: Criteria, p: Proposal) {
    KeepSearch(c, p) && KeepStatus(c, p) && KeepDates(c, p)
  }

  function KeepFilter(c: Criteria): Proposal -> bool {
    p => Keep(c, p)
  }

  /** The proposals that pass every active criterion, in load order. */
  function Selected(ps: seq<Proposal>, c: Criteria): seq<Proposal> {
    Filter(ps, KeepFilter(c))
  }

  lemma SelectedMembers(ps: seq<Proposal>, c: Criteria)
    ensures forall p :: p in Selected(ps, c) <==> p in ps && Keep(c, p)
  {
    FilterMembers(ps, KeepFilter(c));
  }

  /** An empty search, status "all" and no dates keep every proposal. */
  lemma NoCriteriaKeepsAll(ps: seq<Proposal>)
    ensures Selected(ps, NoCriteria) == ps
  {
    FilterAll(ps, KeepFilter(NoCriteria));
  }

  // The single-criterion filters the effect applies one after another.

  function SearchFilter(term: string): Proposal -> bool {
    p => SearchHit(term, p)
  }

  function StatusFilter(status: string): Proposal -> bool {
    (p: Proposal) => p.status == status
  }

  function BetweenFilter(start: Date, end: Date): Proposal -> bool {
    (p: Proposal) => Le(start, p.entryDate) && Le(p.entryDate, end)
  }

  function FromFilter(start: Date): Proposal -> bool {
    (p: Proposal) => Le(start, p.entryDate)
  }

  function UntilFilter(end: Date): Proposal -> bool {
    (p: Proposal) => Le(p.entryDate, end)
  }

  function UpToSearch(c: Criteria): Proposal -> bool {
    p => KeepSearch(c, p)
  }

  function UpToStatus(c: Criteria): Proposal -> bool {
    p => KeepSearch(c, p) && KeepStatus(c, p)
  }

  // ---------------------------------------------------------------------
  // Sort keys
  // ---------------------------------------------------------------------

  /** The sortable columns: "case_id", "nama", "total_harga",
      "status_pengambilan", "pic" and "tanggal". */
  datatype SortField = CaseIdField | NameField | TotalPriceField | StatusField | PicField | DateField

  datatype Order = Asc | Desc

  function OptText(o: Option<string>): string {
    if o.Some? then o.value else ""
  }

  function TextKey(s: string): seq<int> {
    CharCodes(Lower(s))
  }

  /** The comparator's value for `p`: text columns lower-cased, the date as
      (year, month, day), the amount as `parseFloat(total_harga || 0)`. */
  function SortKeyOf(field: SortField, p: Proposal): seq<int> {
    match field
    case CaseIdField => TextKey(OptText(p.caseId))
    case NameField => TextKey(OptText(p.name))
    case TotalPriceField => [AmountOrZero(p.totalPrice)]
    case StatusField => TextKey(p.status)
    case PicField => TextKey(OptText(p.picName))
    case DateField => [p.entryDate.year, p.entryDate.month, p.entryDate.day]
  }

  function SortKey(field: SortField): Proposal -> seq<int> {
    p => SortKeyOf(field, p)
  }

  /** The filter effect: narrows a copy of the proposals criterion by
      criterion and sorts the result in place. The output is a permutation
      of the selected proposals, ordered by the chosen column. */
  method FilterAndSort(ps: seq<Proposal>, c: Criteria, field: SortField, order: Order)
    returns (r: seq<Proposal>)
    ensures multiset(r) == multiset(Selected(ps, c))
    ensures SortedBy(r, SortKey(field), order == Desc)
  {
    var filtered := NarrowBySearchAndStatus(ps, c);
    filtered := NarrowByDates(ps, c, filtered);
    var a := new Proposal[|filtered|](i requires 0 <= i < |filtered| => filtered[i]);
    assert a[..] == filtered;
    SortInPlace(a, SortKey(field), order == Desc);
    r := a[..];
  }

  /** The search step and then the status step of the effect. */
  method NarrowBySearchAndStatus(ps: seq<Proposal>, c: Criteria) returns (filtered: seq<Proposal>)
    ensures filtered == Filter(ps, UpToStatus(c))
  {
    filtered := ps;
    if |c.search| > 0 {
      filtered := Filter(filtered, SearchFilter(c.search));
      FilterCongruent(ps, SearchFilter(c.search), UpToSearch(c));
    } else {
      FilterAll(ps, UpToSearch(c));
    }
    assert filtered == Filter(ps, UpToSearch(c));
    if c.status != "all" {
      filtered := Filter(filtered, StatusFilter(c.status));
      FilterThen(ps, UpToSearch(c), StatusFilter(c.status), UpToStatus(c));
    } else {
      FilterCongruent(ps, UpToSearch(c), UpToStatus(c));
    }
  }

  /** The date step of the effect: both bounds, the start only, or the end only. */
  method NarrowByDates(ps: seq<Proposal>, c: Criteria, sofar: seq<Proposal>) returns (filtered: seq<Proposal>)
    requires sofar == Filter(ps, UpToStatus(c))
    ensures filtered == Selected(ps, c)
  {
    filtered := sofar;
    if c.start.Some? && c.end.Some? {
      filtered := Filter(filtered, BetweenFilter(c.start.value, c.end.value));
      FilterThen(ps, UpToStatus(c), BetweenFilter(c.start.value, c.end.value), KeepFilter(c));
    } else if c.start.Some? {
      filtered := Filter(filtered, FromFilter(c.start.value));
      FilterThen(ps, UpToStatus(c), FromFilter(c.start.value), KeepFilter(c));
    } else if c.end.Some? {
      filtered := Filter(filtered, UntilFilter(c.end.value));
      FilterThen(ps, UpToStatus(c), UntilFilter(c.end.value), KeepFilter(c));
    } else {
      FilterCongruent(ps, UpToStatus(c), KeepFilter(c));
    }
  }

  // ---------------------------------------------------------------------
  // Pagination
  // ---------------------------------------------------------------------

  /** `Math.ceil(n / itemsPerPage)`. */
  function TotalPages(n: nat): (t: nat)
    ensures t == 0 <==> n == 0
    ensures n > 0 ==> (t - 1) * ItemsPerPage < n <= t * ItemsPerPage
  {
    (n + ItemsPerPage - 1) / ItemsPerPage
  }

  /** `slice((page - 1) * 10, page * 10)`: the items of page `page`. */
  function PageItems<T>(s: seq<T>, page: int): (r: seq<T>)
    requires page >= 1
    ensures |r| <= ItemsPerPage
    ensures |r| == Max(0, Min(ItemsPerPage, |s| - (page - 1) * ItemsPerPage))
    ensures forall k :: 0 <= k < |r| ==> r[k] == s[(page - 1) * ItemsPerPage + k]
  {
    s[Min((page - 1) * ItemsPerPage, |s|)..Min(page * ItemsPerPage, |s|)]
  }

  /** Pages 1..count one after another. */
  function Pages<T>(s: seq<T>, count: nat): seq<T> {
    if count == 0 then [] else Pages(s, count - 1) + PageItems(s, count)
  }

  lemma {:induction false} PagesPrefix<T>(s: seq<T>, count: nat)
    ensures Pages(s, count) == s[..Min(count * ItemsPerPage, |s|)]
  {
    if count > 0 {
      PagesPrefix(s, count - 1);
      var lo, hi := Min((count - 1) * ItemsPerPage, |s|), Min(count * ItemsPerPage, |s|);
      assert s[..hi] == s[..lo] + s[lo..hi];
    }
  }

  /** The pages together are the whole list, in order. */
  lemma PagesCover<T>(s: seq<T>)
    ensures Pages(s, TotalPages(|s|)) == s
  {
    PagesPrefix(s, TotalPages(|s|));
  }

  /** Every page the pager offers holds at least one item. */
  lemma PageNonEmpty<T>(s: seq<T>, page: int)
    requires 1 <= page <= TotalPages(|s|)
    ensures 0 < |PageItems(s, page)|
  {
  }

  /** The "previous" button: `Math.max(prev - 1, 1)`. */
  function PrevPage(page: int): (r: int)
    ensures page >= 1 ==> 1 <= r <= page
    ensures page > 1 ==> r == page - 1
  {
    Max(page - 1, 1)
  }

  /** The "next" button: `Math.min(prev + 1, totalPages)`. */
  function NextPage(page: int, total: int): (r: int)
    ensures 1 <= page <= total ==> page <= r <= total
    ensures page < total ==> r == page + 1
  {
    Min(page + 1, total)
  }

  /** One slot of the pager: a numbered button or an ellipsis. */
  datatype PagerItem = PageButton(page: int) | Gap(page: int)

  function ItemPage(i: PagerItem): int { i.page }

  /** Page `p` gets a button when it is the first, the last or next to
      the current page, an ellipsis two away from it, and otherwise nothing. */
  function PagerEntry(current: int, total: int, p: int): Option<PagerItem> {
    if p == 1 || p == total || (current - 1 <= p <= current + 1) then Some(PageButton(p))
    else if p == current - 2 || p == current + 2 then Some(Gap(p))
    else None
  }

  function PagerUpTo(current: int, total: int, upto: nat): seq<PagerItem> {
    if upto == 0 then []
    else
      var e := PagerEntry(current, total, upto);
      PagerUpTo(current, total, upto - 1) + (if e.Some? then [e.value] else [])
  }

  /** The buttons rendered for pages 1..total. */
  function Pager(current: int, total: nat): seq<PagerItem> {
    PagerUpTo(current, total, total)
  }

  lemma {:induction false} PagerUpToMembers(current: int, total: int, upto: nat)
    ensures forall i :: i in PagerUpTo(current, total, upto)
                        <==> 1 <= i.page <= upto && PagerEntry(current, total, i.page) == Some(i)
  {
    if upto > 0 {
      PagerUpToMembers(current, total, upto - 1);
    }
  }

  lemma {:induction false} PagerUpToIncreasing(current: int, total: int, upto: nat)
    ensures IncreasingBy(PagerUpTo(current, total, upto), ItemPage)
  {
    if upto > 0 {
      PagerUpToIncreasing(current, total, upto - 1);
      PagerUpToMembers(current, total, upto - 1);
      var init := PagerUpTo(current, total, upto - 1);
      var e := PagerEntry(current, total, upto);
      var r := PagerUpTo(current, total, upto);
      assert r == init + (if e.Some? then [e.value] else []);
      forall i, j | 0 <= i < j < |r| ensures ItemPage(r[i]) < ItemPage(r[j]) {
        if j >= |init| {
          assert r[i] == init[i] && r[i] in init;
          assert r[j] == e.value;
        } else {
          assert r[i] == init[i] && r[j] == init[j];
        }
      }
    }
  }

  /** Exactly the pages the window rule selects appear, as buttons or ellipses. */
  lemma PagerMembers(current: int, total: nat)
    ensures forall p :: PageButton(p) in Pager(current, total)
                        <==> 1 <= p <= total && (p == 1 || p == total || current - 1 <= p <= current + 1)
    ensures forall p :: Gap(p) in Pager(current, total)
                        <==> 1 <= p <= total && p != 1 && p != total
                             && !(current - 1 <= p <= current + 1) && (p == current - 2 || p == current + 2)
  {
    PagerUpToMembers(current, total, total);
  }

  /** The first page, the last page and the current page always have a button. */
  lemma PagerShowsEnds(current: int, total: nat)
    requires 1 <= current <= total
    ensures PageButton(1) in Pager(current, total)
    ensures PageButton(total) in Pager(current, total)
    ensures PageButton(current) in Pager(current, total)
  {
    PagerMembers(current, total);
  }

  /** The pager lists pages in increasing order and never more than seven slots. */
  lemma PagerShape(current: int, total: nat)
    ensures IncreasingBy(Pager(current, total), ItemPage)
    ensures |Pager(current, total)| <= 7
  {
    var r := Pager(current, total);
    PagerUpToIncreasing(current, total, total);
    PagerUpToMembers(current, total, total);
    IncreasingCard(r, ItemPage);
    var allowed := {1, total, current - 2, current - 1, current, current + 1, current + 2};
    forall n | n in KeySet(r, ItemPage) ensures n in allowed {
      var k :| 0 <= k < |r| && ItemPage(r[k]) == n;
      assert r[k] in r;
    }
    assert KeySet(r, ItemPage) <= allowed;
    SubsetCard(KeySet(r, ItemPage), allowed);
  }

  lemma SubsetCard(a: set<int>, b: set<int>)
    requires a <= b
    ensures |a| <= |b|
  {
    assert b == a + (b - a);
  }

  // ---------------------------------------------------------------------
  // Selection
  // ---------------------------------------------------------------------

  function Other(id: int): int -> bool {
    x => x != id
  }

  /** The row checkbox: removes the id when it is selected, appends it otherwise. */
  function Toggle(selected: seq<int>, id: int): (r: seq<int>)
    ensures forall x :: x in r <==> (x in selected) != (x == id)
    ensures Distinct(selected) ==> Distinct(r)
  {
    FilterMembers(selected, Other(id));
    if id in selected then
      if Distinct(selected) then FilterDistinct(selected, Other(id)); Filter(selected, Other(id))
      else Filter(selected, Other(id))
    else selected + [id]
  }

  /** Toggling an unselected id twice restores the selection exactly. */
  lemma ToggleTwice(selected: seq<int>, id: int)
    requires id !in selected
    ensures Toggle(Toggle(selected, id), id) == selected
  {
    var t := selected + [id];
    FilterAll(selected, Other(id));
    FilterAppend(selected, [id], Other(id));
    assert Filter([id], Other(id)) == [];
  }

  /** Toggling any id twice restores which ids are selected. */
  lemma ToggleTwiceMembers(selected: seq<int>, id: int)
    ensures forall x :: x in Toggle(Toggle(selected, id), id) <==> x in selected
  {
  }

  /** The ids of the rows on the current page. */
  function PageIds(items: seq<Proposal>): (r: seq<int>)
    ensures |r| == |items|
    ensures forall k :: 0 <= k < |items| ==> r[k] == items[k].id
  {
    seq(|items|, k requires 0 <= k < |items| => items[k].id)
  }

  /** Every row of a non-empty page is selected. */
  predicate AllOnPageSelected(selected: seq<int>, pageIds: seq<int>) {
    |pageIds| > 0 && forall k :: 0 <= k < |pageIds| ==> pageIds[k] in selected
  }

  /** The header checkbox as written: it compares only the number of
      selected ids with the number of rows on the page. */
  predicate HeaderCheckedAsWritten(selected: seq<int>, pageIds: seq<int>) {
    |selected| == |pageIds| && |pageIds| > 0
  }

  /** `handleSelectAll` as written: clears the selection when it is as long
      as the page, otherwise selects exactly the page. */
  function SelectAllAsWritten(selected: seq<int>, pageIds: seq<int>): (r: seq<int>)
    ensures |selected| == |pageIds| ==> r == []
    ensures |selected| != |pageIds| ==> r == pageIds
  {
    if |selected| == |pageIds| then [] else pageIds
  }

  /** With ten ids selected on page 1 and page 2 showing ten other rows, the
      header box shows checked and a click clears everything instead of
      selecting page 2. */
  lemma SelectAllAsWrittenMisfires()
    ensures var sel, page := [1, 2, 3, 4, 5, 6, 7, 8, 9, 10], [11, 12, 13, 14, 15, 16, 17, 18, 19, 20];
            HeaderCheckedAsWritten(sel, page) && !AllOnPageSelected(sel, page)
            && SelectAllAsWritten(sel, page) == [] && !AllOnPageSelected(SelectAllAsWritten(sel, page), page)
  {
    var sel, page := [1, 2, 3, 4, 5, 6, 7, 8, 9, 10], [11, 12, 13, 14, 15, 16, 17, 18, 19, 20];
    assert page[0] !in sel;
  }

  /** The select-all box as intended: it clears the selection when every
      row of the page is already selected and otherwise selects the page. */
  function SelectAll(selected: seq<int>, pageIds: seq<int>): (r: seq<int>)
    ensures r == [] || r == pageIds
  {
    if AllOnPageSelected(selected, pageIds) then [] else pageIds
  }

  /** On a non-empty page the corrected box flips "the whole page is selected". */
  lemma SelectAllFlips(selected: seq<int>, pageIds: seq<int>)
    requires |pageIds| > 0
    ensures AllOnPageSelected(SelectAll(selected, pageIds), pageIds) <==> !AllOnPageSelected(selected, pageIds)
  {
    if !AllOnPageSelected(selected, pageIds) {
      assert forall k :: 0 <= k < |pageIds| ==> pageIds[k] in pageIds;
    } else {
      assert pageIds[0] !in [];
    }
  }

  // ---------------------------------------------------------------------
  // Column-header sort toggle
  // ---------------------------------------------------------------------

  function Flip(o: Order): Order {
    if o == Asc then Desc else Asc
  }

  /** `handleSort(key)`: the current column flips its order, a new column starts ascending. */
  function HandleSort(sortBy: SortField, order: Order, key: SortField): (r: (SortField, Order))
    ensures r.0 == key
    ensures key == sortBy ==> r.1 != order
    ensures key != sortBy ==> r.1 == Asc
  {
    if sortBy == key then (sortBy, Flip(order)) else (key, Asc)
  }

  /** Two clicks on the current column restore the order; two on a new column end descending. */
  lemma HandleSortTwice(sortBy: SortField, order: Order, key: SortField)
    ensures var once := HandleSort(sortBy, order, key);
            HandleSort(once.0, once.1, key) == if key == sortBy then (sortBy, order) else (key, Desc)
  {
  }

  // ---------------------------------------------------------------------
  // Summary cards
  // ---------------------------------------------------------------------

  datatype Summary = Summary(total: nat, inProgress: nat, ready: nat, done: nat, budget: Option<int>)

  function HasStatus(status: string): Proposal -> bool {
    (p: Proposal) => p.status == status
  }

  /** `reduce((sum, p) => sum + parseFloat(p.total_harga || 0), 0)`: NaN
      (`None`) once any amount is unreadable. */
  function TotalBudget(ps: seq<Proposal>): Option<int> {
    if |ps| == 0 then Some(0)
    else
      var before, a := TotalBudget(ps[..|ps| - 1]), ParsedOrNaN(ps[|ps| - 1].totalPrice);
      if before.Some? && a.Some? then Some(before.value + a.value) else None
  }

  /** The budget is a number exactly when every amount is readable, and then
      it is the sum of the amounts. */
  lemma {:induction false} TotalBudgetSpec(ps: seq<Proposal>)
    ensures TotalBudget(ps).Some? <==> forall k :: 0 <= k < |ps| ==> !ps[k].totalPrice.NotANumber?
    ensures TotalBudget(ps).Some? ==> TotalBudget(ps).value == SumBy(ps, Price)
  {
    if |ps| > 0 {
      var init := ps[..|ps| - 1];
      TotalBudgetSpec(init);
      if TotalBudget(init).None? {
        var k :| 0 <= k < |init| && init[k].totalPrice.NotANumber?;
        assert ps[k] == init[k];
      }
    }
  }

  /** `summaryData`, over all loaded proposals (not only the filtered ones). */
  function SummaryOf(ps: seq<Proposal>): (r: Summary)
    ensures r.total == |ps|
    ensures r.inProgress + r.ready + r.done <= r.total
    ensures r.inProgress == |Filter(ps, HasStatus("In Progress"))|
    ensures r.ready == |Filter(ps, HasStatus("Siap Diambil"))|
    ensures r.done == |Filter(ps, HasStatus("Done"))|
  {
    FilterDisjoint3(ps, HasStatus("In Progress"), HasStatus("Siap Diambil"), HasStatus("Done"));
    Summary(|ps|, |Filter(ps, HasStatus("In Progress"))|, |Filter(ps, HasStatus("Siap Diambil"))|,
            |Filter(ps, HasStatus("Done"))|, TotalBudget(ps))
  }

  // ---------------------------------------------------------------------
  // CSV export
  // ---------------------------------------------------------------------

  const CsvHeader: seq<string> :=
    ["Case ID", "Nama Proposal", "Asal", "Status", "PIC", "Tanggal", "Bentuk Donasi", "Jumlah", "Total Harga"]

  /** A number cell as `Array.join` renders it; a missing value renders empty. */
  function OptIntText(o: Option<int>): string {
    if o.Some? then IntToString(o.value) else ""
  }

  function AmountText(a: Amount): string {
    match a
    case Blank => ""
    case Number(v) => IntToString(v)
    case NotANumber(t) => t
  }

  /** The nine cells of a proposal's row; `formatDate` stands for
      `toLocaleDateString("id-ID")`. */
  function CsvRow(p: Proposal, formatDate: Date -> string): (cells: seq<string>)
    ensures |cells| == |CsvHeader|
    ensures cells[0] == OptText(p.caseId) && cells[1] == OptText(p.name) && cells[2] == OptText(p.origin)
    ensures cells[3] == p.status && cells[4] == OptText(p.picName) && cells[5] == formatDate(p.entryDate)
    ensures cells[6] == OptText(p.donationForm) && cells[7] == OptIntText(p.productCount)
    ensures cells[8] == AmountText(p.totalPrice)
  {
    [OptText(p.caseId), OptText(p.name), OptText(p.origin), p.status, OptText(p.picName),
     formatDate(p.entryDate), OptText(p.donationForm), OptIntText(p.productCount), AmountText(p.totalPrice)]
  }

  /** The header row followed by one row per filtered proposal, in order. */
  function CsvTable(ps: seq<Proposal>, formatDate: Date -> string): (rows: seq<seq<string>>)
    ensures |rows| == |ps| + 1
    ensures rows[0] == CsvHeader
    ensures forall k :: 0 <= k < |ps| ==> rows[k + 1] == CsvRow(ps[k], formatDate)
  {
    [CsvHeader] + seq(|ps|, k requires 0 <= k < |ps| => CsvRow(ps[k], formatDate))
  }

  /** `rows.map(row => row.join(",")).join("\n")`. */
  function CsvContent(ps: seq<Proposal>, formatDate: Date -> string): string {
    Join(JoinRows(CsvTable(ps, formatDate), ","), "\n")
  }

  predicate CleanCell(cell: string) {
    ',' !in cell && '\n' !in cell
  }

  lemma HeaderClean()
    ensures forall j :: 0 <= j < |CsvHeader| ==> CleanCell(CsvHeader[j])
  {
  }

  /** When no cell holds a comma or a line break, the file reads back as the
      header and then each filtered proposal's nine cells, in order. */
  lemma CsvReadsBack(ps: seq<Proposal>, formatDate: Date -> string)
    requires forall k, j :: 0 <= k < |ps| && 0 <= j < |CsvHeader| ==> CleanCell(CsvRow(ps[k], formatDate)[j])
    ensures |Split(CsvContent(ps, formatDate), '\n')| == |ps| + 1
    ensures Split(Split(CsvContent(ps, formatDate), '\n')[0], ',') == CsvHeader
    ensures forall k :: 0 <= k < |ps| ==> Split(Split(CsvContent(ps, formatDate), '\n')[k + 1], ',') == CsvRow(ps[k], formatDate)
  {
    var rows := CsvTable(ps, formatDate);
    HeaderClean();
    forall k, j | 0 <= k < |rows| && 0 <= j < |rows[k]| ensures ',' !in rows[k][j] && '\n' !in rows[k][j] {
      if k > 0 {
        assert rows[k] == CsvRow(ps[k - 1], formatDate);
      }
    }
    TableReadsBack(rows, ',', '\n');
    forall k | 0 <= k < |ps| ensures Split(Split(CsvContent(ps, formatDate), '\n')[k + 1], ',') == CsvRow(ps[k], formatDate) {
      assert rows[k + 1] == CsvRow(ps[k], formatDate);
    }
  }

  // ---------------------------------------------------------------------
  // Case ids
  // ---------------------------------------------------------------------

  /** `CSR-<year>-<three digits>` from the current year and a random number in 0..999. */
  function CaseId(year: int, random: int): (id: string)
    requires 0 <= random < 1000
    ensures |id| > 4 && id[..4] == "CSR-"
  {
    "CSR-" + IntToString(year) + "-" + PadStart(NatToString(random), 3, '0')
  }

  /** A case id splits at '-' into "CSR", the year and a three-digit field
      that reads back as the random number. */
  lemma CaseIdReadsBack(year: nat, random: int)
    requires 0 <= random < 1000
    ensures var parts := Split(CaseId(year, random), '-');
            |parts| == 3 && parts[0] == "CSR" && parts[1] == NatToString(year)
            && |parts[2]| == 3
            && (forall i :: 0 <= i < 3 ==> IsDigit(parts[2][i]))
            && DigitsValue(parts[2]) == random
  {
    var digits := PadStart(NatToString(random), 3, '0');
    SmallNatLength(random);
    PadStartValue(random, 3);
    CaseIdCells(year, random);
    DigitsAvoid(digits, '-');
    DigitsAvoid(NatToString(year), '-');
    SplitJoin(["CSR", NatToString(year), digits], '-');
  }

  /** The case id is its three fields joined with '-'. */
  lemma CaseIdCells(year: nat, random: int)
    requires 0 <= random < 1000
    ensures CaseId(year, random) == Join(["CSR", NatToString(year), PadStart(NatToString(random), 3, '0')], "-")
  {
    JoinThree("CSR", NatToString(year), PadStart(NatToString(random), 3, '0'), "-");
    assert "CSR" + "-" == "CSR-";
  }

  // ---------------------------------------------------------------------
  // The page state
  // ---------------------------------------------------------------------

  /** What the list is computed from: the loaded proposals, the filter
      inputs and the sort column and direction. */
  datatype ViewInputs = ViewInputs(proposals: seq<Proposal>, criteria: Criteria, sortBy: SortField, sortOrder: Order)

  /** The dashboard's list state: the loaded proposals, the filter inputs,
      the sort column and order, the filtered list, the current page and
      the selected ids. */
  class DashboardView {
    var proposals: seq<Proposal>
    var search: string
    var statusFilter: string
    var start: Option<Date>
    var end: Option<Date>
    var sortBy: SortField
    var sortOrder: Order
    var filtered: seq<Proposal>
    var currentPage: int
    var selected: seq<int>

    function CriteriaNow(): Criteria
      reads this
    {
      Criteria(search, statusFilter, start, end)
    }

    function Inputs(): ViewInputs
      reads this
    {
      ViewInputs(proposals, CriteriaNow(), sortBy, sortOrder)
    }

    /** The filtered list is the effect's result for the current inputs, the
        page lies within the pager's range. */
    predicate Valid()
      reads this
    {
      multiset(filtered) == multiset(Selected(proposals, CriteriaNow()))
      && SortedBy(filtered, SortKey(sortBy), sortOrder == Desc)
      && 1 <= currentPage <= Max(1, TotalPages(|filtered|))
    }

    /** The initial state: no filters, newest first, page 1, nothing selected. */
    constructor(ps: seq<Proposal>)
      ensures Valid()
      ensures proposals == ps && CriteriaNow() == NoCriteria
      ensures sortBy == DateField && sortOrder == Desc
      ensures currentPage == 1 && selected == []
    {
      proposals := ps;
      search := "";
      statusFilter := "all";
      start := None;
      end := None;
      sortBy := DateField;
      sortOrder := Desc;
      filtered := [];
      currentPage := 1;
      selected := [];
      new;
      ApplyFilters();
    }

    /** The effect that runs whenever the proposals or a filter input change. */
    method ApplyFilters()
      modifies this
      ensures Valid() && currentPage == 1
      ensures proposals == old(proposals) && CriteriaNow() == old(CriteriaNow())
      ensures sortBy == old(sortBy) && sortOrder == old(sortOrder) && selected == old(selected)
    {
      filtered := FilterAndSort(proposals, CriteriaNow(), sortBy, sortOrder);
      currentPage := 1;
    }

    /** The rows of the current page. */
    function CurrentItems(): (items: seq<Proposal>)
      requires Valid()
      reads this
      ensures |items| <= ItemsPerPage
    {
      PageItems(filtered, currentPage)
    }

    method SetProposals(ps: seq<Proposal>)
      requires Valid()
      modifies this
      ensures Valid() && currentPage == 1
      ensures Inputs() == old(Inputs()).(proposals := ps) && selected == old(selected)
    {
      proposals := ps;
      ApplyFilters();
    }

    method SetSearch(term: string)
      requires Valid()
      modifies this
      ensures Valid() && currentPage == 1
      ensures Inputs() == old(Inputs()).(criteria := old(CriteriaNow()).(search := term))
      ensures selected == old(selected)
    {
      search := term;
      ApplyFilters();
    }

    method SetStatusFilter(status: string)
      requires Valid()
      modifies this
      ensures Valid() && currentPage == 1
      ensures Inputs() == old(Inputs()).(criteria := old(CriteriaNow()).(status := status))
      ensures selected == old(selected)
    {
      statusFilter := status;
      ApplyFilters();
    }

    /** Either date input; `clearDateFilter` sets both to `None`. */
    method SetDateRange(from: Option<Date>, until: Option<Date>)
      requires Valid()
      modifies this
      ensures Valid() && currentPage == 1
      ensures Inputs() == old(Inputs()).(criteria := old(CriteriaNow()).(start := from, end := until))
      ensures selected == old(selected)
    {
      start := from;
      end := until;
      ApplyFilters();
    }

    /** The sort select sets column and order directly. */
    method SetSort(field: SortField, order: Order)
      requires Valid()
      modifies this
      ensures Valid() && currentPage == 1
      ensures sortBy == field && sortOrder == order
      ensures proposals == old(proposals) && CriteriaNow() == old(CriteriaNow()) && selected == old(selected)
    {
      sortBy := field;
      sortOrder := order;
      ApplyFilters();
    }

    /** A click on a column header. */
    method ClickSort(key: SortField)
      requires Valid()
      modifies this
      ensures Valid() && currentPage == 1
      ensures (sortBy, sortOrder) == HandleSort(old(sortBy), old(sortOrder), key)
      ensures proposals == old(proposals) && CriteriaNow() == old(CriteriaNow()) && selected == old(selected)
    {
      var next := HandleSort(sortBy, sortOrder, key);
      sortBy := next.0;
      sortOrder := next.1;
      ApplyFilters();
    }

    method SelectProposal(id: int)
      requires Valid()
      modifies this
      ensures Valid()
      ensures selected == Toggle(old(selected), id)
      ensures Distinct(old(selected)) ==> Distinct(selected)
      ensures Inputs() == old(Inputs()) && filtered == old(filtered) && currentPage == old(currentPage)
    {
      selected := Toggle(selected, id);
    }

    /** The header checkbox as the page has it: it compares only the number
        of selected ids with the number of rows on the page. */
    method ClickSelectAll()
      requires Valid()
      modifies this
      ensures Valid()
      ensures selected == SelectAllAsWritten(old(selected), PageIds(old(CurrentItems())))
      ensures Inputs() == old(Inputs()) && filtered == old(filtered) && currentPage == old(currentPage)
    {
      selected := SelectAllAsWritten(selected, PageIds(CurrentItems()));
    }

    /** The header checkbox as intended: it clears the selection exactly when
        every row of the page is selected, and otherwise selects the page. */
    method ClickSelectAllCorrected()
      requires Valid()
      modifies this
      ensures Valid()
      ensures selected == SelectAll(old(selected), PageIds(old(CurrentItems())))
      ensures Inputs() == old(Inputs()) && filtered == old(filtered) && currentPage == old(currentPage)
    {
      selected := SelectAll(selected, PageIds(CurrentItems()));
    }

    method GoPrev()
      requires Valid()
      modifies this
      ensures Valid()
      ensures currentPage == PrevPage(old(currentPage))
      ensures Inputs() == old(Inputs()) && filtered == old(filtered) && selected == old(selected)
    {
      currentPage := PrevPage(currentPage);
    }

    /** The "next" button, shown only when there is more than one page. */
    method GoNext()
      requires Valid() && TotalPages(|filtered|) > 1
      modifies this
      ensures Valid()
      ensures currentPage == NextPage(old(currentPage), TotalPages(|filtered|))
      ensures Inputs() == old(Inputs()) && filtered == old(filtered) && selected == old(selected)
    {
      currentPage := NextPage(currentPage, TotalPages(|filtered|));
    }

    /** A numbered pager button. */
    method GoTo(page: int)
      requires Valid() && PageButton(page) in Pager(currentPage, TotalPages(|filtered|))
      modifies this
      ensures Valid()
      ensures currentPage == page
      ensures Inputs() == old(Inputs()) && filtered == old(filtered) && selected == old(selected)
    {
      PagerMembers(currentPage, TotalPages(|filtered|));
      currentPage := page;
    }
  }
}
