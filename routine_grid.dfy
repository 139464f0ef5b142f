/** The yearly routine grid page: one row per stakeholder with its
    schedules of the selected year (as `/schedules/by-stakeholder` sends
    them), the month buckets, the analytics panel, the stakeholder filter
    and sort, the sequential bulk status change, the CSV export and the
    month prompt of the generate button. */
module RoutineGrid {
  import opened Dates
  import opened Records
  import opened Text
  import opened Sorting
  import opened Seqs
  import opened RoutineController

  // ---------------------------------------------------------------------
  // Month buckets
  // ---------------------------------------------------------------------

  function PickupMonth(r: Schedule): int {
    r.pickupDate.month
  }

  /** `getMonthSchedules(schedules, month)`. */
  function MonthSchedules(rs: seq<Schedule>, month: int): seq<Schedule> {
    Filter(rs, KeyIs(PickupMonth, month))
  }

  /** A bucket holds exactly the schedules of that month, in their original order. */
  lemma MonthSchedulesSpec(rs: seq<Schedule>, month: int)
    ensures forall r :: r in MonthSchedules(rs, month) <==> r in rs && r.pickupDate.month == month
    ensures forall a, b :: rs == a + b ==> MonthSchedules(rs, month) == MonthSchedules(a, month) + MonthSchedules(b, month)
  {
    FilterMembers(rs, KeyIs(PickupMonth, month));
    forall r ensures r in MonthSchedules(rs, month) <==> r in rs && r.pickupDate.month == month {
      assert PickupMonth(r) == r.pickupDate.month;
    }
    forall a, b | rs == a + b
      ensures MonthSchedules(rs, month) == MonthSchedules(a, month) + MonthSchedules(b, month)
    {
      FilterAppend(a, b, KeyIs(PickupMonth, month));
    }
  }

  /** The twelve buckets of valid dates together hold every schedule once. */
  lemma MonthsPartition(rs: seq<Schedule>)
    requires forall k :: 0 <= k < |rs| ==> IsValid(rs[k].pickupDate)
    ensures CountUpTo(rs, PickupMonth, 12) == |rs|
  {
    BucketsAddUp(rs, PickupMonth, PickupMonth, 12);
    forall k | 0 <= k < |rs| ensures KeyBetween(PickupMonth, 1, 12)(rs[k]) {
      assert PickupMonth(rs[k]) == rs[k].pickupDate.month && IsValid(rs[k].pickupDate);
    }
    FilterAll(rs, KeyBetween(PickupMonth, 1, 12));
  }

  // ---------------------------------------------------------------------
  // Analytics
  // ---------------------------------------------------------------------

  /** The counters `calculateAnalytics` keeps over the schedules. */
  datatype Tally = Tally(total: nat, completed: nat, scheduled: nat, pending: nat, cancelled: nat, quantity: int)

  const NoTally: Tally := Tally(0, 0, 0, 0, 0, 0)

  /** One pass of the inner `forEach`: count it, add its quantity, bump its status. */
  function Count(t: Tally, r: Schedule): Tally {
    var t1 := t.(total := t.total + 1, quantity := t.quantity + r.quantity);
    match r.status
    case Completed => t1.(completed := t.completed + 1)
    case Scheduled => t1.(scheduled := t.scheduled + 1)
    case Pending => t1.(pending := t.pending + 1)
    case Cancelled => t1.(cancelled := t.cancelled + 1)
  }

  function TallyOf(rs: seq<Schedule>): Tally {
    if |rs| == 0 then NoTally else Count(TallyOf(rs[..|rs| - 1]), rs[|rs| - 1])
  }

  function StatusIs(st: Status): Schedule -> bool {
    (r: Schedule) => r.status == st
  }

  function Quantity(r: Schedule): int {
    r.quantity
  }

  /** The tally counts the schedules, those of each status, and adds up the quantities. */
  lemma {:induction false} TallySpec(rs: seq<Schedule>)
    ensures TallyOf(rs).total == |rs|
    ensures TallyOf(rs).completed == |Filter(rs, StatusIs(Completed))|
    ensures TallyOf(rs).scheduled == |Filter(rs, StatusIs(Scheduled))|
    ensures TallyOf(rs).pending == |Filter(rs, StatusIs(Pending))|
    ensures TallyOf(rs).cancelled == |Filter(rs, StatusIs(Cancelled))|
    ensures TallyOf(rs).quantity == SumBy(rs, Quantity)
  {
    if |rs| > 0 {
      TallySpec(rs[..|rs| - 1]);
    }
  }

  /** Every schedule has exactly one of the four statuses, so the status
      counters add up to the total. */
  lemma {:induction false} TallyPartition(rs: seq<Schedule>)
    ensures TallyOf(rs).completed + TallyOf(rs).scheduled + TallyOf(rs).pending + TallyOf(rs).cancelled
            == TallyOf(rs).total
  {
    if |rs| > 0 {
      TallyPartition(rs[..|rs| - 1]);
    }
  }

  /** The schedules of all rows, row after row. */
  function Flatten(data: seq<Grouped>): seq<Schedule> {
    if |data| == 0 then [] else Flatten(data[..|data| - 1]) + data[|data| - 1].schedules
  }

  function ScheduleCount(g: Grouped): int {
    |g.schedules|
  }

  /** `totalSchedules` is the sum of the rows' schedule counts. */
  lemma {:induction false} FlattenLength(data: seq<Grouped>)
    ensures |Flatten(data)| == SumBy(data, ScheduleCount)
  {
    if |data| > 0 {
      FlattenLength(data[..|data| - 1]);
    }
  }

  /** `Math.round((completed / total) * 100)`, or 0 without schedules: the
      integer nearest to 100·completed/total, halves rounded up. */
  function CompletionRate(completed: nat, total: nat): (rate: int)
    ensures total == 0 ==> rate == 0
    ensures total > 0 ==> 2 * total * rate <= 200 * completed + total < 2 * total * (rate + 1)
    ensures completed <= total ==> 0 <= rate <= 100
  {
    if total > 0 then
      RateFacts(completed, total);
      (200 * completed + total) / (2 * total)
    else 0
  }

  lemma RateFacts(completed: nat, total: nat)
    requires total > 0
    ensures var rate := (200 * completed + total) / (2 * total);
            2 * total * rate <= 200 * completed + total < 2 * total * (rate + 1)
            && (completed <= total ==> 0 <= rate <= 100)
  {
    var n, d := 200 * completed + total, 2 * total;
    var rate, m := n / d, n % d;
    assert n == d * rate + m && 0 <= m < d;
    assert d * (rate + 1) == d * rate + d;
    if completed <= total && rate > 100 {
      MulMono(d, 101, rate);
    }
  }

  lemma MulMono(d: nat, a: int, b: int)
    requires a <= b
    ensures d * a <= d * b
  {
  }

  // Branch counts

  /** `sh.branch` is truthy: present and not empty. */
  predicate HasBranch(g: Grouped) {
    g.stakeholder.branch.Some? && |g.stakeholder.branch.value| > 0
  }

  function WithBranch(): Grouped -> bool {
    g => HasBranch(g)
  }

  function InBranch(b: string): Grouped -> bool {
    (g: Grouped) => g.stakeholder.branch == Some(b)
  }

  /** The counts of `order`'s keys in `m`, added up. */
  function SumCounts(order: seq<string>, m: map<string, int>): int {
    if |order| == 0 then 0
    else SumCounts(order[..|order| - 1], m) + (if order[|order| - 1] in m then m[order[|order| - 1]] else 0)
  }

  lemma {:induction false} SumCountsFrame(order: seq<string>, m: map<string, int>, b: string, v: int)
    requires b !in order
    ensures SumCounts(order, m[b := v]) == SumCounts(order, m)
  {
    if |order| > 0 {
      SumCountsFrame(order[..|order| - 1], m, b, v);
    }
  }

  lemma {:induction false} SumCountsBump(order: seq<string>, m: map<string, int>, b: string)
    requires Distinct(order) && b in order && b in m
    ensures SumCounts(order, m[b := m[b] + 1]) == SumCounts(order, m) + 1
  {
    var init, last := order[..|order| - 1], order[|order| - 1];
    if last == b {
      assert b !in init;
      SumCountsFrame(init, m, b, m[b] + 1);
    } else {
      assert Distinct(init);
      SumCountsBump(init, m, b);
    }
  }

  /** The analytics panel. `branchOrder` stands for `Object.keys(branchCounts)`
      and lists the branches in the order they were first counted; JavaScript
      lists integer-like keys (a branch named "2") first, in ascending order,
      and no property here depends on that order. */
  datatype Analytics = Analytics(
    tally: Tally,
    completionRate: int,
    branchCounts: map<string, int>,
    branchOrder: seq<string>,
    uniqueBranches: nat,
    uniqueStakeholders: nat)

  /** `calculateAnalytics`: one pass over the rows, counting each row's
      branch and then each of its schedules. */
  method CalculateAnalytics(data: seq<Grouped>) returns (a: Analytics)
    ensures a.tally == TallyOf(Flatten(data))
    ensures a.completionRate == CompletionRate(a.tally.completed, a.tally.total)
    ensures forall b :: b in a.branchCounts ==> a.branchCounts[b] == |Filter(data, InBranch(b))| && b != ""
    ensures forall k :: 0 <= k < |data| && HasBranch(data[k]) ==> data[k].stakeholder.branch.value in a.branchCounts
    ensures Distinct(a.branchOrder) && forall b :: b in a.branchOrder <==> b in a.branchCounts
    ensures SumCounts(a.branchOrder, a.branchCounts) == |Filter(data, WithBranch())|
    ensures a.uniqueBranches == |a.branchOrder| && a.uniqueStakeholders == |data|
  {
    var tally := NoTally;
    var counts: map<string, int> := map[];
    var order: seq<string> := [];
    var i := 0;
    while i < |data|
      invariant 0 <= i <= |data|
      invariant tally == TallyOf(Flatten(data[..i]))
      invariant BranchesCounted(data[..i], counts, order)
    {
      FlattenSnoc(data, i);
      counts, order := CountBranch(data[..i], data[i], counts, order);
      tally := TallySchedules(tally, Flatten(data[..i]), data[i].schedules);
      i := i + 1;
    }
    assert data[..i] == data;
    a := Analytics(tally, CompletionRate(tally.completed, tally.total), counts, order, |order|, |data|);
  }

  lemma FlattenSnoc(data: seq<Grouped>, i: nat)
    requires i < |data|
    ensures Flatten(data[..i + 1]) == Flatten(data[..i]) + data[i].schedules
    ensures data[..i + 1] == data[..i] + [data[i]]
  {
    assert data[..i + 1][..i] == data[..i];
  }

  /** The branch dictionary is right for the rows `done`. */
  ghost predicate BranchesCounted(done: seq<Grouped>, counts: map<string, int>, order: seq<string>) {
    (forall b :: b in counts ==> counts[b] == |Filter(done, InBranch(b))| && b != "")
    && (forall k :: 0 <= k < |done| && HasBranch(done[k]) ==> done[k].stakeholder.branch.value in counts)
    && Distinct(order) && (forall b :: b in order <==> b in counts)
    && SumCounts(order, counts) == |Filter(done, WithBranch())|
  }

  /** The branch half of one outer step: `if (sh.branch && !branchCounts[sh.branch])`
      starts the key at 0, `if (sh.branch)` adds one. */
  method CountBranch(done: seq<Grouped>, g: Grouped, counts: map<string, int>, order: seq<string>)
    returns (counts': map<string, int>, order': seq<string>)
    requires BranchesCounted(done, counts, order)
    ensures BranchesCounted(done + [g], counts', order')
  {
    counts', order' := counts, order;
    if HasBranch(g) {
      var b := g.stakeholder.branch.value;
      if b !in counts' || counts'[b] == 0 {
        if b !in counts' {
          order' := order' + [b];
        }
        counts' := counts'[b := 0];
      }
      counts' := counts'[b := counts'[b] + 1];
      if b in counts {
        assert counts' == counts[b := counts[b] + 1];
        CountedBump(done, g, counts, order);
      } else {
        assert counts' == counts[b := 1] && order' == order + [b];
        CountedNew(done, g, counts, order);
      }
    } else {
      CountedSkip(done, g, counts, order);
    }
  }

  /** What one more row adds to each branch's count and to the rows with a branch. */
  lemma BranchCountsStep(done: seq<Grouped>, g: Grouped)
    ensures forall b :: |Filter(done + [g], InBranch(b))|
                        == |Filter(done, InBranch(b))| + (if g.stakeholder.branch == Some(b) then 1 else 0)
    ensures |Filter(done + [g], WithBranch())| == |Filter(done, WithBranch())| + (if HasBranch(g) then 1 else 0)
  {
    forall b ensures |Filter(done + [g], InBranch(b))|
                     == |Filter(done, InBranch(b))| + (if g.stakeholder.branch == Some(b) then 1 else 0) {
      SnocStep(done, g, InBranch(b), ScheduleCount);
    }
    SnocStep(done, g, WithBranch(), ScheduleCount);
  }

  lemma CountedSkip(done: seq<Grouped>, g: Grouped, counts: map<string, int>, order: seq<string>)
    requires BranchesCounted(done, counts, order) && !HasBranch(g)
    ensures BranchesCounted(done + [g], counts, order)
  {
    BranchCountsStep(done, g);
    var done' := done + [g];
    forall k | 0 <= k < |done'| && HasBranch(done'[k]) ensures done'[k].stakeholder.branch.value in counts {
      assert k < |done| && done'[k] == done[k];
    }
  }

  lemma CountedBump(done: seq<Grouped>, g: Grouped, counts: map<string, int>, order: seq<string>)
    requires BranchesCounted(done, counts, order) && HasBranch(g) && g.stakeholder.branch.value in counts
    ensures var b := g.stakeholder.branch.value;
            BranchesCounted(done + [g], counts[b := counts[b] + 1], order)
  {
    var b := g.stakeholder.branch.value;
    var counts' := counts[b := counts[b] + 1];
    BranchCountsStep(done, g);
    SumCountsBump(order, counts, b);
    var done' := done + [g];
    forall k | 0 <= k < |done'| && HasBranch(done'[k]) ensures done'[k].stakeholder.branch.value in counts' {
      if k < |done| { assert done'[k] == done[k]; }
    }
  }

  lemma CountedNew(done: seq<Grouped>, g: Grouped, counts: map<string, int>, order: seq<string>)
    requires BranchesCounted(done, counts, order) && HasBranch(g) && g.stakeholder.branch.value !in counts
    ensures var b := g.stakeholder.branch.value;
            BranchesCounted(done + [g], counts[b := 1], order + [b])
  {
    var b := g.stakeholder.branch.value;
    var counts' := counts[b := 1];
    BranchCountsStep(done, g);
    var done' := done + [g];
    forall k | 0 <= k < |done'| && HasBranch(done'[k]) ensures done'[k].stakeholder.branch.value in counts' {
      if k < |done| { assert done'[k] == done[k]; }
    }
    NewBranchCounts(done, g, counts, order);
    NewBranchKeys(counts, order, b);
    SumCountsNew(order, counts, b);
  }

  /** Starting a new key at one keeps every count right. */
  lemma NewBranchCounts(done: seq<Grouped>, g: Grouped, counts: map<string, int>, order: seq<string>)
    requires BranchesCounted(done, counts, order) && HasBranch(g) && g.stakeholder.branch.value !in counts
    ensures var b := g.stakeholder.branch.value;
            forall c :: c in counts[b := 1] ==> counts[b := 1][c] == |Filter(done + [g], InBranch(c))| && c != ""
  {
    var b := g.stakeholder.branch.value;
    var counts', done' := counts[b := 1], done + [g];
    BranchCountsStep(done, g);
    NewBranchUncounted(done, counts, order, b);
    forall c | c in counts' ensures counts'[c] == |Filter(done', InBranch(c))| && c != "" {
      if c != b { assert counts'[c] == counts[c]; }
    }
  }

  /** Appending the new key to the order keeps it a duplicate-free list of the keys. */
  lemma NewBranchKeys(counts: map<string, int>, order: seq<string>, b: string)
    requires Distinct(order) && (forall c :: c in order <==> c in counts) && b !in counts
    ensures Distinct(order + [b]) && forall c :: c in order + [b] <==> c in counts[b := 1]
  {
    assert b !in order;
    forall c ensures c in order + [b] <==> c in counts[b := 1] {
      assert c in order + [b] <==> c in order || c == b;
    }
    DistinctSnoc(order, b);
  }

  /** A branch without a key has not been seen among the rows so far. */
  lemma NewBranchUncounted(done: seq<Grouped>, counts: map<string, int>, order: seq<string>, b: string)
    requires BranchesCounted(done, counts, order) && b !in counts && b != ""
    ensures |Filter(done, InBranch(b))| == 0
  {
    forall k | 0 <= k < |done| ensures !InBranch(b)(done[k]) {
      if done[k].stakeholder.branch == Some(b) {
        assert HasBranch(done[k]);
      }
    }
    FilterNone(done, InBranch(b));
  }

  lemma DistinctSnoc(order: seq<string>, b: string)
    requires Distinct(order) && b !in order
    ensures Distinct(order + [b])
  {
    var order' := order + [b];
    forall i, j | 0 <= i < j < |order'| ensures order'[i] != order'[j] {
      if j == |order| { assert order'[i] == order[i]; }
    }
  }

  lemma SumCountsNew(order: seq<string>, counts: map<string, int>, b: string)
    requires b !in order
    ensures SumCounts(order + [b], counts[b := 1]) == SumCounts(order, counts) + 1
  {
    var order' := order + [b];
    assert order'[..|order'| - 1] == order;
    SumCountsFrame(order, counts, b, 1);
  }

  /** The inner `forEach` over one row's schedules. */
  method TallySchedules(t: Tally, before: seq<Schedule>, rs: seq<Schedule>) returns (t': Tally)
    requires t == TallyOf(before)
    ensures t' == TallyOf(before + rs)
  {
    t' := t;
    var j := 0;
    assert before + rs[..0] == before;
    while j < |rs|
      invariant 0 <= j <= |rs|
      invariant t' == TallyOf(before + rs[..j])
    {
      var next := before + rs[..j + 1];
      assert next[..|next| - 1] == before + rs[..j] && next[|next| - 1] == rs[j];
      t' := Count(t', rs[j]);
      j := j + 1;
    }
    assert rs[..j] == rs;
  }

  /** The branch counts add up to at most the number of rows, and there are
      as many branches as keys. */
  lemma AnalyticsBounds(data: seq<Grouped>, a: Analytics)
    requires SumCounts(a.branchOrder, a.branchCounts) == |Filter(data, WithBranch())|
    requires Distinct(a.branchOrder) && forall b :: b in a.branchOrder <==> b in a.branchCounts
    requires a.uniqueBranches == |a.branchOrder| && a.uniqueStakeholders == |data|
    ensures SumCounts(a.branchOrder, a.branchCounts) <= a.uniqueStakeholders
    ensures a.uniqueBranches == |a.branchCounts.Keys|
  {
    DistinctCard(a.branchOrder);
    assert a.branchCounts.Keys == Image(a.branchOrder, Id);
  }

  function Id(s: string): string { s }

  lemma {:induction false} DistinctCard(s: seq<string>)
    requires Distinct(s)
    ensures |Image(s, Id)| == |s|
  {
    if |s| > 0 {
      var init := s[..|s| - 1];
      DistinctCard(init);
      assert Image(s, Id) == Image(init, Id) + {s[|s| - 1]};
      assert s[|s| - 1] !in Image(init, Id);
    }
  }

  // ---------------------------------------------------------------------
  // Stakeholder filter and sort
  // ---------------------------------------------------------------------

  /** The grid's filter inputs: search text, branch select ("all" or a
      branch), status select and sort select. */
  datatype GridCriteria = GridCriteria(search: string, branch: string, status: string, sortBy: string)

  predicate MatchesSearch(search: string, g: Grouped) {
    Contains(Lower(g.stakeholder.institutionName), Lower(search))
  }

  predicate MatchesBranch(branch: string, g: Grouped) {
    branch == "all" || g.stakeholder.branch == Some(branch)
  }

  predicate HasScheduleWith(g: Grouped, st: Status) {
    exists k :: 0 <= k < |g.schedules| && g.schedules[k].status == st
  }

  /** "completed" and "pending" want a schedule of that status, "empty"
      wants none at all; any other value keeps the row. */
  predicate MatchesStatus(status: string, g: Grouped) {
    if status == "completed" then HasScheduleWith(g, Completed)
    else if status == "pending" then HasScheduleWith(g, Pending)
    else if status == "empty" then |g.schedules| == 0
    else true
  }

  predicate GridMatches(c: GridCriteria, g: Grouped) {
    MatchesSearch(c.search, g) && MatchesBranch(c.branch, g) && MatchesStatus(c.status, g)
  }

  function GridFilter(c: GridCriteria): Grouped -> bool {
    g => GridMatches(c, g)
  }

  /** "institution" and "branch" compare the text, "schedules" the count
      (descending); any other value compares every pair as equal. */
  function GridSortKeyOf(sortBy: string, g: Grouped): seq<int> {
    if sortBy == "institution" then CharCodes(g.stakeholder.institutionName)
    else if sortBy == "branch" then CharCodes(if g.stakeholder.branch.Some? then g.stakeholder.branch.value else "")
    else if sortBy == "schedules" then [|g.schedules|]
    else []
  }

  function GridSortKey(sortBy: string): Grouped -> seq<int> {
    g => GridSortKeyOf(sortBy, g)
  }

  /** `filteredData`. */
  function FilteredData(data: seq<Grouped>, c: GridCriteria): seq<Grouped> {
    SortBy(Filter(data, GridFilter(c)), GridSortKey(c.sortBy), c.sortBy == "schedules")
  }

  /** The grid shows exactly the rows that match all three inputs. */
  lemma FilteredDataMembers(data: seq<Grouped>, c: GridCriteria)
    ensures forall g :: g in FilteredData(data, c) <==> g in data && GridMatches(c, g)
  {
    FilterMembers(data, GridFilter(c));
    SortByMembers(Filter(data, GridFilter(c)), GridSortKey(c.sortBy), c.sortBy == "schedules");
  }

  /** "empty" keeps exactly the rows without schedules; "completed" and
      "pending" those with at least one schedule of that status. */
  lemma StatusFilterMeaning(data: seq<Grouped>, c: GridCriteria)
    ensures c.status == "empty" ==>
              (forall g :: g in FilteredData(data, c) <==>
                 g in data && MatchesSearch(c.search, g) && MatchesBranch(c.branch, g) && |g.schedules| == 0)
    ensures c.status == "completed" ==>
              (forall g :: g in FilteredData(data, c) <==>
                 g in data && MatchesSearch(c.search, g) && MatchesBranch(c.branch, g)
                 && exists k :: 0 <= k < |g.schedules| && g.schedules[k].status == Completed)
    ensures c.status == "pending" ==>
              (forall g :: g in FilteredData(data, c) <==>
                 g in data && MatchesSearch(c.search, g) && MatchesBranch(c.branch, g)
                 && exists k :: 0 <= k < |g.schedules| && g.schedules[k].status == Pending)
  {
    FilteredDataMembers(data, c);
  }

  /** Sorting by "schedules" puts the rows with more schedules first. */
  lemma ScheduleSortDescending(data: seq<Grouped>, c: GridCriteria)
    requires c.sortBy == "schedules"
    ensures forall i, j :: 0 <= i < j < |FilteredData(data, c)|
              ==> |FilteredData(data, c)[i].schedules| >= |FilteredData(data, c)[j].schedules|
  {
    var r := FilteredData(data, c);
    forall i, j | 0 <= i < j < |r| ensures |r[i].schedules| >= |r[j].schedules| {
      assert Before(r[i], r[j], GridSortKey(c.sortBy), true);
      assert LexLe([|r[j].schedules|], [|r[i].schedules|]);
    }
  }

  /** An unknown sort value keeps the rows in the order the server sent them. */
  lemma UnknownSortKeepsOrder(data: seq<Grouped>, c: GridCriteria)
    requires c.sortBy != "institution" && c.sortBy != "branch" && c.sortBy != "schedules"
    ensures FilteredData(data, c) == Filter(data, GridFilter(c))
  {
    SortByConstant(Filter(data, GridFilter(c)), GridSortKey(c.sortBy), false);
  }

  // ---------------------------------------------------------------------
  // Bulk status change
  // ---------------------------------------------------------------------

  /** The body `{ status }` of each `PUT /schedules/:id`. */
  function StatusBody(status: string): ScheduleFields {
    ScheduleFields(None, None, None, Some(status), None, None, None, None)
  }

  function Reached(throws: set<int>): int -> bool {
    id => id !in throws
  }

  datatype BulkOutcome = NothingSelected | Updated(count: nat)

  /** `handleBulkStatusUpdate(status)`: with nothing selected it only warns;
      otherwise it sends one request per selected id, in order, counts the
      requests whose `fetch` did not throw (`throws` stands for those), and
      clears the selection. The selection is a `Set`, iterated in insertion
      order: a sequence without repeats. */
  method BulkStatusUpdate(selected: seq<int>, status: string, throws: set<int>)
    returns (requests: seq<(int, ScheduleFields)>, outcome: BulkOutcome, after: seq<int>)
    requires Distinct(selected)
    ensures |selected| == 0 ==> requests == [] && outcome == NothingSelected && after == selected
    ensures |selected| > 0 ==> after == [] && outcome == Updated(|Filter(selected, Reached(throws))|)
    ensures |selected| > 0 ==> |requests| == |selected|
                               && forall k :: 0 <= k < |selected| ==> requests[k] == (selected[k], StatusBody(status))
    ensures outcome.Updated? ==> outcome.count <= |selected|
    ensures forall k, j :: 0 <= k < j < |requests| ==> requests[k].0 != requests[j].0
  {
    if |selected| == 0 {
      return [], NothingSelected, selected;
    }
    var body := StatusBody(status);
    var updated := 0;
    requests := [];
    var i := 0;
    while i < |selected|
      invariant 0 <= i <= |selected|
      invariant |requests| == i && forall k :: 0 <= k < i ==> requests[k] == (selected[k], body)
      invariant updated == |Filter(selected[..i], Reached(throws))|
    {
      var id := selected[i];
      requests := requests + [(id, body)];
      FilterPrefixStep(selected, i, Reached(throws));
      if id !in throws {
        updated := updated + 1;
      }
      i := i + 1;
    }
    assert selected[..i] == selected;
    outcome := Updated(updated);
    after := [];
  }

  /** Each request of the bulk change, on a schedule whose row fits its
      columns, changes that schedule's status and nothing else. */
  lemma BulkRequestChangesStatusOnly(s: Schedule, st: Status)
    requires ScheduleFits(s)
    ensures MergeSchedule(s, StatusBody(StatusName(st))) == Ok(s.(status := st))
  {
    StatusOnlyUpdate(s, st);
  }

  // ---------------------------------------------------------------------
  // CSV export
  // ---------------------------------------------------------------------

  /** The header: four fixed titles, the twelve short month names
      (`monthLabels`, from the locale) and "Total Jadwal". */
  function GridHeader(monthLabels: seq<string>): (h: seq<string>)
    requires |monthLabels| == 12
    ensures |h| == 17 && h[..4] == ["No", "Institusi", "Cabang", "Jumlah"] && h[4..16] == monthLabels && h[16] == "Total Jadwal"
  {
    ["No", "Institusi", "Cabang", "Jumlah"] + monthLabels + ["Total Jadwal"]
  }

  /** The first schedule of the month's pickup date, or "-". */
  function MonthCell(g: Grouped, month: int): string {
    var bucket := MonthSchedules(g.schedules, month);
    if |bucket| > 0 then IsoDate(bucket[0].pickupDate) else "-"
  }

  /** The twelve month cells, January first. */
  function MonthCells(g: Grouped): (cells: seq<string>)
    ensures |cells| == 12
  {
    seq(12, j requires 0 <= j < 12 => MonthCell(g, j + 1))
  }

  lemma MonthCellsAt(g: Grouped, j: int)
    requires 0 <= j < 12
    ensures MonthCells(g)[j] == MonthCell(g, j + 1)
  {
  }

  /** The row at position `idx` of the filtered grid. */
  function GridRowCells(g: Grouped, idx: nat): (cells: seq<string>)
    ensures |cells| == 17 && cells[4..16] == MonthCells(g)
  {
    var branch := g.stakeholder.branch;
    [IntToString(idx + 1), g.stakeholder.institutionName,
     if branch.Some? && |branch.value| > 0 then branch.value else "-",
     IntToString(g.stakeholder.defaultQuantity)]
    + MonthCells(g) + [IntToString(|g.schedules|)]
  }

  /** `schedules[k]` is the first schedule of month `m` in `rs`. */
  predicate FirstOfMonth(rs: seq<Schedule>, m: int, k: int) {
    0 <= k < |rs| && rs[k].pickupDate.month == m && forall j :: 0 <= j < k ==> rs[j].pickupDate.month != m
  }

  /** A row's cells: its position counted from 1, the institution, the
      branch or "-" when it has none, the default quantity, per month the
      pickup date of the month's first schedule or "-" exactly when the
      month has none, and the number of schedules. */
  lemma GridRowMeaning(g: Grouped, idx: nat, m: int)
    requires 1 <= m <= 12
    ensures var cells := GridRowCells(g, idx);
            cells[0] == IntToString(idx + 1) && cells[1] == g.stakeholder.institutionName
            && cells[2] == (if HasBranch(g) then g.stakeholder.branch.value else "-")
            && cells[3] == IntToString(g.stakeholder.defaultQuantity)
            && cells[16] == IntToString(|g.schedules|)
    ensures var cell := GridRowCells(g, idx)[3 + m];
            (cell == "-" <==> forall k :: 0 <= k < |g.schedules| ==> g.schedules[k].pickupDate.month != m)
            && (cell != "-" ==> exists k :: FirstOfMonth(g.schedules, m, k) && cell == IsoDate(g.schedules[k].pickupDate))
  {
    var cells := GridRowCells(g, idx);
    MonthCellsAt(g, m - 1);
    assert cells[3 + m] == cells[4..16][m - 1] == MonthCell(g, m);
    MonthCellMeaning(g, m);
  }

  /** A month cell is "-" exactly when the month has no schedule, and
      otherwise the pickup date of the month's first schedule. */
  lemma MonthCellMeaning(g: Grouped, m: int)
    ensures MonthCell(g, m) == "-" <==> forall k :: 0 <= k < |g.schedules| ==> g.schedules[k].pickupDate.month != m
    ensures MonthCell(g, m) != "-" ==> exists k :: FirstOfMonth(g.schedules, m, k) && MonthCell(g, m) == IsoDate(g.schedules[k].pickupDate)
  {
    if |MonthSchedules(g.schedules, m)| > 0 {
      var k := MonthCellFirst(g.schedules, m);
      IsoDateNotDash(g.schedules[k].pickupDate);
    } else {
      MonthCellNone(g.schedules, m);
    }
  }

  /** A non-empty bucket starts with the month's first schedule. */
  lemma MonthCellFirst(rs: seq<Schedule>, m: int) returns (k: int)
    requires |MonthSchedules(rs, m)| > 0
    ensures FirstOfMonth(rs, m, k) && MonthSchedules(rs, m)[0] == rs[k]
  {
    var p := KeyIs(PickupMonth, m);
    k := FilterFirst(rs, p);
    assert PickupMonth(rs[k]) == rs[k].pickupDate.month;
    forall j | 0 <= j < k ensures rs[j].pickupDate.month != m {
      assert !p(rs[j]) && PickupMonth(rs[j]) == rs[j].pickupDate.month;
    }
  }

  /** An empty bucket: no schedule of that month. */
  lemma MonthCellNone(rs: seq<Schedule>, m: int)
    requires |MonthSchedules(rs, m)| == 0
    ensures forall k :: 0 <= k < |rs| ==> rs[k].pickupDate.month != m
  {
    var p := KeyIs(PickupMonth, m);
    FilterMembers(rs, p);
    forall k | 0 <= k < |rs| ensures rs[k].pickupDate.month != m {
      assert rs[k] in rs;
      assert PickupMonth(rs[k]) == rs[k].pickupDate.month;
    }
  }

  /** A pickup date is never the "-" placeholder. */
  lemma IsoDateNotDash(d: Date)
    ensures IsoDate(d) != "-"
  {
    var cells := [IntToString(d.year), Padded2(d.month), Padded2(d.day)];
    assert IsoDate(d) == cells[0] + "-" + Join(cells[1..], "-");
    assert |IsoDate(d)| >= 2;
  }

  /** The header row and then one row per shown stakeholder. */
  function GridTable(rows: seq<Grouped>, monthLabels: seq<string>): (t: seq<seq<string>>)
    requires |monthLabels| == 12
    ensures |t| == |rows| + 1 && t[0] == GridHeader(monthLabels)
    ensures forall k :: 1 <= k <= |rows| ==> t[k] == GridRowCells(rows[k - 1], k - 1)
  {
    [GridHeader(monthLabels)] + seq(|rows|, k requires 0 <= k < |rows| => GridRowCells(rows[k], k))
  }

  /** `exportToCSV`'s loops: the header, then per stakeholder the fixed
      cells, one cell per month and the schedule count. */
  method ExportRows(rows: seq<Grouped>, monthLabels: seq<string>) returns (table: seq<seq<string>>)
    requires |monthLabels| == 12
    ensures table == GridTable(rows, monthLabels)
  {
    table := [GridHeader(monthLabels)];
    var idx := 0;
    while idx < |rows|
      invariant 0 <= idx <= |rows|
      invariant |table| == idx + 1 && table[0] == GridHeader(monthLabels)
      invariant forall k :: 1 <= k <= idx ==> table[k] == GridRowCells(rows[k - 1], k - 1)
    {
      var row := ExportRow(rows[idx], idx);
      table := table + [row];
      idx := idx + 1;
    }
    TableEq(table, GridTable(rows, monthLabels));
  }

  lemma TableEq(a: seq<seq<string>>, b: seq<seq<string>>)
    requires |a| == |b| && forall k :: 0 <= k < |a| ==> a[k] == b[k]
    ensures a == b
  {
  }

  /** One stakeholder's row: the fixed cells, `monthNames.forEach` pushing
      one cell per month, and the schedule count. */
  method ExportRow(g: Grouped, idx: nat) returns (row: seq<string>)
    ensures row == GridRowCells(g, idx)
  {
    var branch := g.stakeholder.branch;
    row := [IntToString(idx + 1), g.stakeholder.institutionName,
            if branch.Some? && |branch.value| > 0 then branch.value else "-",
            IntToString(g.stakeholder.defaultQuantity)];
    ghost var all := MonthCells(g);
    var months: seq<string> := [];
    var m := 0;
    while m < 12
      invariant 0 <= m <= 12 && months == all[..m]
    {
      MonthCellsAt(g, m);
      months := months + [MonthCell(g, m + 1)];
      assert all[..m + 1] == all[..m] + [all[m]];
      m := m + 1;
    }
    assert months == all;
    row := row + months + [IntToString(|g.schedules|)];
  }

  /** Every cell wrapped in double quotes, as the template `"${cell}"` does. */
  function QuoteRow(cells: seq<string>): (q: seq<string>)
    ensures |q| == |cells| && forall j :: 0 <= j < |cells| ==> q[j] == Quote(cells[j])
  {
    seq(|cells|, j requires 0 <= j < |cells| => Quote(cells[j]))
  }

  function QuoteTable(table: seq<seq<string>>): (q: seq<seq<string>>)
    ensures |q| == |table| && forall k :: 0 <= k < |table| ==> q[k] == QuoteRow(table[k])
  {
    seq(|table|, k requires 0 <= k < |table| => QuoteRow(table[k]))
  }

  /** The quoted cells joined by "," and the rows by "\n". */
  function GridCsv(table: seq<seq<string>>): string {
    Join(JoinRows(QuoteTable(table), ","), "\n")
  }

  /** As long as no cell holds a comma or a line break (quoting does not
      escape them), the file has one line per stakeholder after the header,
      and each line splits into the seventeen quoted cells of its row. */
  lemma GridCsvReadsBack(rows: seq<Grouped>, monthLabels: seq<string>)
    requires |monthLabels| == 12
    requires forall k, j :: 0 <= k <= |rows| && 0 <= j < 17 ==>
               ',' !in GridTable(rows, monthLabels)[k][j] && '\n' !in GridTable(rows, monthLabels)[k][j]
    ensures |Split(GridCsv(GridTable(rows, monthLabels)), '\n')| == |rows| + 1
    ensures forall k :: 0 <= k <= |rows| ==>
              Split(Split(GridCsv(GridTable(rows, monthLabels)), '\n')[k], ',') == QuoteRow(GridTable(rows, monthLabels)[k])
  {
    var table := GridTable(rows, monthLabels);
    var quoted := QuoteTable(table);
    forall k, j | 0 <= k < |quoted| && 0 <= j < |quoted[k]| ensures ',' !in quoted[k][j] && '\n' !in quoted[k][j] {
      assert quoted[k][j] == "\"" + table[k][j] + "\"";
    }
    TableReadsBack(quoted, ',', '\n');
  }

  // ---------------------------------------------------------------------
  // The generate prompt
  // ---------------------------------------------------------------------

  /** `parseInt(prompt(...))` (`None` for NaN) is refused unless it is a
      month 1..12; an accepted month is posted with the grid's year. */
  function GenerateRequest(input: Option<int>, selectedYear: int): (r: Option<(int, int)>)
    ensures r.Some? <==> input.Some? && 1 <= input.value <= 12
    ensures r.Some? ==> r.value == (input.value, selectedYear)
  {
    if input.None? || input.value == 0 || input.value < 1 || input.value > 12 then None
    else Some((input.value, selectedYear))
  }

  /** An accepted month passes the server's own check, and for an ordinary
      year the server's window is that calendar month. */
  lemma GenerateRequestAccepted(input: Option<int>, selectedYear: int, d: Date)
    requires GenerateRequest(input, selectedYear).Some? && !(0 <= selectedYear <= 99) && IsValid(d)
    ensures BodyTruthy(Some(GenerateRequest(input, selectedYear).value.0)) && BodyTruthy(Some(selectedYear))
    ensures InWindow(d, MonthWindow(selectedYear, input.value)) <==> d.year == selectedYear && d.month == input.value
  {
    MonthWindowOfOrdinaryMonth(d, selectedYear, input.value);
  }
}
