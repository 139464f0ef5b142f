/** The routine-pickup backend: a store of master stakeholders and routine
    schedules with the controller's create, update, delete and monthly
    generation handlers, and the read queries (stakeholder list, schedule
    list with its date window, schedules grouped per stakeholder). */
module RoutineController {
  import opened Dates
  import opened Text
  import opened Sorting
  import opened Seqs
  import opened Records

  // ---------------------------------------------------------------------
  // Keys and lookups (`findByPk`)
  // ---------------------------------------------------------------------

  /** Auto-increment keys: strictly increasing in insertion order, from 1,
      and below the next value to be handed out. */
  predicate Keys(ids: seq<int>, next: int) {
    (forall i, j :: 0 <= i < j < |ids| ==> ids[i] < ids[j])
    && (forall i :: 0 <= i < |ids| ==> 1 <= ids[i] < next)
  }

  function StakeholderIds(ss: seq<Stakeholder>): (ids: seq<int>)
    ensures |ids| == |ss| && forall k :: 0 <= k < |ss| ==> ids[k] == ss[k].id
  {
    seq(|ss|, k requires 0 <= k < |ss| => ss[k].id)
  }

  function ScheduleIds(rs: seq<Schedule>): (ids: seq<int>)
    ensures |ids| == |rs| && forall k :: 0 <= k < |rs| ==> ids[k] == rs[k].id
  {
    seq(|rs|, k requires 0 <= k < |rs| => rs[k].id)
  }

  /** The invariant of the two tables: increasing keys below the counters,
      rows that fit their columns, and the foreign key from the schedules to
      the stakeholders. */
  predicate StoreValid(ss: seq<Stakeholder>, rs: seq<Schedule>, nextStakeholderId: int, nextScheduleId: int) {
    Keys(StakeholderIds(ss), nextStakeholderId)
    && Keys(ScheduleIds(rs), nextScheduleId)
    && (forall k :: 0 <= k < |ss| ==> StakeholderFits(ss[k]))
    && (forall k :: 0 <= k < |rs| ==> ScheduleFits(rs[k]))
    && ReferencesExist(ss, rs)
  }

  /** `MasterStakeholder.findByPk(id)`, as a position in the table. */
  function FindStakeholder(ss: seq<Stakeholder>, id: int): (r: Option<nat>)
    ensures r.Some? ==> r.value < |ss| && ss[r.value].id == id
    ensures r.None? <==> forall k :: 0 <= k < |ss| ==> ss[k].id != id
  {
    if |ss| == 0 then None
    else if ss[0].id == id then Some(0)
    else
      var r := FindStakeholder(ss[1..], id);
      if r.None? then None else Some(r.value + 1)
  }

  /** The foreign key `stakeholder_id` references `master_stakeholders.id`:
      every stored schedule names a stored stakeholder. */
  predicate ReferencesExist(ss: seq<Stakeholder>, rs: seq<Schedule>) {
    forall k :: 0 <= k < |rs| ==> FindStakeholder(ss, rs[k].stakeholderId).Some?
  }

  /** `RoutineSchedule.findByPk(id)`, as a position in the table. */
  function FindSchedule(rs: seq<Schedule>, id: int): (r: Option<nat>)
    ensures r.Some? ==> r.value < |rs| && rs[r.value].id == id
    ensures r.None? <==> forall k :: 0 <= k < |rs| ==> rs[k].id != id
  {
    if |rs| == 0 then None
    else if rs[0].id == id then Some(0)
    else
      var r := FindSchedule(rs[1..], id);
      if r.None? then None else Some(r.value + 1)
  }

  /** The stakeholder a schedule's `include` joins, if it still exists. */
  function Lookup(ss: seq<Stakeholder>, id: int): (r: Option<Stakeholder>)
    ensures r.Some? ==> r.value in ss && r.value.id == id
    ensures r.None? ==> forall k :: 0 <= k < |ss| ==> ss[k].id != id
  {
    var i := FindStakeholder(ss, id);
    if i.None? then None else Some(ss[i.value])
  }

  function RemoveAt<T>(s: seq<T>, i: nat): (r: seq<T>)
    requires i < |s|
    ensures |r| == |s| - 1
    ensures forall k :: 0 <= k < |r| ==> r[k] == if k < i then s[k] else s[k + 1]
  {
    s[..i] + s[i + 1..]
  }

  /** Removing position `i` keeps every element other than `s[i]`. */
  lemma RemoveAtKeeps<T>(s: seq<T>, i: nat)
    requires i < |s|
    ensures forall x :: x in s && x != s[i] ==> x in RemoveAt(s, i)
  {
    var r := RemoveAt(s, i);
    forall x | x in s && x != s[i] ensures x in r {
      var j :| 0 <= j < |s| && s[j] == x;
      if j < i { assert r[j] == x; } else { assert r[j - 1] == x; }
    }
  }

  /** With unique keys, removing the row found for `id` leaves no row with that key. */
  lemma RemoveFoundStakeholder(ss: seq<Stakeholder>, next: int, id: int)
    requires Keys(StakeholderIds(ss), next)
    requires FindStakeholder(ss, id).Some?
    ensures forall k :: 0 <= k < |ss| - 1 ==> RemoveAt(ss, FindStakeholder(ss, id).value)[k].id != id
  {
    var i := FindStakeholder(ss, id).value;
    assert forall k :: 0 <= k < |ss| && k != i ==> StakeholderIds(ss)[k] != StakeholderIds(ss)[i];
  }

  lemma RemoveFoundSchedule(rs: seq<Schedule>, next: int, id: int)
    requires Keys(ScheduleIds(rs), next)
    requires FindSchedule(rs, id).Some?
    ensures forall k :: 0 <= k < |rs| - 1 ==> RemoveAt(rs, FindSchedule(rs, id).value)[k].id != id
  {
    var i := FindSchedule(rs, id).value;
    assert forall k :: 0 <= k < |rs| && k != i ==> ScheduleIds(rs)[k] != ScheduleIds(rs)[i];
  }

  lemma KeysAppend(ids: seq<int>, next: int)
    requires Keys(ids, next) && next >= 1
    ensures Keys(ids + [next], next + 1)
  {
  }

  lemma KeysRemove(ids: seq<int>, next: int, i: nat)
    requires Keys(ids, next) && i < |ids|
    ensures Keys(RemoveAt(ids, i), next)
  {
    var r := RemoveAt(ids, i);
    forall a, b | 0 <= a < b < |r| ensures r[a] < r[b] {
      var a', b' := if a < i then a else a + 1, if b < i then b else b + 1;
      assert r[a] == ids[a'] && r[b] == ids[b'];
    }
  }

  // ---------------------------------------------------------------------
  // The foreign key under the writes
  // ---------------------------------------------------------------------

  /** Keeping only schedules that were stored keeps the foreign key. */
  lemma ReferencesSubset(ss: seq<Stakeholder>, rs: seq<Schedule>, kept: seq<Schedule>)
    requires ReferencesExist(ss, rs)
    requires forall x :: x in kept ==> x in rs
    ensures ReferencesExist(ss, kept)
  {
    forall k | 0 <= k < |kept| ensures FindStakeholder(ss, kept[k].stakeholderId).Some? {
      assert kept[k] in kept;
      var j :| 0 <= j < |rs| && rs[j] == kept[k];
    }
  }

  /** Appending schedules whose stakeholders exist keeps the foreign key. */
  lemma ReferencesAppend(ss: seq<Stakeholder>, rs: seq<Schedule>, rows: seq<Schedule>)
    requires ReferencesExist(ss, rs) && ReferencesExist(ss, rows)
    ensures ReferencesExist(ss, rs + rows)
  {
    var all := rs + rows;
    forall k | 0 <= k < |all| ensures FindStakeholder(ss, all[k].stakeholderId).Some? {
      if k < |rs| { assert all[k] == rs[k]; } else { assert all[k] == rows[k - |rs|]; }
    }
  }

  /** Replacing a schedule by one whose stakeholder exists keeps the foreign key. */
  lemma ReferencesReplace(ss: seq<Stakeholder>, rs: seq<Schedule>, i: nat, x: Schedule)
    requires ReferencesExist(ss, rs) && i < |rs|
    requires FindStakeholder(ss, x.stakeholderId).Some?
    ensures ReferencesExist(ss, rs[i := x])
  {
    var t := rs[i := x];
    forall k | 0 <= k < |t| ensures FindStakeholder(ss, t[k].stakeholderId).Some? {
      if k != i { assert t[k] == rs[k]; }
    }
  }

  /** Appending a stakeholder keeps the foreign key. */
  lemma ReferencesStakeholderAppend(ss: seq<Stakeholder>, rs: seq<Schedule>, x: Stakeholder)
    requires ReferencesExist(ss, rs)
    ensures ReferencesExist(ss + [x], rs)
  {
    forall k | 0 <= k < |rs| ensures FindStakeholder(ss + [x], rs[k].stakeholderId).Some? {
      var j := FindStakeholder(ss, rs[k].stakeholderId).value;
      assert (ss + [x])[j].id == rs[k].stakeholderId;
    }
  }

  /** Replacing a stakeholder by a row with the same key keeps the foreign key. */
  lemma ReferencesStakeholderReplace(ss: seq<Stakeholder>, rs: seq<Schedule>, i: nat, x: Stakeholder)
    requires ReferencesExist(ss, rs) && i < |ss| && x.id == ss[i].id
    ensures ReferencesExist(ss[i := x], rs)
  {
    forall k | 0 <= k < |rs| ensures FindStakeholder(ss[i := x], rs[k].stakeholderId).Some? {
      var j := FindStakeholder(ss, rs[k].stakeholderId).value;
      assert ss[i := x][j].id == rs[k].stakeholderId;
    }
  }

  /** Removing a schedule keeps the foreign key. */
  lemma ReferencesRemove(ss: seq<Stakeholder>, rs: seq<Schedule>, i: nat)
    requires ReferencesExist(ss, rs) && i < |rs|
    ensures ReferencesExist(ss, RemoveAt(rs, i))
  {
    var t := RemoveAt(rs, i);
    forall k | 0 <= k < |t| ensures FindStakeholder(ss, t[k].stakeholderId).Some? {
      if k < i { assert t[k] == rs[k]; } else { assert t[k] == rs[k + 1]; }
    }
  }

  /** Removing a stakeholder no schedule refers to keeps the foreign key. */
  lemma ReferencesStakeholderRemove(ss: seq<Stakeholder>, rs: seq<Schedule>, i: nat)
    requires ReferencesExist(ss, rs) && i < |ss| && !Referenced(rs, ss[i].id)
    ensures ReferencesExist(RemoveAt(ss, i), rs)
  {
    var r := RemoveAt(ss, i);
    forall k | 0 <= k < |rs| ensures FindStakeholder(r, rs[k].stakeholderId).Some? {
      var j := FindStakeholder(ss, rs[k].stakeholderId).value;
      assert j != i;
      if j < i { assert r[j].id == rs[k].stakeholderId; } else { assert r[j - 1].id == rs[k].stakeholderId; }
    }
  }

  /** Removing a stakeholder row no schedule refers to keeps the tables' invariant. */
  lemma StakeholderRemovedValid(ss: seq<Stakeholder>, rs: seq<Schedule>, ns: int, nr: int, i: nat)
    requires StoreValid(ss, rs, ns, nr) && i < |ss|
    requires !Referenced(rs, ss[i].id)
    ensures StoreValid(RemoveAt(ss, i), rs, ns, nr)
  {
    KeysRemove(StakeholderIds(ss), ns, i);
    assert StakeholderIds(RemoveAt(ss, i)) == RemoveAt(StakeholderIds(ss), i);
    ReferencesStakeholderRemove(ss, rs, i);
  }

  /** Removing a schedule row keeps the tables' invariant. */
  lemma ScheduleRemovedValid(ss: seq<Stakeholder>, rs: seq<Schedule>, ns: int, nr: int, i: nat)
    requires StoreValid(ss, rs, ns, nr) && i < |rs|
    ensures StoreValid(ss, RemoveAt(rs, i), ns, nr)
  {
    KeysRemove(ScheduleIds(rs), nr, i);
    assert ScheduleIds(RemoveAt(rs, i)) == RemoveAt(ScheduleIds(rs), i);
    ReferencesRemove(ss, rs, i);
  }

  /** The `ON DELETE` action of the schedules' foreign key to the
      stakeholders. The models declare the reference but no action, and the
      table definitions are not part of the application's code, so the
      store takes it as a parameter: remove the stakeholder's schedules too,
      or refuse to delete a stakeholder that still has schedules. */
  datatype DeleteAction = Cascade | Restrict

  /** Some schedule refers to the stakeholder key `id`. */
  predicate Referenced(rs: seq<Schedule>, id: int) {
    exists k :: 0 <= k < |rs| && rs[k].stakeholderId == id
  }

  function NotOfStakeholder(id: int): Schedule -> bool {
    (r: Schedule) => r.stakeholderId != id
  }

  function ScheduleKey(r: Schedule): int {
    r.id
  }

  /** Dropping schedules keeps the tables' invariant. */
  lemma ScheduleFilterValid(ss: seq<Stakeholder>, rs: seq<Schedule>, ns: int, nr: int, p: Schedule -> bool)
    requires StoreValid(ss, rs, ns, nr)
    ensures StoreValid(ss, Filter(rs, p), ns, nr)
  {
    var ids := ScheduleIds(rs);
    forall i, j | 0 <= i < j < |rs| ensures ScheduleKey(rs[i]) < ScheduleKey(rs[j]) {
      assert ids[i] < ids[j];
    }
    FilterIncreasing(rs, p, ScheduleKey);
    var f := Filter(rs, p);
    forall k | 0 <= k < |f| ensures 1 <= f[k].id < nr && ScheduleFits(f[k]) {
      var j := FilterIndex(rs, p, k);
      assert ids[j] == rs[j].id;
    }
    var fids := ScheduleIds(f);
    forall i, j | 0 <= i < j < |fids| ensures fids[i] < fids[j] {
      assert ScheduleKey(f[i]) < ScheduleKey(f[j]);
    }
    FilterMembers(rs, p);
    ReferencesSubset(ss, rs, f);
  }

  // ---------------------------------------------------------------------
  // Monthly generation
  // ---------------------------------------------------------------------

  /** `!month || !year` on a JSON body: a missing value or 0 is falsy. */
  predicate BodyTruthy(v: Option<int>) {
    v.Some? && v.value != 0
  }

  function StakeholderKey(s: Stakeholder): int {
    s.id
  }

  predicate IsActive(s: Stakeholder) {
    s.isActive
  }

  /** `findAll({ where: { is_active: true } })`, in key order. */
  function Active(ss: seq<Stakeholder>): seq<Stakeholder> {
    Filter(ss, IsActive)
  }

  /** `findOne` over the window: does the stakeholder already have a schedule in `w`? */
  predicate HasScheduleIn(rs: seq<Schedule>, stakeholderId: int, w: Window) {
    exists k :: 0 <= k < |rs| && rs[k].stakeholderId == stakeholderId && InWindow(rs[k].pickupDate, w)
  }

  /** Stakeholders without a schedule between the 1st and the last day of the month. */
  function Unscheduled(rs: seq<Schedule>, year: int, month: int): Stakeholder -> bool {
    (s: Stakeholder) => !HasScheduleIn(rs, s.id, MonthWindow(year, month))
  }

  /** The active stakeholders that should receive a schedule, in key order. */
  function Eligible(ss: seq<Stakeholder>, rs: seq<Schedule>, year: int, month: int): seq<Stakeholder> {
    Filter(Active(ss), Unscheduled(rs, year, month))
  }

  /** The keys of the stakeholders that should receive a schedule. */
  function EligibleIds(ss: seq<Stakeholder>, rs: seq<Schedule>, year: int, month: int): set<int> {
    set s | s in ss && s.isActive && !HasScheduleIn(rs, s.id, MonthWindow(year, month)) :: s.id
  }

  /** An element of `schedulesToCreate`. */
  datatype Draft = Draft(stakeholderId: int, pickupDate: Date, quantity: int, status: Status)

  /** The row pushed for a stakeholder: the 15th of the month, its default
      quantity, status "scheduled". */
  function DraftFor(s: Stakeholder, year: int, month: int): Draft {
    Draft(s.id, MakeDate(year, month - 1, 15), s.defaultQuantity, Scheduled)
  }

  /** `schedulesToCreate` after the loop has visited `active`. */
  function Drafts(active: seq<Stakeholder>, rs: seq<Schedule>, year: int, month: int): (r: seq<Draft>)
    ensures |r| <= |active|
  {
    if |active| == 0 then []
    else
      var s := active[|active| - 1];
      Drafts(active[..|active| - 1], rs, year, month)
      + (if HasScheduleIn(rs, s.id, MonthWindow(year, month)) then [] else [DraftFor(s, year, month)])
  }

  function DraftsFor(es: seq<Stakeholder>, year: int, month: int): (r: seq<Draft>)
    ensures |r| == |es|
  {
    seq(|es|, k requires 0 <= k < |es| => DraftFor(es[k], year, month))
  }

  /** The loop drafts, in visiting order, exactly the visited stakeholders
      without a schedule in the month. */
  lemma {:induction false} DraftsAsFilter(active: seq<Stakeholder>, rs: seq<Schedule>, year: int, month: int)
    ensures Drafts(active, rs, year, month) == DraftsFor(Filter(active, Unscheduled(rs, year, month)), year, month)
  {
    if |active| > 0 {
      var init, s := active[..|active| - 1], active[|active| - 1];
      var u := Unscheduled(rs, year, month);
      DraftsAsFilter(init, rs, year, month);
      var tail := if u(s) then [s] else [];
      assert Filter(active, u) == Filter(init, u) + tail;
      assert DraftsFor(Filter(init, u) + tail, year, month)
             == DraftsFor(Filter(init, u), year, month) + DraftsFor(tail, year, month);
    }
  }

  /** The generator's loop over the active stakeholders: a draft for each
      one without a schedule in the month window, in visiting order. */
  method CollectDrafts(active: seq<Stakeholder>, rs: seq<Schedule>, year: int, month: int) returns (toCreate: seq<Draft>)
    ensures toCreate == Drafts(active, rs, year, month)
  {
    toCreate := [];
    var i := 0;
    while i < |active|
      invariant 0 <= i <= |active|
      invariant toCreate == Drafts(active[..i], rs, year, month)
    {
      var s := active[i];
      if !HasScheduleIn(rs, s.id, MonthWindow(year, month)) {
        toCreate := toCreate + [DraftFor(s, year, month)];
      }
      assert active[..i + 1][..i] == active[..i];
      i := i + 1;
    }
    assert active[..i] == active;
  }

  /** `bulkCreate`: the drafts become rows with consecutive fresh keys from `firstId`. */
  function Materialize(ds: seq<Draft>, firstId: int): (r: seq<Schedule>)
    ensures |r| == |ds|
  {
    seq(|ds|, k requires 0 <= k < |ds| =>
      Schedule(firstId + k, ds[k].stakeholderId, ds[k].pickupDate, ds[k].quantity, ds[k].status,
               None, None, None, None))
  }

  /** The rows one run of the generator adds for `month`/`year`. */
  function GeneratedRows(ss: seq<Stakeholder>, rs: seq<Schedule>, year: int, month: int, firstId: int): seq<Schedule> {
    Materialize(Drafts(Active(ss), rs, year, month), firstId)
  }

  /** Row `k` is made from the `k`-th eligible stakeholder. */
  lemma GeneratedFromEligible(ss: seq<Stakeholder>, rs: seq<Schedule>, year: int, month: int, firstId: int)
    ensures var rows := GeneratedRows(ss, rs, year, month, firstId);
            var es := Eligible(ss, rs, year, month);
            |rows| == |es|
            && forall k :: 0 <= k < |rows| ==>
                 rows[k] == Schedule(firstId + k, es[k].id, MakeDate(year, month - 1, 15), es[k].defaultQuantity,
                                     Scheduled, None, None, None, None)
  {
    DraftsAsFilter(Active(ss), rs, year, month);
  }

  lemma EligibleMembers(ss: seq<Stakeholder>, rs: seq<Schedule>, year: int, month: int)
    ensures forall s :: s in Eligible(ss, rs, year, month) <==>
              s in ss && s.isActive && !HasScheduleIn(rs, s.id, MonthWindow(year, month))
  {
    FilterMembers(ss, IsActive);
    FilterMembers(Active(ss), Unscheduled(rs, year, month));
  }

  /** Every generated row: the next keys in order, dated the 15th of the
      target month, status "scheduled", and belonging to an active
      stakeholder that had no schedule in the month, whose default quantity
      it carries. */
  lemma GeneratedRowShape(ss: seq<Stakeholder>, rs: seq<Schedule>, year: int, month: int, firstId: int)
    ensures var rows := GeneratedRows(ss, rs, year, month, firstId);
            forall k :: 0 <= k < |rows| ==>
              rows[k].id == firstId + k
              && rows[k].pickupDate == MakeDate(year, month - 1, 15)
              && rows[k].status == Scheduled
              && rows[k].pic.None? && rows[k].notes.None? && rows[k].proofFile.None?
              && exists s :: s in ss && s.id == rows[k].stakeholderId && s.isActive
                             && rows[k].quantity == s.defaultQuantity
                             && !HasScheduleIn(rs, s.id, MonthWindow(year, month))
  {
    GeneratedFromEligible(ss, rs, year, month, firstId);
    EligibleMembers(ss, rs, year, month);
    var rows := GeneratedRows(ss, rs, year, month, firstId);
    var es := Eligible(ss, rs, year, month);
    forall k | 0 <= k < |rows|
      ensures exists s :: s in ss && s.id == rows[k].stakeholderId && s.isActive
                          && rows[k].quantity == s.defaultQuantity
                          && !HasScheduleIn(rs, s.id, MonthWindow(year, month))
    {
      assert es[k] in es;
    }
  }

  /** The keys of the eligible sequence are the eligible keys. */
  lemma EligibleKeySet(ss: seq<Stakeholder>, rs: seq<Schedule>, year: int, month: int)
    ensures KeySet(Eligible(ss, rs, year, month), StakeholderKey) == EligibleIds(ss, rs, year, month)
  {
    EligibleMembers(ss, rs, year, month);
  }

  function ScheduleStakeholder(r: Schedule): int {
    r.stakeholderId
  }

  /** The generated rows name the eligible stakeholders. */
  lemma GeneratedKeySet(ss: seq<Stakeholder>, rs: seq<Schedule>, year: int, month: int, firstId: int)
    ensures KeySet(GeneratedRows(ss, rs, year, month, firstId), ScheduleStakeholder)
            == KeySet(Eligible(ss, rs, year, month), StakeholderKey)
  {
    var rows := GeneratedRows(ss, rs, year, month, firstId);
    var es := Eligible(ss, rs, year, month);
    GeneratedFromEligible(ss, rs, year, month, firstId);
    forall k | 0 <= k < |es| ensures es[k].id in KeySet(rows, ScheduleStakeholder) {
      assert rows[k] in rows;
    }
  }

  /** The count the generator reports: one schedule per active stakeholder
      that had none between the 1st and the last day of the month, and no other. */
  lemma GeneratedCount(ss: seq<Stakeholder>, rs: seq<Schedule>, year: int, month: int, firstId: int)
    requires IncreasingBy(ss, StakeholderKey)
    ensures |GeneratedRows(ss, rs, year, month, firstId)| == |EligibleIds(ss, rs, year, month)|
    ensures KeySet(GeneratedRows(ss, rs, year, month, firstId), ScheduleStakeholder)
            == EligibleIds(ss, rs, year, month)
  {
    GeneratedFromEligible(ss, rs, year, month, firstId);
    FilterIncreasing(ss, IsActive, StakeholderKey);
    FilterIncreasing(Active(ss), Unscheduled(rs, year, month), StakeholderKey);
    IncreasingCard(Eligible(ss, rs, year, month), StakeholderKey);
    EligibleKeySet(ss, rs, year, month);
    GeneratedKeySet(ss, rs, year, month, firstId);
  }

  /** Keys are unique: two stored stakeholders with the same key are the same. */
  lemma SameKeySame(ss: seq<Stakeholder>, s: Stakeholder, t: Stakeholder)
    requires IncreasingBy(ss, StakeholderKey)
    requires s in ss && t in ss && s.id == t.id
    ensures s == t
  {
    var i :| 0 <= i < |ss| && ss[i] == s;
    var j :| 0 <= j < |ss| && ss[j] == t;
    assert StakeholderKey(ss[i]) == StakeholderKey(ss[j]);
  }

  /** Inactive stakeholders never receive a generated schedule. */
  lemma InactiveNeverScheduled(ss: seq<Stakeholder>, rs: seq<Schedule>, year: int, month: int, firstId: int)
    requires IncreasingBy(ss, StakeholderKey)
    ensures forall s, r :: s in ss && !s.isActive && r in GeneratedRows(ss, rs, year, month, firstId)
              ==> r.stakeholderId != s.id
  {
    var rows := GeneratedRows(ss, rs, year, month, firstId);
    GeneratedRowShape(ss, rs, year, month, firstId);
    forall s, r | s in ss && !s.isActive && r in rows ensures r.stakeholderId != s.id {
      var k :| 0 <= k < |rows| && rows[k] == r;
      var t :| t in ss && t.id == rows[k].stakeholderId && t.isActive
               && rows[k].quantity == t.defaultQuantity
               && !HasScheduleIn(rs, t.id, MonthWindow(year, month));
      if r.stakeholderId == s.id {
        SameKeySame(ss, s, t);
      }
    }
  }

  /** Running the generator again for the same month creates nothing: each
      active stakeholder either had a schedule in the window or now has the
      generated one on the 15th. */
  lemma GenerateIdempotent(ss: seq<Stakeholder>, rs: seq<Schedule>, year: int, month: int, firstId: int)
    ensures GeneratedRows(ss, rs + GeneratedRows(ss, rs, year, month, firstId), year, month, firstId) == []
  {
    var active := Active(ss);
    var rows := GeneratedRows(ss, rs, year, month, firstId);
    var es := Eligible(ss, rs, year, month);
    var after := rs + rows;
    var w := MonthWindow(year, month);
    GeneratedFromEligible(ss, rs, year, month, firstId);
    FilterMembers(active, Unscheduled(rs, year, month));
    FifteenthInMonthWindow(year, month);
    forall j | 0 <= j < |active| ensures !Unscheduled(after, year, month)(active[j]) {
      if HasScheduleIn(rs, active[j].id, w) {
        var k :| 0 <= k < |rs| && rs[k].stakeholderId == active[j].id && InWindow(rs[k].pickupDate, w);
        assert after[k] == rs[k];
      } else {
        assert active[j] in es;
        var k :| 0 <= k < |es| && es[k] == active[j];
        assert after[|rs| + k] == rows[k];
      }
    }
    FilterNone(active, Unscheduled(after, year, month));
    DraftsAsFilter(active, after, year, month);
  }

  /** Generated rows honour the column types when the stakeholders do. */
  lemma GeneratedRowsFit(ss: seq<Stakeholder>, rs: seq<Schedule>, year: int, month: int, firstId: int)
    requires forall k :: 0 <= k < |ss| ==> StakeholderFits(ss[k])
    ensures var rows := GeneratedRows(ss, rs, year, month, firstId);
            forall k :: 0 <= k < |rows| ==> ScheduleFits(rows[k])
  {
    var rows := GeneratedRows(ss, rs, year, month, firstId);
    var es := Eligible(ss, rs, year, month);
    GeneratedFromEligible(ss, rs, year, month, firstId);
    EligibleMembers(ss, rs, year, month);
    forall k | 0 <= k < |rows| ensures ScheduleFits(rows[k]) {
      assert es[k] in es;
      var i :| 0 <= i < |ss| && ss[i] == es[k];
    }
  }

  /** Appending rows keyed `next`, `next + 1`, ... keeps the keys increasing. */
  lemma AppendFreshKeys(rs: seq<Schedule>, rows: seq<Schedule>, next: int)
    requires Keys(ScheduleIds(rs), next) && next >= 1
    requires forall k :: 0 <= k < |rows| ==> rows[k].id == next + k
    ensures Keys(ScheduleIds(rs + rows), next + |rows|)
  {
    var all := rs + rows;
    assert forall k :: 0 <= k < |all| ==> ScheduleIds(all)[k] == if k < |rs| then rs[k].id else next + (k - |rs|);
  }

  /** Every generated row names a stored stakeholder. */
  lemma GeneratedRowsReferenced(ss: seq<Stakeholder>, rs: seq<Schedule>, year: int, month: int, firstId: int)
    ensures ReferencesExist(ss, GeneratedRows(ss, rs, year, month, firstId))
  {
    var rows := GeneratedRows(ss, rs, year, month, firstId);
    GeneratedRowShape(ss, rs, year, month, firstId);
    forall k | 0 <= k < |rows| ensures FindStakeholder(ss, rows[k].stakeholderId).Some? {
      var t :| t in ss && t.id == rows[k].stakeholderId && t.isActive
               && rows[k].quantity == t.defaultQuantity
               && !HasScheduleIn(rs, t.id, MonthWindow(year, month));
      var j :| 0 <= j < |ss| && ss[j] == t;
    }
  }

  /** The generated rows satisfy the store invariant after the existing ones. */
  lemma GeneratedRowsValid(ss: seq<Stakeholder>, rs: seq<Schedule>, nextS: int, nextR: int, year: int, month: int)
    requires StoreValid(ss, rs, nextS, nextR) && nextR >= 1
    ensures var rows := GeneratedRows(ss, rs, year, month, nextR);
            StoreValid(ss, rs + rows, nextS, nextR + |rows|)
  {
    var rows := GeneratedRows(ss, rs, year, month, nextR);
    GeneratedFromEligible(ss, rs, year, month, nextR);
    GeneratedRowsFit(ss, rs, year, month, nextR);
    AppendFreshKeys(rs, rows, nextR);
    GeneratedRowsReferenced(ss, rs, year, month, nextR);
    ReferencesAppend(ss, rs, rows);
    var all := rs + rows;
    assert forall k :: 0 <= k < |all| ==> all[k] == if k < |rs| then rs[k] else rows[k - |rs|];
  }

  // ---------------------------------------------------------------------
  // Read queries
  // ---------------------------------------------------------------------

  /** A query-string value is truthy when present and non-empty. */
  predicate Truthy(o: Option<string>) {
    o.Some? && |o.value| > 0
  }

  /** `column LIKE '%pattern%'`; a NULL column matches nothing. */
  predicate Like(column: Option<string>, pattern: string) {
    column.Some? && Contains(column.value, pattern)
  }

  /** The `search` condition on a stakeholder: institution name or branch. */
  predicate SearchMatches(search: string, s: Stakeholder) {
    Contains(s.institutionName, search) || Like(s.branch, search)
  }

  datatype StakeholderQuery = StakeholderQuery(search: Option<string>, branch: Option<string>, isActive: Option<string>)

  predicate StakeholderMatches(q: StakeholderQuery, s: Stakeholder) {
    (Truthy(q.search) ==> SearchMatches(q.search.value, s))
    && (Truthy(q.branch) ==> s.branch == q.branch)
    && (q.isActive.Some? ==> s.isActive == (q.isActive.value == "true"))
  }

  function NameKey(s: Stakeholder): seq<int> {
    CharCodes(s.institutionName)
  }

  /** `getAllStakeholders`: the matching rows, `ORDER BY institution_name ASC`. */
  function StakeholderFilter(q: StakeholderQuery): Stakeholder -> bool {
    (s: Stakeholder) => StakeholderMatches(q, s)
  }

  function ListStakeholders(ss: seq<Stakeholder>, q: StakeholderQuery): seq<Stakeholder> {
    SortBy(Filter(ss, StakeholderFilter(q)), NameKey, false)
  }

  lemma ListStakeholdersSpec(ss: seq<Stakeholder>, q: StakeholderQuery)
    ensures forall s: Stakeholder :: s in ListStakeholders(ss, q) <==> s in ss && StakeholderMatches(q, s)
    ensures SortedBy(ListStakeholders(ss, q), NameKey, false)
  {
    FilterMembers(ss, StakeholderFilter(q));
    SortByMembers(Filter(ss, StakeholderFilter(q)), NameKey, false);
  }

  /** With no parameters the list is every stakeholder, each as often as stored, by name. */
  lemma ListAllStakeholders(ss: seq<Stakeholder>)
    ensures multiset(ListStakeholders(ss, StakeholderQuery(None, None, None))) == multiset(ss)
  {
    FilterAll(ss, StakeholderFilter(StakeholderQuery(None, None, None)));
  }

  datatype RoutineQuery = RoutineQuery(
    month: Option<int>, year: Option<int>, status: Option<string>,
    search: Option<string>, stakeholderId: Option<int>)

  /** The `pickup_date` condition: month and year give that month's window,
      year alone January 1st to December 31st, otherwise none. */
  function DateFilter(q: RoutineQuery): Option<Window> {
    if q.month.Some? && q.year.Some? then Some(MonthWindow(q.year.value, q.month.value))
    else if q.year.Some? then Some(YearWindow(q.year.value))
    else None
  }

  predicate RoutineMatches(q: RoutineQuery, r: Schedule) {
    (DateFilter(q).Some? ==> InWindow(r.pickupDate, DateFilter(q).value))
    && (Truthy(q.status) && q.status.value != "all" ==> StatusName(r.status) == q.status.value)
    && (q.stakeholderId.Some? ==> r.stakeholderId == q.stakeholderId.value)
  }

  function RoutineFilter(q: RoutineQuery): Schedule -> bool {
    (r: Schedule) => RoutineMatches(q, r)
  }

  /** A schedule with its `include`d stakeholder. */
  datatype Joined = Joined(schedule: Schedule, stakeholder: Option<Stakeholder>)

  /** With a search the include is an inner join on the condition; otherwise an outer join. */
  predicate JoinMatches(q: RoutineQuery, j: Joined) {
    Truthy(q.search) ==> j.stakeholder.Some? && SearchMatches(q.search.value, j.stakeholder.value)
  }

  function JoinFilter(q: RoutineQuery): Joined -> bool {
    (j: Joined) => JoinMatches(q, j)
  }

  function JoinAll(ss: seq<Stakeholder>, rs: seq<Schedule>): (r: seq<Joined>)
    ensures |r| == |rs|
  {
    seq(|rs|, k requires 0 <= k < |rs| => Joined(rs[k], Lookup(ss, rs[k].stakeholderId)))
  }

  lemma JoinAllMembers(ss: seq<Stakeholder>, rs: seq<Schedule>)
    ensures forall j: Joined :: j in JoinAll(ss, rs) <==>
              j.schedule in rs && j.stakeholder == Lookup(ss, j.schedule.stakeholderId)
  {
    var js := JoinAll(ss, rs);
    forall j: Joined | j.schedule in rs && j.stakeholder == Lookup(ss, j.schedule.stakeholderId)
      ensures j in js
    {
      var k :| 0 <= k < |rs| && rs[k] == j.schedule;
      assert js[k] == j;
    }
  }

  function DateKey(d: Date): seq<int> {
    [d.year, d.month, d.day]
  }

  function JoinedDateKey(j: Joined): seq<int> {
    DateKey(j.schedule.pickupDate)
  }

  /** `getAllRoutines`: matching schedules with their stakeholder, `ORDER BY pickup_date ASC`. */
  function ListRoutines(ss: seq<Stakeholder>, rs: seq<Schedule>, q: RoutineQuery): seq<Joined> {
    SortBy(Filter(JoinAll(ss, Filter(rs, RoutineFilter(q))), JoinFilter(q)), JoinedDateKey, false)
  }

  lemma ListRoutinesSpec(ss: seq<Stakeholder>, rs: seq<Schedule>, q: RoutineQuery)
    ensures forall j: Joined :: j in ListRoutines(ss, rs, q) <==>
              j.schedule in rs && RoutineMatches(q, j.schedule)
              && j.stakeholder == Lookup(ss, j.schedule.stakeholderId) && JoinMatches(q, j)
    ensures SortedBy(ListRoutines(ss, rs, q), JoinedDateKey, false)
  {
    var m := Filter(rs, RoutineFilter(q));
    var f := Filter(JoinAll(ss, m), JoinFilter(q));
    FilterMembers(rs, RoutineFilter(q));
    JoinAllMembers(ss, m);
    FilterMembers(JoinAll(ss, m), JoinFilter(q));
    SortByMembers(f, JoinedDateKey, false);
  }

  /** The query for one month of one year matches a validly dated schedule
      exactly when it is dated in that calendar month. */
  lemma MonthQueryMatches(r: Schedule, year: int, month: int)
    requires IsValid(r.pickupDate)
    requires 1 <= month <= 12 && !(0 <= year <= 99)
    ensures RoutineMatches(RoutineQuery(Some(month), Some(year), None, None, None), r)
            <==> r.pickupDate.year == year && r.pickupDate.month == month
  {
    MonthWindowOfOrdinaryMonth(r.pickupDate, year, month);
  }

  /** For an ordinary month and year and no other parameter, the list holds
      exactly the schedules dated from the 1st to the last day of that month. */
  lemma ListRoutinesOfMonth(ss: seq<Stakeholder>, rs: seq<Schedule>, year: int, month: int)
    requires forall k :: 0 <= k < |rs| ==> IsValid(rs[k].pickupDate)
    requires 1 <= month <= 12 && !(0 <= year <= 99)
    ensures forall j: Joined :: j in ListRoutines(ss, rs, RoutineQuery(Some(month), Some(year), None, None, None)) <==>
              j.schedule in rs && j.schedule.pickupDate.year == year && j.schedule.pickupDate.month == month
              && j.stakeholder == Lookup(ss, j.schedule.stakeholderId)
  {
    var q := RoutineQuery(Some(month), Some(year), None, None, None);
    ListRoutinesSpec(ss, rs, q);
    forall r | r in rs ensures RoutineMatches(q, r) <==> r.pickupDate.year == year && r.pickupDate.month == month {
      MonthQueryMatches(r, year, month);
    }
  }

  /** A year alone keeps the schedules dated in that (full) year. */
  lemma ListRoutinesOfYear(ss: seq<Stakeholder>, rs: seq<Schedule>, year: int)
    requires forall k :: 0 <= k < |rs| ==> IsValid(rs[k].pickupDate)
    ensures forall j: Joined :: j in ListRoutines(ss, rs, RoutineQuery(None, Some(year), None, None, None)) <==>
              j.schedule in rs && j.schedule.pickupDate.year == FullYear(year)
              && j.stakeholder == Lookup(ss, j.schedule.stakeholderId)
  {
    var q := RoutineQuery(None, Some(year), None, None, None);
    ListRoutinesSpec(ss, rs, q);
    forall r | r in rs ensures RoutineMatches(q, r) <==> r.pickupDate.year == FullYear(year) {
      InYearWindowIff(r.pickupDate, year);
    }
  }

  /** A stakeholder with its schedules of the year (`required: false`: possibly none). */
  datatype Grouped = Grouped(stakeholder: Stakeholder, schedules: seq<Schedule>)

  function ScheduleDateKey(r: Schedule): seq<int> {
    DateKey(r.pickupDate)
  }

  function OfStakeholderInYear(stakeholderId: int, year: int): Schedule -> bool {
    (r: Schedule) => r.stakeholderId == stakeholderId && InWindow(r.pickupDate, YearWindow(year))
  }

  /** The included `schedules` of one stakeholder, `ORDER BY pickup_date ASC`. */
  function SchedulesOfYear(rs: seq<Schedule>, stakeholderId: int, year: int): seq<Schedule> {
    SortBy(Filter(rs, OfStakeholderInYear(stakeholderId, year)), ScheduleDateKey, false)
  }

  lemma SchedulesOfYearSpec(rs: seq<Schedule>, stakeholderId: int, year: int)
    ensures forall x :: x in SchedulesOfYear(rs, stakeholderId, year) <==>
              x in rs && x.stakeholderId == stakeholderId && InWindow(x.pickupDate, YearWindow(year))
    ensures SortedBy(SchedulesOfYear(rs, stakeholderId, year), ScheduleDateKey, false)
  {
    FilterMembers(rs, OfStakeholderInYear(stakeholderId, year));
    SortByMembers(Filter(rs, OfStakeholderInYear(stakeholderId, year)), ScheduleDateKey, false);
  }

  function GroupedKey(g: Grouped): seq<int> {
    NameKey(g.stakeholder)
  }

  /** The `year` parameter, else the current year. */
  function YearOrCurrent(year: Option<int>, currentYear: int): int {
    if year.Some? then year.value else currentYear
  }

  /** `getRoutinesByStakeholder`: active stakeholders by name, each with its
      schedules of the year by date; `currentYear` is the clock's year. */
  function RoutinesByStakeholder(ss: seq<Stakeholder>, rs: seq<Schedule>, year: Option<int>, currentYear: int): seq<Grouped> {
    var sorted := SortBy(Active(ss), NameKey, false);
    seq(|sorted|, k requires 0 <= k < |sorted| =>
      Grouped(sorted[k], SchedulesOfYear(rs, sorted[k].id, YearOrCurrent(year, currentYear))))
  }

  /** The groups are the active stakeholders, ordered by institution name. */
  lemma RoutinesByStakeholderOrder(ss: seq<Stakeholder>, rs: seq<Schedule>, year: Option<int>, currentYear: int)
    ensures var r := RoutinesByStakeholder(ss, rs, year, currentYear);
            SortedBy(r, GroupedKey, false)
            && forall s :: s in ss && s.isActive <==> exists k :: 0 <= k < |r| && r[k].stakeholder == s
  {
    var r := RoutinesByStakeholder(ss, rs, year, currentYear);
    var sorted := SortBy(Active(ss), NameKey, false);
    FilterMembers(ss, IsActive);
    SortByMembers(Active(ss), NameKey, false);
    assert forall k :: 0 <= k < |r| ==> r[k].stakeholder == sorted[k];
    forall s | s in ss && s.isActive ensures exists k :: 0 <= k < |r| && r[k].stakeholder == s {
      var k :| 0 <= k < |sorted| && sorted[k] == s;
      assert r[k].stakeholder == s;
    }
  }

  /** Each group holds exactly its stakeholder's schedules of the year, by date. */
  lemma RoutinesByStakeholderGroups(ss: seq<Stakeholder>, rs: seq<Schedule>, year: Option<int>, currentYear: int)
    ensures var r := RoutinesByStakeholder(ss, rs, year, currentYear);
            forall k :: 0 <= k < |r| ==>
              SortedBy(r[k].schedules, ScheduleDateKey, false)
              && forall x :: x in r[k].schedules <==>
                   x in rs && x.stakeholderId == r[k].stakeholder.id
                   && InWindow(x.pickupDate, YearWindow(YearOrCurrent(year, currentYear)))
  {
    var r := RoutinesByStakeholder(ss, rs, year, currentYear);
    forall k | 0 <= k < |r|
      ensures SortedBy(r[k].schedules, ScheduleDateKey, false)
      ensures forall x :: x in r[k].schedules <==>
                x in rs && x.stakeholderId == r[k].stakeholder.id
                && InWindow(x.pickupDate, YearWindow(YearOrCurrent(year, currentYear)))
    {
      SchedulesOfYearSpec(rs, r[k].stakeholder.id, YearOrCurrent(year, currentYear));
    }
  }

  // ---------------------------------------------------------------------
  // The store
  // ---------------------------------------------------------------------

  class RoutineStore {
    var stakeholders: seq<Stakeholder>
    var schedules: seq<Schedule>
    var nextStakeholderId: int
    var nextScheduleId: int
    const onDelete: DeleteAction

    predicate Valid()
      reads this
    {
      StoreValid(stakeholders, schedules, nextStakeholderId, nextScheduleId)
      && nextStakeholderId >= 1 && nextScheduleId >= 1
    }

    /** Two empty tables whose auto-increment keys start at 1. */
    constructor (onDelete: DeleteAction)
      ensures Valid()
      ensures stakeholders == [] && schedules == []
      ensures nextStakeholderId == 1 && nextScheduleId == 1
      ensures this.onDelete == onDelete
    {
      stakeholders, schedules := [], [];
      nextStakeholderId, nextScheduleId := 1, 1;
      this.onDelete := onDelete;
    }

    /** `createStakeholder`: insert with the next key, or 500 when the
        database refuses the body. */
    method CreateStakeholder(f: StakeholderFields) returns (r: Response<Stakeholder>)
      requires Valid()
      modifies this
      ensures Valid()
      ensures r == NewStakeholder(old(nextStakeholderId), f)
      ensures r.Ok? ==> stakeholders == old(stakeholders) + [r.value]
                        && nextStakeholderId == old(nextStakeholderId) + 1
      ensures r.Fail? ==> stakeholders == old(stakeholders) && nextStakeholderId == old(nextStakeholderId)
      ensures schedules == old(schedules) && nextScheduleId == old(nextScheduleId)
    {
      r := NewStakeholder(nextStakeholderId, f);
      if r.Ok? {
        KeysAppend(StakeholderIds(stakeholders), nextStakeholderId);
        ReferencesStakeholderAppend(stakeholders, schedules, r.value);
        assert StakeholderIds(stakeholders + [r.value]) == StakeholderIds(stakeholders) + [nextStakeholderId];
        stakeholders := stakeholders + [r.value];
        nextStakeholderId := nextStakeholderId + 1;
      }
    }

    /** `updateStakeholder`: 404 for an unknown key; otherwise the body's
        fields are merged in, or 500 when a merged value does not fit. */
    method UpdateStakeholder(id: int, f: StakeholderFields) returns (r: Response<Stakeholder>)
      requires Valid()
      modifies this
      ensures Valid()
      ensures FindStakeholder(old(stakeholders), id).None? ==>
                r == Fail(NotFound) && stakeholders == old(stakeholders)
      ensures FindStakeholder(old(stakeholders), id).Some? ==>
                var i := FindStakeholder(old(stakeholders), id).value;
                var m := MergeStakeholder(old(stakeholders)[i], f);
                if StakeholderFits(m) then r == Ok(m) && stakeholders == old(stakeholders)[i := m]
                else r == Fail(ServerError) && stakeholders == old(stakeholders)
      ensures schedules == old(schedules)
      ensures nextStakeholderId == old(nextStakeholderId) && nextScheduleId == old(nextScheduleId)
    {
      var i := FindStakeholder(stakeholders, id);
      if i.None? {
        return Fail(NotFound);
      }
      var m := MergeStakeholder(stakeholders[i.value], f);
      if !StakeholderFits(m) {
        return Fail(ServerError);
      }
      assert StakeholderIds(stakeholders[i.value := m]) == StakeholderIds(stakeholders);
      ReferencesStakeholderReplace(stakeholders, schedules, i.value, m);
      stakeholders := stakeholders[i.value := m];
      r := Ok(m);
    }

    /** `deleteStakeholder`: 404 for an unknown key; otherwise `destroy`,
        which the foreign key either extends to the stakeholder's schedules
        or refuses (500) while some schedule still refers to it. */
    method DeleteStakeholder(id: int) returns (r: Response<()>)
      requires Valid()
      modifies this
      ensures Valid()
      ensures FindStakeholder(old(stakeholders), id).None? ==>
                r == Fail(NotFound) && stakeholders == old(stakeholders) && schedules == old(schedules)
      ensures FindStakeholder(old(stakeholders), id).Some? && onDelete == Restrict && Referenced(old(schedules), id) ==>
                r == Fail(ServerError) && stakeholders == old(stakeholders) && schedules == old(schedules)
      ensures FindStakeholder(old(stakeholders), id).Some? && (onDelete == Cascade || !Referenced(old(schedules), id)) ==>
                r == Ok(()) && stakeholders == RemoveAt(old(stakeholders), FindStakeholder(old(stakeholders), id).value)
                && schedules == (if onDelete == Cascade then Filter(old(schedules), NotOfStakeholder(id)) else old(schedules))
      ensures r.Ok? ==> FindStakeholder(stakeholders, id).None? && !Referenced(schedules, id)
      ensures forall s :: s in old(stakeholders) && s.id != id ==> s in stakeholders
      ensures forall x :: x in old(schedules) && x.stakeholderId != id ==> x in schedules
      ensures nextStakeholderId == old(nextStakeholderId) && nextScheduleId == old(nextScheduleId)
    {
      var i := FindStakeholder(stakeholders, id);
      if i.None? {
        return Fail(NotFound);
      }
      if onDelete == Restrict && Referenced(schedules, id) {
        return Fail(ServerError);
      }
      if onDelete == Cascade {
        ScheduleFilterValid(stakeholders, schedules, nextStakeholderId, nextScheduleId, NotOfStakeholder(id));
        FilterMembers(schedules, NotOfStakeholder(id));
        schedules := Filter(schedules, NotOfStakeholder(id));
        assert forall k :: 0 <= k < |schedules| ==> NotOfStakeholder(id)(schedules[k]);
      }
      RemoveFoundStakeholder(stakeholders, nextStakeholderId, id);
      RemoveAtKeeps(stakeholders, i.value);
      StakeholderRemovedValid(stakeholders, schedules, nextStakeholderId, nextScheduleId, i.value);
      stakeholders := RemoveAt(stakeholders, i.value);
      r := Ok(());
    }

    /** `createRoutine`: an upload's filename replaces `proof_file`; the row
        is inserted with the next key and returned with its stakeholder; 500
        when the database refuses the body or the stakeholder key is unknown. */
    method CreateRoutine(f: ScheduleFields, upload: Option<string>) returns (r: Response<Joined>)
      requires Valid()
      modifies this
      ensures Valid()
      ensures var c := NewSchedule(old(nextScheduleId), WithUpload(f, upload));
              if c.Ok? && FindStakeholder(stakeholders, c.value.stakeholderId).Some? then
                r == Ok(Joined(c.value, Lookup(stakeholders, c.value.stakeholderId)))
                && schedules == old(schedules) + [c.value]
                && nextScheduleId == old(nextScheduleId) + 1
              else
                r == Fail(ServerError) && schedules == old(schedules) && nextScheduleId == old(nextScheduleId)
      ensures r.Ok? ==> r.value.stakeholder.Some? && r.value.schedule.proofFile == (if upload.Some? then upload else f.proofFile)
      ensures stakeholders == old(stakeholders) && nextStakeholderId == old(nextStakeholderId)
    {
      var c := NewSchedule(nextScheduleId, WithUpload(f, upload));
      if c.Fail? || FindStakeholder(stakeholders, c.value.stakeholderId).None? {
        return Fail(ServerError);
      }
      KeysAppend(ScheduleIds(schedules), nextScheduleId);
      assert ScheduleIds(schedules + [c.value]) == ScheduleIds(schedules) + [nextScheduleId];
      ReferencesAppend(stakeholders, schedules, [c.value]);
      schedules := schedules + [c.value];
      nextScheduleId := nextScheduleId + 1;
      r := Ok(Joined(c.value, Lookup(stakeholders, c.value.stakeholderId)));
    }

    /** `updateRoutine`: 404 for an unknown key; otherwise the body (with an
        upload's filename as `proof_file`) is merged in and the row returned
        with its stakeholder; 500 when the database refuses a value or a
        changed stakeholder key is unknown. */
    method UpdateRoutine(id: int, f: ScheduleFields, upload: Option<string>) returns (r: Response<Joined>)
      requires Valid()
      modifies this
      ensures Valid()
      ensures FindSchedule(old(schedules), id).None? ==> r == Fail(NotFound) && schedules == old(schedules)
      ensures FindSchedule(old(schedules), id).Some? ==>
                var i := FindSchedule(old(schedules), id).value;
                var m := MergeSchedule(old(schedules)[i], WithUpload(f, upload));
                if m.Ok? && (m.value.stakeholderId == old(schedules)[i].stakeholderId
                             || FindStakeholder(stakeholders, m.value.stakeholderId).Some?) then
                  r == Ok(Joined(m.value, Lookup(stakeholders, m.value.stakeholderId)))
                  && schedules == old(schedules)[i := m.value]
                else
                  r == Fail(ServerError) && schedules == old(schedules)
      ensures r.Ok? ==> r.value.stakeholder.Some?
      ensures stakeholders == old(stakeholders)
      ensures nextStakeholderId == old(nextStakeholderId) && nextScheduleId == old(nextScheduleId)
    {
      var i := FindSchedule(schedules, id);
      if i.None? {
        return Fail(NotFound);
      }
      var stored := schedules[i.value];
      var m := MergeSchedule(stored, WithUpload(f, upload));
      if m.Fail? || (m.value.stakeholderId != stored.stakeholderId && FindStakeholder(stakeholders, m.value.stakeholderId).None?) {
        return Fail(ServerError);
      }
      assert ScheduleIds(schedules[i.value := m.value]) == ScheduleIds(schedules);
      ReferencesReplace(stakeholders, schedules, i.value, m.value);
      schedules := schedules[i.value := m.value];
      r := Ok(Joined(m.value, Lookup(stakeholders, m.value.stakeholderId)));
    }

    /** `deleteRoutine`: 404 for an unknown key; otherwise the row goes. */
    method DeleteRoutine(id: int) returns (r: Response<()>)
      requires Valid()
      modifies this
      ensures Valid()
      ensures FindSchedule(old(schedules), id).None? ==> r == Fail(NotFound) && schedules == old(schedules)
      ensures FindSchedule(old(schedules), id).Some? ==>
                r == Ok(()) && schedules == RemoveAt(old(schedules), FindSchedule(old(schedules), id).value)
      ensures FindSchedule(schedules, id).None?
      ensures forall s :: s in old(schedules) && s.id != id ==> s in schedules
      ensures stakeholders == old(stakeholders)
      ensures nextStakeholderId == old(nextStakeholderId) && nextScheduleId == old(nextScheduleId)
    {
      var i := FindSchedule(schedules, id);
      if i.None? {
        return Fail(NotFound);
      }
      RemoveFoundSchedule(schedules, nextScheduleId, id);
      RemoveAtKeeps(schedules, i.value);
      ScheduleRemovedValid(stakeholders, schedules, nextStakeholderId, nextScheduleId, i.value);
      schedules := RemoveAt(schedules, i.value);
      r := Ok(());
    }

    /** `generateMonthlySchedules`: 400 without a month or a year; otherwise
        one schedule for every active stakeholder lacking one in the month,
        appended after the existing rows, and the number created. */
    method GenerateMonthlySchedules(month: Option<int>, year: Option<int>) returns (r: Response<nat>)
      requires Valid()
      modifies this
      ensures Valid()
      ensures !BodyTruthy(month) || !BodyTruthy(year) ==>
                r == Fail(BadRequest) && schedules == old(schedules) && nextScheduleId == old(nextScheduleId)
      ensures BodyTruthy(month) && BodyTruthy(year) ==>
                var rows := GeneratedRows(old(stakeholders), old(schedules), year.value, month.value, old(nextScheduleId));
                r == Ok(|rows|) && schedules == old(schedules) + rows
                && nextScheduleId == old(nextScheduleId) + |rows|
      ensures stakeholders == old(stakeholders) && nextStakeholderId == old(nextStakeholderId)
    {
      if !BodyTruthy(month) || !BodyTruthy(year) {
        return Fail(BadRequest);
      }
      var m, y := month.value, year.value;
      var toCreate := CollectDrafts(Active(stakeholders), schedules, y, m);
      var rows := Materialize(toCreate, nextScheduleId);
      if |toCreate| > 0 {
        GeneratedRowsValid(stakeholders, schedules, nextStakeholderId, nextScheduleId, y, m);
        schedules := schedules + rows;
        nextScheduleId := nextScheduleId + |rows|;
      }
      r := Ok(|rows|);
    }
  }
}
