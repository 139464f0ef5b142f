# CSR proposals and routine pickups: a verified model

The application has two halves. A dashboard of CSR proposals lists,
filters, sorts, pages, summarises and exports the proposals loaded from
the server, and a report page folds them into twelve monthly totals. A
routine-pickup feature keeps master stakeholders and their monthly
pickup schedules. Its backend controller creates, updates, deletes and
lists both tables and generates one schedule per active stakeholder for a
month. Two pages sit on top of it: a stakeholder grid with analytics, a
bulk status change and a CSV export, and a month calendar of the
schedules.

This project models that core in Dafny:

- `records.dfy` (`Records`): the two Sequelize tables as datatypes. It holds
  the status enumeration, the column defaults and widths, and the
  create/update merge of a request body, with the database's refusals as
  `Fail(ServerError)`.
- `routine_store.dfy` (`RoutineController`): the controller. Class
  `RoutineStore` holds the stakeholder and schedule tables as sequences
  with their auto-increment counters. Its methods are the create, update,
  delete and generate handlers, with the 400/404/500 paths. The read
  queries are functions with lemmas.
- `dashboard.dfy` (`Dashboard`): the proposal list. The filter effect is a
  method that narrows step by step and sorts an array in place. It also
  holds pagination, the pager window, the summary cards, selection, the
  header sort toggle, the CSV export, the case-id format, and class
  `DashboardView` for the page state.
- `routine_grid.dfy` (`RoutineGrid`): the stakeholder grid. It covers month
  buckets, the analytics loop with its branch dictionary, the grid filter
  and sort, the sequential bulk status loop, the 17-column CSV export and
  the month prompt of the generator.
- `calendar.dfy` (`Calendar`): the month calendar grid (two loops), the day
  keys, the click-through, the stats and the status labels.
- `report.dfy` (`Report`): monthly counts and expenses, the twelve rows,
  year totals, the month comparison, bar heights, the average and the CSV
  export.
- Shared modules:
  - `dates.dfy` (`Dates`): (year, month, day) triples, the normalising
    JavaScript `Date` constructor, month and year windows, weekdays and
    `YYYY-MM-DD` text.
  - `text.dfy` (`Text`): lower-casing, substring search, number
    rendering, `padStart`, join and split, quoting.
  - `sorting.dfy` (`Sorting`): key orders, a stable sort function and an
    in-place array insertion sort.
  - `seqs.dfy` (`Seqs`): filter, sums, counts.
  - `proposals.dfy` (`Proposals`): the proposal record and its amount
    parsing.

Money is integer rupiah. Percentages, bar heights and the average are
`real`. Dates are triples compared at day granularity. The clock (the
current year, today's date), the random case-id digits, the uploaded
file name, locale date formatting and the outcome of each `fetch` are
parameters.

## Model

Paths are relative to the repository root.

| member | source | states |
|---|---|---|
| Records.ParseStatus | backend/src/models/routine.model.js:29-32 | a text the enum column accepts names the status it becomes |
| Records.StatusRoundTrip | backend/src/models/routine.model.js:29-32 | each of the four statuses survives the trip through its column text |
| Records.StatusNamesDistinct | backend/src/models/routine.model.js:30 | the four enum names are pairwise distinct |
| Records.NewStakeholder | backend/src/models/masterStakeholder.model.js:7-43 | a create succeeds exactly when the institution name is present and every value fits its column; absent default_quantity becomes 0 and absent is_active true; every other field is stored as the body gives it; the row gets the next key |
| Records.MergeStakeholder | backend/src/controllers/routine.controller.js:67 | an update keeps the id, and each of the eight fields is the body's value when present and the stored value otherwise; an empty body changes nothing |
| Records.MergeStakeholderIdempotent | backend/src/controllers/routine.controller.js:67 | sending the same update body twice stores the same row as sending it once |
| Records.WithUpload | backend/src/controllers/routine.controller.js:204-206 | an uploaded file's name replaces proof_file and no other field changes; without an upload the body stands |
| Records.NewSchedule | backend/src/models/routine.model.js:8-48 | a create succeeds exactly when the body names a stakeholder and a valid pickup date, its status (if any) is one of the four names and every value fits its column; quantity defaults to 0 and status to "scheduled"; pic, notes, proof_file and created_by are stored as given; failure is a 500 |
| Records.MergeSchedule | backend/src/controllers/routine.controller.js:306 | an update succeeds exactly when its status (if any) is one of the four names and every merged value fits its column; each field is then the body's value when present and the stored value otherwise, and the id stays |
| Records.MergeScheduleIdempotent | backend/src/controllers/routine.controller.js:306 | an accepted update body sent a second time is accepted again and stores the same row |
| Records.EmptyMergeKeeps | backend/src/controllers/routine.controller.js:306 | an empty update body is accepted on a stored row and changes nothing |
| Records.StatusOnlyUpdate | backend/src/controllers/routine.controller.js:292-307 | a body holding only an accepted status changes exactly the status of a stored row |
| Dates.DaysInMonth | frontend/src/pages/KegiatanRutin.jsx:236-237 | the last day of every month is 28 to 31 |
| Dates.MakeDate | backend/src/controllers/routine.controller.js:251-252 | `new Date(y, monthIndex, day)` for a day up to 28 is a valid date in the normalised year and month |
| Dates.LastDayOf | backend/src/controllers/routine.controller.js:253 | `new Date(y, monthIndex + 1, 0)` is a valid date, the last day of the normalised month |
| Dates.InMonthWindowIff | backend/src/controllers/routine.controller.js:108-113 | a valid date lies in the month window exactly when it has the window's normalised year and month |
| Dates.MonthWindowOfOrdinaryMonth | backend/src/controllers/routine.controller.js:108-113 | for month 1..12 and a year outside 0..99 the window is exactly that calendar month |
| Dates.InYearWindowIff | backend/src/controllers/routine.controller.js:115-119 | a valid date lies in the year window exactly when its year is the (full) year asked for |
| Dates.FifteenthInMonthWindow | backend/src/controllers/routine.controller.js:264 | the 15th, where generated rows are dated, lies inside the month window the generator checks |
| Dates.Weekday | frontend/src/pages/KegiatanRutin.jsx:238 | `getDay()` is in 0..6 |
| Dates.NextDayWeekday | frontend/src/pages/KegiatanRutin.jsx:238 | the next calendar day falls on the next weekday |
| Dates.EpochIsThursday | frontend/src/pages/KegiatanRutin.jsx:238 | the weekday numbering is anchored so that 1970-01-01 is a Thursday (4) |
| Dates.IsoDateSplit | frontend/src/pages/KegiatanRutin.jsx:249-252 | a `YYYY-MM-DD` text splits at '-' into the year, the two-digit month and the two-digit day |
| Dates.IsoDateReadsBack | frontend/src/pages/KegiatanRutin.jsx:249-252 | for a year of at least zero, the three fields are digits and read back as year, month and day |
| Dates.IsoDateInjective | frontend/src/pages/KegiatanRutin.jsx:249-254 | two valid dates with the same `YYYY-MM-DD` text are the same date |
| Text.ContainsIff | frontend/src/pages/DashboardPages.jsx:110-125 | `includes` holds exactly when the needle occurs at some index |
| Text.PadStart | frontend/src/pages/DashboardPages.jsx:234-236 | `padStart` yields exactly the width, or the text itself when it is already that long |
| Text.PadStartValue | frontend/src/pages/DashboardPages.jsx:234-236 | a number's decimal text padded with zeros is all digits and still reads back as the number |
| Text.NatToStringRoundTrip | frontend/src/pages/DashboardPages.jsx:237 | the decimal text of a number reads back as the number |
| Text.SplitJoin | frontend/src/pages/DashboardPages.jsx:456-458 | splitting a join at a separator found in no part gives the parts back |
| Text.TableReadsBack | frontend/src/pages/DashboardPages.jsx:456-458 | a table joined by a cell separator and a line separator reads back row by row and cell by cell when no cell holds either one |
| Text.Quote | frontend/src/pages/KegiatanRutinNew.jsx:407 | a quoted cell is the cell between two double quotes |
| Sorting.SortBy | frontend/src/pages/KegiatanRutinNew.jsx:563-571 | the sort is a permutation of its input ordered by the key |
| Sorting.SortByConstant | frontend/src/pages/KegiatanRutinNew.jsx:570 | a comparator that returns 0 for every pair keeps the list as it is |
| Sorting.SortInPlace | frontend/src/pages/DashboardPages.jsx:159-185 | the array is sorted in place into an ordered permutation of its old contents |
| RoutineController.FindStakeholder | backend/src/controllers/routine.controller.js:61-65 | `findByPk` finds a row with the key, or reports none exactly when no row has it |
| RoutineController.FindSchedule | backend/src/controllers/routine.controller.js:295-299 | `findByPk` finds a schedule with the key, or reports none exactly when no row has it |
| RoutineController.Lookup | backend/src/controllers/routine.controller.js:136-146 | the included stakeholder is a stored one with the schedule's stakeholder id, or none when there is no such row |
| RoutineController.DraftsAsFilter | backend/src/controllers/routine.controller.js:247-273 | the generator's loop drafts, in visiting order, exactly the stakeholders with no schedule in the month window |
| RoutineController.CollectDrafts | backend/src/controllers/routine.controller.js:247-273 | the for-of loop computes the drafts the loop specification describes |
| RoutineController.GeneratedFromEligible | backend/src/controllers/routine.controller.js:264-277 | row k is created from the k-th eligible stakeholder with the next key, dated the 15th, its default quantity, status "scheduled" |
| RoutineController.EligibleMembers | backend/src/controllers/routine.controller.js:242-262 | a stakeholder is eligible exactly when it is stored, active and has no schedule in the month window |
| RoutineController.GeneratedRowShape | backend/src/controllers/routine.controller.js:264-271 | every generated row has consecutive fresh keys, the 15th of the month, status "scheduled", no pic, notes or proof file, and belongs to an active unscheduled stakeholder whose default quantity it carries |
| RoutineController.GeneratedCount | backend/src/controllers/routine.controller.js:242-282 | with unique keys, the number created equals the number of active stakeholders lacking a schedule in the month, and the rows name exactly those stakeholders |
| RoutineController.SameKeySame | backend/src/models/masterStakeholder.model.js:7-11 | the primary key is unique: two stored stakeholders with one key are the same row |
| RoutineController.InactiveNeverScheduled | backend/src/controllers/routine.controller.js:242-244 | no generated row belongs to an inactive stakeholder |
| RoutineController.GenerateIdempotent | backend/src/controllers/routine.controller.js:250-277 | generating again for the same month after the rows were added creates nothing |
| RoutineController.GeneratedRowsFit | backend/src/models/routine.model.js:8-48 | generated rows honour the schedule columns when the stakeholders honour theirs |
| RoutineController.GeneratedRowsValid | backend/src/controllers/routine.controller.js:275-277 | appending the generated rows keeps keys unique and increasing, every row within its columns and every schedule's stakeholder stored |
| RoutineController.GeneratedRowsReferenced | backend/src/controllers/routine.controller.js:242-264 | every generated row names a stored stakeholder, so the foreign key accepts the bulk insert |
| RoutineController.ListStakeholdersSpec | backend/src/controllers/routine.controller.js:10-34 | `getAllStakeholders` returns exactly the stored rows that match the search, branch and is_active conditions, ordered by institution name |
| RoutineController.ListAllStakeholders | backend/src/controllers/routine.controller.js:12-34 | with no parameters every stakeholder is returned, as often as stored |
| RoutineController.JoinAllMembers | backend/src/controllers/routine.controller.js:134-147 | each schedule comes with the stakeholder its key names, if that row exists |
| RoutineController.ListRoutinesSpec | backend/src/controllers/routine.controller.js:102-150 | `getAllRoutines` returns exactly the schedules matching the date window, status and stakeholder conditions, joined with their stakeholder, kept by the search when one is given, ordered by pickup date |
| RoutineController.MonthQueryMatches | backend/src/controllers/routine.controller.js:108-113 | the month-and-year condition holds of a validly dated schedule exactly when it is dated in that month |
| RoutineController.ListRoutinesOfMonth | backend/src/controllers/routine.controller.js:108-113 | for an ordinary month the list is exactly the schedules dated from the 1st to the last day of that month |
| RoutineController.ListRoutinesOfYear | backend/src/controllers/routine.controller.js:115-119 | a year alone lists exactly the schedules dated from January 1st to December 31st |
| RoutineController.SchedulesOfYearSpec | backend/src/controllers/routine.controller.js:169-183 | a stakeholder's included schedules are exactly its schedules in the year window, by date |
| RoutineController.RoutinesByStakeholderOrder | backend/src/controllers/routine.controller.js:161-185 | `getRoutinesByStakeholder` lists exactly the active stakeholders, ordered by institution name |
| RoutineController.RoutinesByStakeholderGroups | backend/src/controllers/routine.controller.js:164-185 | each group holds exactly its stakeholder's schedules of the given or current year, ordered by date |
| RoutineController.RoutineStore.constructor | backend/src/models/masterStakeholder.model.js:7-11 | the store starts with both tables empty and both auto-increment counters at 1, under the given ON DELETE action; every method keeps the invariant that keys are increasing and below the counters, rows fit their columns and every schedule names a stored stakeholder (routine.model.js:13-20) |
| RoutineController.RoutineStore.CreateStakeholder | backend/src/controllers/routine.controller.js:45-55 | on success the new row is appended with the next key; on failure nothing changes; schedules are untouched |
| RoutineController.RoutineStore.UpdateStakeholder | backend/src/controllers/routine.controller.js:58-75 | an unknown id answers 404 and changes nothing; otherwise exactly the found row is replaced by the merge, or 500 and nothing changes when it does not fit |
| RoutineController.RoutineStore.DeleteStakeholder | backend/src/controllers/routine.controller.js:78-95 | an unknown id answers 404 and changes nothing; under RESTRICT a stakeholder with schedules answers 500 and nothing changes; otherwise exactly that row goes, its schedules go too under CASCADE, every other row and every other stakeholder's schedule stays, and no schedule refers to the key afterwards |
| RoutineController.ScheduleFilterValid | backend/src/models/routine.model.js:8-20 | dropping any schedules keeps the keys increasing and below the counter, every row fitting its columns and every remaining schedule's stakeholder stored |
| RoutineController.ReferencesStakeholderRemove | backend/src/models/routine.model.js:13-20 | removing a stakeholder that no schedule refers to leaves every schedule's `stakeholder_id` naming a stored stakeholder |
| RoutineController.ReferencesStakeholderReplace | backend/src/models/routine.model.js:13-20 | replacing a stakeholder by a row with the same key leaves every reference intact |
| RoutineController.StakeholderRemovedValid | backend/src/controllers/routine.controller.js:78-95 | removing a stakeholder that no schedule refers to keeps the whole store invariant, foreign key included |
| RoutineController.RoutineStore.CreateRoutine | backend/src/controllers/routine.controller.js:199-230 | the uploaded file name becomes proof_file; the row is appended with the next key and returned with its stakeholder; a refused body or unknown stakeholder answers 500 and changes nothing |
| RoutineController.RoutineStore.UpdateRoutine | backend/src/controllers/routine.controller.js:292-325 | an unknown id answers 404 and changes nothing; otherwise the found row is replaced by the merge with the upload and returned joined to its stakeholder, which always exists; a refused value or an unknown new stakeholder key answers 500 and changes nothing |
| RoutineController.RoutineStore.DeleteRoutine | backend/src/controllers/routine.controller.js:328-345 | an unknown id answers 404 and changes nothing; otherwise exactly that row goes and every other schedule stays |
| RoutineController.RoutineStore.GenerateMonthlySchedules | backend/src/controllers/routine.controller.js:233-289 | a missing or zero month or year answers 400 and creates nothing; otherwise the generated rows are appended after the unchanged existing schedules and their number is returned |
| Dashboard.SelectedMembers | frontend/src/pages/DashboardPages.jsx:105-157 | a proposal is kept exactly when it is loaded and passes the search, status and inclusive date conditions |
| Dashboard.NoCriteriaKeepsAll | frontend/src/pages/DashboardPages.jsx:108-155 | an empty search, status "all" and no dates keep every proposal in order |
| Dashboard.FilterAndSort | frontend/src/pages/DashboardPages.jsx:105-187 | the effect's result is a permutation of the kept proposals, ordered by the chosen column and direction |
| Dashboard.NarrowBySearchAndStatus | frontend/src/pages/DashboardPages.jsx:108-132 | the search step then the status step leave exactly the proposals passing both |
| Dashboard.NarrowByDates | frontend/src/pages/DashboardPages.jsx:134-157 | the both-bounds, start-only and end-only branches together leave exactly the proposals within the inclusive range |
| Dashboard.TotalPages | frontend/src/pages/DashboardPages.jsx:197 | the page count is 0 only for an empty list and otherwise the least t with n <= 10t |
| Dashboard.PageItems | frontend/src/pages/DashboardPages.jsx:191-196 | page p holds items (p-1)*10 up to p*10 of the list, at most ten |
| Dashboard.PagesPrefix | frontend/src/pages/DashboardPages.jsx:191-196 | pages 1..c in a row are the first 10c items |
| Dashboard.PagesCover | frontend/src/pages/DashboardPages.jsx:191-197 | all pages in a row are exactly the filtered list, in order |
| Dashboard.PageNonEmpty | frontend/src/pages/DashboardPages.jsx:191-197 | every page from 1 to the page count holds an item |
| Dashboard.PrevPage | frontend/src/pages/DashboardPages.jsx:1441 | "previous" stays at least 1 and steps back one above page 1 |
| Dashboard.NextPage | frontend/src/pages/DashboardPages.jsx:1486 | "next" stays within the page count and steps forward one below it |
| Dashboard.PagerMembers | frontend/src/pages/DashboardPages.jsx:1455-1480 | a page gets a button exactly when it is the first, the last or adjacent to the current one, and an ellipsis exactly when it is otherwise two away; the page draws this pager only when there is more than one page (line 1437), so for a single page it describes buttons that are not shown |
| Dashboard.PagerShowsEnds | frontend/src/pages/DashboardPages.jsx:1455-1472 | the first, last and current pages always have a button |
| Dashboard.PagerShape | frontend/src/pages/DashboardPages.jsx:1455-1480 | the pager lists pages in increasing order, at most seven slots |
| Dashboard.Toggle | frontend/src/pages/DashboardPages.jsx:306-310 | a row checkbox flips exactly the membership of its id and keeps the selection free of duplicates |
| Dashboard.ToggleTwice | frontend/src/pages/DashboardPages.jsx:306-310 | toggling an unselected id twice restores the selection exactly |
| Dashboard.ToggleTwiceMembers | frontend/src/pages/DashboardPages.jsx:306-310 | toggling any id twice restores which ids are selected |
| Dashboard.SelectAllAsWritten | frontend/src/pages/DashboardPages.jsx:312-318 | as written, the select-all clears when the selection is as long as the page and otherwise selects exactly the page |
| Dashboard.SelectAllAsWrittenMisfires | frontend/src/pages/DashboardPages.jsx:1171-1174 | ten ids selected on page 1 make page 2's header box checked and a click clears instead of selecting page 2 |
| Dashboard.SelectAll | frontend/src/pages/DashboardPages.jsx:312-318 | the corrected select-all yields either nothing or exactly the page |
| Dashboard.SelectAllFlips | frontend/src/pages/DashboardPages.jsx:312-318 | on a non-empty page the corrected select-all flips "every row of the page is selected" |
| Dashboard.HandleSort | frontend/src/pages/DashboardPages.jsx:700-707 | a click sorts by the clicked column; the current column flips its order, a new one starts ascending |
| Dashboard.HandleSortTwice | frontend/src/pages/DashboardPages.jsx:700-707 | two clicks on the current column restore its order; two on a new column end descending |
| Dashboard.TotalBudgetSpec | frontend/src/pages/DashboardPages.jsx:210-213 | the budget is a number exactly when every amount is readable, and then it is the sum of the amounts |
| Dashboard.SummaryOf | frontend/src/pages/DashboardPages.jsx:199-209 | the total is the number of proposals, each card counts the proposals of its status, and the three counts add up to at most the total |
| Dashboard.CsvRow | frontend/src/pages/DashboardPages.jsx:444-454 | a proposal's row is its nine fields in the header's order, an absent field rendering empty |
| Dashboard.CsvTable | frontend/src/pages/DashboardPages.jsx:432-456 | the table is the header then one row per filtered proposal, in order |
| Dashboard.CsvReadsBack | frontend/src/pages/DashboardPages.jsx:456-458 | with no comma or line break in a cell, the file reads back as the header and each proposal's nine cells, in order |
| Dashboard.CaseId | frontend/src/pages/DashboardPages.jsx:232-238 | a case id starts with "CSR-" |
| Dashboard.CaseIdReadsBack | frontend/src/pages/DashboardPages.jsx:232-238 | a case id splits into "CSR", the year and three digits that read back as the random number |
| Dashboard.DashboardView.constructor | frontend/src/pages/DashboardPages.jsx:9-36 | the page starts with no filters, newest first, on page 1 with nothing selected, its list already filtered |
| Dashboard.DashboardView.ApplyFilters | frontend/src/pages/DashboardPages.jsx:105-188 | the effect leaves the list as the filtered, sorted proposals and resets the page to 1, changing no input |
| Dashboard.DashboardView.CurrentItems | frontend/src/pages/DashboardPages.jsx:191-196 | the current page shows at most ten rows |
| Dashboard.DashboardView.SetProposals | frontend/src/pages/DashboardPages.jsx:75-97 | new data replaces only the proposals (the filter inputs, sort and selection stay), re-runs the effect and returns to page 1 |
| Dashboard.DashboardView.SetSearch | frontend/src/pages/DashboardPages.jsx:1055 | typing changes only the search term (proposals, other filters, sort and selection stay) and returns to page 1 |
| Dashboard.DashboardView.SetStatusFilter | frontend/src/pages/DashboardPages.jsx:1102 | the status select changes only the status filter (proposals, other filters, sort and selection stay) and returns to page 1 |
| Dashboard.DashboardView.SetDateRange | frontend/src/pages/DashboardPages.jsx:1066-1077 | the date inputs (or clearing them) change only the range (proposals, other filters, sort and selection stay) and return to page 1 |
| Dashboard.DashboardView.SetSort | frontend/src/pages/DashboardPages.jsx:1113-1117 | the sort select sets column and order and returns to page 1 |
| Dashboard.DashboardView.ClickSort | frontend/src/pages/DashboardPages.jsx:700-707 | a header click applies the sort toggle and returns to page 1 |
| Dashboard.DashboardView.SelectProposal | frontend/src/pages/DashboardPages.jsx:306-310 | a row checkbox toggles its id, keeping the selection free of duplicates; proposals, filters, sort, list and page stay |
| Dashboard.DashboardView.ClickSelectAll | frontend/src/pages/DashboardPages.jsx:312-318 | the header checkbox as the page has it: it clears the selection when the number of selected ids equals the number of rows on the page and otherwise selects the page; proposals, filters, sort, list and page stay |
| Dashboard.DashboardView.ClickSelectAllCorrected | frontend/src/pages/DashboardPages.jsx:312-318 | the intended header checkbox: the selection becomes empty or exactly the page's ids; proposals, filters, sort, list and page stay |
| Dashboard.DashboardView.GoPrev | frontend/src/pages/DashboardPages.jsx:1441 | "previous" moves back one page, stopping at 1; proposals, filters, sort, list and selection stay |
| Dashboard.DashboardView.GoNext | frontend/src/pages/DashboardPages.jsx:1486 | "next" moves forward one page, stopping at the last; proposals, filters, sort, list and selection stay |
| Dashboard.DashboardView.GoTo | frontend/src/pages/DashboardPages.jsx:1465-1470 | a numbered button moves to its page, which lies in the pager's range; proposals, filters, sort, list and selection stay |
| RoutineGrid.MonthSchedulesSpec | frontend/src/pages/KegiatanRutinNew.jsx:323-328 | a month's schedules are exactly those picked up in that month, in their original order |
| RoutineGrid.MonthsPartition | frontend/src/pages/KegiatanRutinNew.jsx:397-400 | for valid dates the twelve month buckets together hold every schedule once |
| RoutineGrid.TallySpec | frontend/src/pages/KegiatanRutinNew.jsx:349-357 | the counters count all schedules and those of each status, and the quantity total is the sum of the quantities |
| RoutineGrid.TallyPartition | frontend/src/pages/KegiatanRutinNew.jsx:353-356 | the four status counters add up to the schedule count |
| RoutineGrid.FlattenLength | frontend/src/pages/KegiatanRutinNew.jsx:343-358 | totalSchedules is the sum over stakeholders of their schedule counts |
| RoutineGrid.CompletionRate | frontend/src/pages/KegiatanRutinNew.jsx:360-361 | the rate is 0 without schedules, otherwise 100·completed/total rounded half up, so within 0..100 |
| RoutineGrid.CalculateAnalytics | frontend/src/pages/KegiatanRutinNew.jsx:334-375 | the counters are the tally of all schedules; each branch key maps to the number of stakeholders in that non-empty branch and every such branch has a key; the counts add up to the stakeholders with a branch; uniqueBranches is the number of keys and uniqueStakeholders the number of rows |
| RoutineGrid.CountBranch | frontend/src/pages/KegiatanRutinNew.jsx:344-347 | one stakeholder's step keeps the branch counts equal to the counts over the rows visited so far |
| RoutineGrid.TallySchedules | frontend/src/pages/KegiatanRutinNew.jsx:349-357 | the inner forEach extends the tally to the stakeholder's schedules |
| RoutineGrid.AnalyticsBounds | frontend/src/pages/KegiatanRutinNew.jsx:372-373 | the branch counts add up to at most uniqueStakeholders, and uniqueBranches is the number of keys |
| RoutineGrid.FilteredDataMembers | frontend/src/pages/KegiatanRutinNew.jsx:541-561 | the grid shows exactly the stakeholders matching search, branch and status |
| RoutineGrid.StatusFilterMeaning | frontend/src/pages/KegiatanRutinNew.jsx:549-559 | "empty" keeps exactly the stakeholders without schedules; "completed" and "pending" keep those with a schedule of that status |
| RoutineGrid.ScheduleSortDescending | frontend/src/pages/KegiatanRutinNew.jsx:568-569 | the "schedules" sort orders stakeholders by schedule count, descending |
| RoutineGrid.UnknownSortKeepsOrder | frontend/src/pages/KegiatanRutinNew.jsx:570 | an unknown sort key keeps the filtered stakeholders in their order |
| RoutineGrid.BulkStatusUpdate | frontend/src/pages/KegiatanRutinNew.jsx:515-538 | an empty selection sends nothing; otherwise one request per selected id in order with only the status, `updated` counts the requests that did not throw and is at most the selection size, and the selection ends empty; each id is requested once |
| RoutineGrid.BulkRequestChangesStatusOnly | frontend/src/pages/KegiatanRutinNew.jsx:524-528 | each bulk request changes only the status of a stored schedule |
| RoutineGrid.GridHeader | frontend/src/pages/KegiatanRutinNew.jsx:383-387 | the header is four titles, the twelve month labels and "Total Jadwal" |
| RoutineGrid.GridRowCells | frontend/src/pages/KegiatanRutinNew.jsx:392-404 | every row has 4 + 12 + 1 cells, the middle twelve being the month cells |
| RoutineGrid.GridRowMeaning | frontend/src/pages/KegiatanRutinNew.jsx:392-404 | a row holds the number, institution, branch or "-", default quantity and schedule count; a month cell is "-" exactly when the month has no schedule, and otherwise the first such schedule's date |
| RoutineGrid.GridTable | frontend/src/pages/KegiatanRutinNew.jsx:389-405 | the table is the header then one row per shown stakeholder, numbered from 1 |
| RoutineGrid.ExportRows | frontend/src/pages/KegiatanRutinNew.jsx:389-405 | the push loops build exactly the table |
| RoutineGrid.ExportRow | frontend/src/pages/KegiatanRutinNew.jsx:392-404 | the month loop builds exactly one stakeholder's row |
| RoutineGrid.QuoteRow | frontend/src/pages/KegiatanRutinNew.jsx:407 | every cell is wrapped in double quotes |
| RoutineGrid.GridCsvReadsBack | frontend/src/pages/KegiatanRutinNew.jsx:406-408 | with no comma or line break in a cell, the file has the header and one line per stakeholder, each splitting into its seventeen quoted cells |
| RoutineGrid.GenerateRequest | frontend/src/pages/KegiatanRutinNew.jsx:270-275 | the prompt's month is accepted exactly when it is a number in 1..12, and is posted with the grid's year |
| RoutineGrid.GenerateRequestAccepted | frontend/src/pages/KegiatanRutinNew.jsx:270-285 | an accepted month passes the server's 400 check, and the server's window is that calendar month |
| Calendar.StartingWeekday | frontend/src/pages/KegiatanRutin.jsx:235-238 | the weekday of the 1st is in 0..6 |
| Calendar.RenderCalendar | frontend/src/pages/KegiatanRutin.jsx:234-293 | the grid is the w lead-in blanks, w the weekday of the 1st, followed by the cells of days 1..daysInMonth in order, daysInMonth being the month's last day |
| Calendar.CalendarLayout | frontend/src/pages/KegiatanRutin.jsx:240-248 | the grid has w + daysInMonth cells; cell i is blank for i < w and is the cell of day i - w + 1 otherwise |
| Calendar.RenderDay | frontend/src/pages/KegiatanRutin.jsx:248-289 | one iteration builds that day's cell |
| Calendar.Click | frontend/src/pages/KegiatanRutin.jsx:272-276 | a click opens the detail view exactly on a day with schedules, with its key and schedules |
| Calendar.ShownDaysSpec | frontend/src/pages/KegiatanRutin.jsx:236-237 | daysInMonth is 28 to 31, the month's length for ordinary input, and February has 29 exactly in leap years |
| Calendar.ColumnIsWeekday | frontend/src/pages/KegiatanRutin.jsx:238-248 | every day sits in the column of its own weekday |
| Calendar.DayKeyFormat | frontend/src/pages/KegiatanRutin.jsx:249-252 | a day key splits into three digit fields, the month and day two wide, reading back as year, month and day |
| Calendar.DayCellSpec | frontend/src/pages/KegiatanRutin.jsx:254-276 | a day holds exactly the entries whose pickup date is its key; it is marked and clickable exactly when there is one |
| Calendar.DaysDisjoint | frontend/src/pages/KegiatanRutin.jsx:249-254 | two different days of a month never share an entry |
| Calendar.TodayFlag | frontend/src/pages/KegiatanRutin.jsx:256-266 | the "today" flag is set exactly on the clock's date |
| Calendar.CalculateStats | frontend/src/pages/KegiatanRutin.jsx:73-80 | completed plus pending is at most the total, and the distinct stakeholders are at most the total and at least one when there is an entry |
| Calendar.CalculateStatsSpec | frontend/src/pages/KegiatanRutin.jsx:73-80 | completed and pending count the entries of that status; the stakeholder count is the number of distinct stakeholder names |
| Calendar.StatusLabel | frontend/src/pages/KegiatanRutin.jsx:221-229 | the four known statuses get their labels and any other status is returned unchanged |
| Calendar.StatusLabelsDistinct | frontend/src/pages/KegiatanRutin.jsx:221-229 | two statuses with the same label are the same status |
| Report.MonthlySpec | frontend/src/pages/ReportPage.jsx:57-72 | a month's count and expense are over exactly the proposals of that month and year, an unreadable amount counting 0, and both add up over concatenation |
| Report.YearlyData | frontend/src/pages/ReportPage.jsx:75-82 | there are twelve rows, row i being month i+1 of the year |
| Report.MonthIsBucket | frontend/src/pages/ReportPage.jsx:57-72 | a month's proposals are the bucket of that month under the year's key |
| Report.RowsAreBuckets | frontend/src/pages/ReportPage.jsx:75-82 | the first n rows count and sum exactly the proposals of the year in months 1..n |
| Report.YearTotals | frontend/src/pages/ReportPage.jsx:102-109 | the year's proposal total is the number of proposals dated that year, and its expense total their amounts summed |
| Report.CompareSpec | frontend/src/pages/ReportPage.jsx:85-100 | the difference is current minus comparison; the percentage is 0 without a comparison amount and otherwise the difference over it times 100; the trend is up exactly when the difference is at least 0 |
| Report.MaxOf | frontend/src/pages/ReportPage.jsx:112 | the maximum is at least every expense and is one of them |
| Report.BarHeights | frontend/src/pages/ReportPage.jsx:325-326 | with no positive maximum every bar is 0; otherwise a bar lies in 0..100 and the largest month reaches 100 |
| Report.AverageBounds | frontend/src/pages/ReportPage.jsx:102-112 | the average is the year's expense over twelve and is at most the largest month |
| Report.ReportTable | frontend/src/pages/ReportPage.jsx:128-131 | the export table is the header then one row per month, in order |
| Report.ReportTableReadsBack | frontend/src/pages/ReportPage.jsx:128-132 | with clean month names the file reads back as the header and each row cell by cell |
| Report.ReportCsvReadsBack | frontend/src/pages/ReportPage.jsx:127-132 | the export is one header line and exactly twelve month lines of name, expense and count |

## Left out

- HTTP, Express routing, Sequelize query execution, the database connection, CORS and static file serving are replaced by in-memory sequences.
- Multer's disk write and its timestamped file name are not modelled; the stored file name is an input.
- The fetch wrappers, the login page, token storage, route guards, modals, alerts, notifications, JSX rendering, the print and HTML report views, and the presentational components are not part of this model.
- The concurrent `Promise.all` bulk delete and bulk status change of the dashboard are left out; only the sequential bulk loop of the grid is modelled.
- Network failures are not modelled as such: the bulk loop takes the set of ids whose request throws as a parameter.
- Timezones and `Date` string parsing are not modelled: `tanggal_masuk` and `pickup_date` are taken as already-parsed (year, month, day) triples.
- Floating point is not modelled: amounts are integer rupiah, `parseFloat` of a decimal amount is an integer, and `toFixed(2)` and the half-way cases of `Math.round` are not represented (the completion rate rounds halves up, as `Math.round` does for non-negative values).
- Locale formatting (`toLocaleDateString("id-ID")`, the short month names of the grid export, `Intl.NumberFormat`) is a parameter or left out.
- `localeCompare` is modelled as character-code order on the text, not locale collation.
- SQL `LIKE '%…%'` is modelled as a case-sensitive literal substring match: the database's collation is not known, and a `%` or `_` in the search text, which `LIKE` reads as a wildcard, is matched literally.
- SQL `ORDER BY institution_name` and `ORDER BY pickup_date` are modelled as character-code and calendar order; the database's collation for the names is not known.
- Text.Lower: lower-cases only the ASCII letters 'A'..'Z'; JavaScript's `toLowerCase` also folds other letters (such as 'É' to 'é'), so searches and sorts over non-ASCII names can differ.
- The dashboard comparator never returns 0, so the order of rows with equal keys depends on the engine; the model states only an ordered permutation.
- Dashboard.SortKeyOf: a NaN amount sorts as 0 and a missing case id as empty text; JavaScript's comparisons with NaN and undefined are not modelled.
- Object prototype keys such as "constructor" in `branchCounts` and in the status labels are not modelled.
- Text.PadStart: the contract states only the padded length; where the page relies on the content (zero-padded numbers), Text.PadStartValue states that it is all digits and reads back as the number.
- Years are printed as `String(year)` prints them, with no padding to four digits, in the `YYYY-MM-DD` keys (Dates.IsoDate) and in the case id.
- Records.MergeStakeholder: an explicit JSON `null` in the body is not modelled. A body field is either absent or a value. `update(req.body)` with `"branch": null` clears a nullable column, whereas the model keeps the stored value. An `id` key in the body, which `create` and `update` would also write, is not modelled either. The pages never send either.
- Records.MergeSchedule: as for stakeholders, an explicit `null` (for instance `"pic": null` or `"quantity": null`) and an `id` key in the body are not modelled.
- Records.NewStakeholder: an explicit `"default_quantity": null` or `"is_active": null` stores NULL in the database, not the default, and that case is not modelled, because a body field has no null value.
- RoutineController.GeneratedFromEligible: `findAll({ where: { is_active: true } })` has no `ORDER BY`, so the database decides which new key each stakeholder's row gets. The model visits the stakeholders in table order. The count, the row shape and idempotence (GeneratedCount, GeneratedRowShape, GenerateIdempotent) do not depend on that order.
- RoutineGrid.CalculateAnalytics: `Object.keys(branchCounts)` lists integer-like branch names first, in ascending order. `branchOrder` lists the branches in the order they were first counted. No stated property depends on this order.
- RoutineController.RoutineStore.DeleteStakeholder: the foreign key's `ON DELETE` action is not declared in the models and the table definitions are not part of the code, so it is a parameter of the store (CASCADE, as the page's confirmation text says, or RESTRICT); a database without the constraint, which would leave orphaned schedules, is not modelled.
- Dashboard.AmountText: the CSV cell prints the parsed integer amount, whereas the page writes the raw `total_harga` text (such as "1500000.00"); decimal texts are not modelled.
- The calendar page reads `s.stakeholder` as text, whereas the controller sends an object; `Calendar.Entry` follows the page.
- RoutineGrid.CalculateAnalytics: a NULL quantity, which the page's `s.quantity || 0` counts as 0, is not modelled: the `quantity` column is nullable and a body with an explicit `"quantity": null` stores NULL, but the body fields cannot express an explicit null (see Records.MergeSchedule), so a stored quantity is always an integer.
- Report.RowOf and Report.Compare require a month in 1..12, the domain of the month selects that index `monthNames`.
- Report.YearTotals requires every proposal's month to be in 1..12, which holds for every parsed date.
- Report.BarHeights: the 0..100 range is stated only for months with a non-negative expense.
- The selection set of the grid's bulk change is never filled by the page; the model takes it as an input.

## Findings

| source | as written | input that shows it | evidently intended | confidence | as-written member | corrected member |
|---|---|---|---|---|---|---|
| frontend/src/pages/DashboardPages.jsx:312-318, 1171-1174 | the select-all handler and the header checkbox compare only the number of selected ids with the number of rows on the current page | ids 1..10 selected on page 1, then page 2 shows ids 11..20: the box shows checked and a click clears the selection instead of selecting page 2 | the box is checked, and a click clears, only when every row of the current page is selected; otherwise a click selects the page | medium, not executed | Dashboard.SelectAllAsWritten, Dashboard.SelectAllAsWrittenMisfires, Dashboard.DashboardView.ClickSelectAll | Dashboard.SelectAll, Dashboard.SelectAllFlips, Dashboard.DashboardView.ClickSelectAllCorrected |
