# Attendance management: a verified model of the admin app's logic

The attendance-management admin app is a React front end over Firebase.
Administrators use it to manage trainees, admins, divisions and trainee
logbooks. Most of its code reads and writes Firestore documents or renders
JSX. This project models the parts that are real logic, in Dafny:

- **Generic table** (`DataTable`): the case-insensitive search over field
  values, the page count and page slice, the reset rules of the three state
  fields, the disabled rules of the previous and next buttons, and the body
  that shows rows or one "No data available" row.
- **Logbook form** (`LogbookAdd`): index-based editing of the task list and
  field updates of the nested session record.
- **Month calendar** (`Calendar`):
  - ECMAScript day arithmetic (section 21.4.1 of ECMA-262);
  - month lengths and the weekday of day 1;
  - the cell grid cut into weeks, with a marker on days that have a logbook;
  - month navigation, including how `new Date` treats two-digit years.
- **Division form** (`DivisionAdd`): the next id is the highest id plus one,
  or 1 when there are no divisions.
- **Per-key counting** (`Tally`, `DateCounts`, `ChartOne`):
  - JavaScript objects used as counters are ordered dictionaries, because
    their non-index string keys iterate in insertion order;
  - the dashboard hook counts documents per date;
  - the chart counts interns and part-timers per month, merges the month keys
    and builds two aligned series.
- **Sign-in decision** (`Login`): who may enter, which message each refusal
  shows, and the redirect of a signed-in user.
- **Trainee and admin forms** (`Forms`, `TraineeAdd`, `TraineeEdit`,
  `AdminAdd`):
  - the password-confirmation gate;
  - the field handlers;
  - loading a fetched trainee;
  - the exact documents sent to the store.

How the model is built:

- A component's state (`useState`) becomes a class whose fields the handler
  methods update.
- A loop that fills a dictionary or an array becomes a method with loop
  invariants.
- Pure `filter`, `map`, `slice` and `Set` expressions become functions.
- Asynchronous handlers are split at their `await`. The first method does
  what happens before the call and returns the request it sends. A second
  method takes the call's outcome as a parameter and does the rest, including
  the `finally`.
- Firestore, Firebase authentication, the router, `alert` and local storage
  are not called. Their inputs arrive as parameters, and their effects are
  fields (`stored`, `navigatedTo`) or returned values.

`wrappers.dfy` holds `Option`. `arithmetic.dfy` holds the division and
multiplication facts that the calendar and pagination proofs use.

## Model

| member | source | states |
|---|---|---|
| DataTable.Lower | src/components/Tables/Table.tsx:24 | lower-casing keeps the length and lower-cases each character (ASCII letters only) |
| DataTable.Filter | src/components/Tables/Table.tsx:22-26 | a record is in `filteredData` iff it is in `data` and one of its field values contains the search term, ignoring case; never longer than `data` |
| DataTable.FilterKeepsOrder | src/components/Tables/Table.tsx:22-26 | `filteredData` is the subsequence of matching records in their original order: its j-th record is the record at the j-th matching position, the positions increase, and they are exactly the matching positions |
| DataTable.FilterSplits | src/components/Tables/Table.tsx:22-26 | searching a concatenation gives the concatenation of the two searches |
| DataTable.EmptyTermMatches | src/components/Tables/Table.tsx:23-24 | with an empty search term a record is kept iff it has at least one field |
| DataTable.TotalPages | src/components/Tables/Table.tsx:29 | `totalPages` is the ceiling of records / items per page: the least page count whose pages hold every record |
| DataTable.PageItemsBounds | src/components/Tables/Table.tsx:30-31 | from page 1 on, the page shows the records at positions start to min(start + itemsPerPage, n), so never more than `itemsPerPage` |
| DataTable.EveryRecordOnItsPage | src/components/Tables/Table.tsx:29-31 | record k appears on page k / itemsPerPage + 1, which is between 1 and `totalPages`, at position k mod itemsPerPage |
| DataTable.ShowingCountsRows | src/components/Tables/Table.tsx:141-146 | on an existing page, "Showing a to b" counts exactly the rows shown, and at least one |
| DataTable.PageNumbers | src/components/Tables/Table.tsx:174-182 | the numbered buttons are 1 to `totalPages`, in order |
| DataTable.HeaderRow | src/components/Tables/Table.tsx:62-71 | the header is the given headers plus an "Actions" column exactly when actions are shown |
| DataTable.ActionButtons | src/components/Tables/Table.tsx:79-106 | each of the view, edit and delete buttons is present iff its callback was supplied, and every button passes the record's `id` only |
| DataTable.RenderBody | src/components/Tables/Table.tsx:75-114 | the body is one "No data available" row iff the page is empty, spanning the header's column count; otherwise one row per record, with buttons iff actions are shown |
| DataTable.TableState.constructor | src/components/Tables/Table.tsx:17-19 | the table starts with an empty search, page 1 and 20 rows per page |
| DataTable.TableState.CurrentItems | src/components/Tables/Table.tsx:30-31 | the rows shown are at most `itemsPerPage` records, each from `data` and matching the search |
| DataTable.TableState.HandleSearchChange | src/components/Tables/Table.tsx:33-36 | typing stores the search term and resets to page 1; the page size is unchanged |
| DataTable.TableState.HandlePageChange | src/components/Tables/Table.tsx:38-40 | the page is stored as given, without clamping; nothing else changes |
| DataTable.TableState.HandleItemsPerPageChange | src/components/Tables/Table.tsx:42-45 | choosing a page size (one of 20, 40, 50, 100) stores it and resets to page 1; the search is unchanged |
| DataTable.TableState.ClickPrevious | src/components/Tables/Table.tsx:123-125 | Previous is disabled exactly on page 1; otherwise it moves one page back, never below 1 from a page at or above 1 |
| DataTable.TableState.ClickNext | src/components/Tables/Table.tsx:130-132 | Next is disabled exactly when the page equals `totalPages`, so it stays enabled with no results; otherwise it moves one page on |
| DataTable.TableState.ClickPageButton | src/components/Tables/Table.tsx:174-182 | the i-th numbered button selects page i + 1, a page between 1 and `totalPages` |
| LogbookAdd.SetSessionValue | src/pages/Logbooks/LogbooksAdd.tsx:41-47 | the named session field takes the value and the other two keep theirs |
| LogbookAdd.DropIndexRemovesOne | src/pages/Logbooks/LogbooksAdd.tsx:62-67 | filtering out position i of an existing task removes exactly that task and keeps the others in order; any other index removes nothing |
| LogbookAdd.LogbookForm.constructor | src/pages/Logbooks/LogbooksAdd.tsx:24-33 | the form starts with an empty date and session, one empty task and the route id as user id |
| LogbookAdd.LogbookForm.HandleInputChange | src/pages/Logbooks/LogbooksAdd.tsx:36-39 | the date input changes the date only |
| LogbookAdd.LogbookForm.HandleSessionChange | src/pages/Logbooks/LogbooksAdd.tsx:41-47 | a session input changes only that session field; date, tasks and user id are unchanged |
| LogbookAdd.LogbookForm.HandleAddTask | src/pages/Logbooks/LogbooksAdd.tsx:49-54 | one empty task is appended and the existing tasks keep their values and order |
| LogbookAdd.LogbookForm.HandleTaskChange | src/pages/Logbooks/LogbooksAdd.tsx:56-60 | task i takes the value; the length and every other task are unchanged |
| LogbookAdd.LogbookForm.HandleRemoveTask | src/pages/Logbooks/LogbooksAdd.tsx:62-67 | task i is removed and the others keep their order |
| LogbookAdd.LogbookForm.ClickRemove | src/pages/Logbooks/LogbooksAdd.tsx:170-175 | the trash button exists only after the first task, so the first task is never removed and at least one task remains |
| Calendar.DaysInMonth | src/pages/Calendar.tsx:7-9 | a month has 28 to 31 days |
| Calendar.YearLength | src/pages/Calendar.tsx:7-9 | a year has 366 days in a leap year and 365 otherwise |
| Calendar.DayZeroOfNextMonth | src/pages/Calendar.tsx:7-9 | day 0 of the next month, which `getDaysInMonth` reads, is the last day of the month, including February in leap years and December into the next year |
| Calendar.DayWithinMonth | src/pages/Calendar.tsx:7-9 | every day 1 to the month length falls inside the month, so `getDate` returns the month length |
| Calendar.WeekDay | src/pages/Calendar.tsx:11-13 | `getDay` is a weekday number from 0 to 6 |
| Calendar.FirstDayOfMonth | src/pages/Calendar.tsx:11-13 | the number of leading blanks is the weekday of day 1, from 0 to 6 |
| Calendar.FirstDayOfNextMonth | src/pages/Calendar.tsx:11-13 | the next month starts the month length later in the week |
| Calendar.NextMonthStart | src/pages/Calendar.tsx:7-13 | day 1 of the next month is the month length after day 1 of this month |
| Calendar.SplitWeeks | src/pages/Calendar.tsx:44-52 | the loop cuts the cells into consecutive rows of 7, the last holding the remainder |
| Calendar.WeekShape | src/pages/Calendar.tsx:44-52 | rows of 7 over non-empty cells number ceil(cells / 7), all full but the last, which holds 1 to 7 |
| Calendar.RowsFlatten | src/pages/Calendar.tsx:44-52 | concatenating the weeks gives back the cells |
| Calendar.RenderCalendar | src/pages/Calendar.tsx:15-54 | the weeks hold the weekday-of-day-1 blanks, then the days 1 to the month length in order, each marked iff a logbook falls on that day; ceil(cells / 7) weeks, all of 7 cells except the last, which has 1 to 7 |
| Calendar.CalendarView.constructor | src/pages/Calendar.tsx:4-5 | the calendar starts on the date given |
| Calendar.CalendarView.HandlePrevMonth | src/pages/Calendar.tsx:57-59 | the new date is day 1 of the month before, as `new Date` computes it; January goes to December of the previous year |
| Calendar.CalendarView.HandleNextMonth | src/pages/Calendar.tsx:61-63 | the new date is day 1 of the month after; December goes to January of the next year |
| DivisionAdd.MaxId | src/pages/Divison/DivisionAdd.tsx:20 | `Math.max` of a non-empty id list is one of the ids and at least every id |
| DivisionAdd.NextId | src/pages/Divison/DivisionAdd.tsx:19-24 | the proposed id is 1 for no divisions, otherwise the highest id plus 1, and it is greater than every id |
| DivisionAdd.DivisionForm.constructor | src/pages/Divison/DivisionAdd.tsx:11-14 | the form starts with no id and an empty name |
| DivisionAdd.DivisionForm.ApplyNextId | src/pages/Divison/DivisionAdd.tsx:18-25 | the effect sets the id to the proposed id and keeps the name |
| DivisionAdd.DivisionForm.HandleInputChange | src/pages/Divison/DivisionAdd.tsx:30-33 | typing changes the name only |
| Tally.Increment | src/hooks/useFireStoreCountByUniqueDates.tsx:19-22 | one more for the key and no change for any other key; a new key goes last in the key order; a valid dictionary stays valid |
| Tally.IncrementSum | src/hooks/useFireStoreCountByUniqueDates.tsx:16-23 | one increment adds exactly 1 to the sum of the counts |
| Tally.SumReorder | src/components/Charts/ChartOne.tsx:158-162 | summing the counts over any repetition-free key list that contains every counted key gives the same total |
| DateCounts.CountByDate | src/hooks/useFireStoreCountByUniqueDates.tsx:14-23 | a document without a date aborts the count; otherwise the keys are the documents' dates, each count is the number of documents with that date, and the counts add up to the number of documents |
| DateCounts.CountsOfStep | src/hooks/useFireStoreCountByUniqueDates.tsx:16-23 | one more document with date `k` keeps the counting invariant: `k`'s count goes up by one, every other count is unchanged, and the sum grows by one |
| DateCounts.CountedDates | src/hooks/useFireStoreCountByUniqueDates.tsx:14-23 | the counted keys are exactly the documents' dates |
| DateCounts.EntriesOfCounts | src/hooks/useFireStoreCountByUniqueDates.tsx:26-29 | the published array has no date twice, each entry's count is the number of documents with that date and at least 1, every document's date has an entry with its count, and the counts add up to the number of documents |
| DateCounts.Entries | src/hooks/useFireStoreCountByUniqueDates.tsx:26-29 | one `{date, count}` entry per key, in key order |
| DateCounts.TotalEntries | src/hooks/useFireStoreCountByUniqueDates.tsx:26-29 | the entries' counts add up to the dictionary's sum |
| DateCounts.CountsHook.constructor | src/hooks/useFireStoreCountByUniqueDates.tsx:6-7 | the hook starts with no counts and loading |
| DateCounts.CountsHook.FetchCounts | src/hooks/useFireStoreCountByUniqueDates.tsx:10-36 | loading ends false on every path; on failure the counts are kept; on success there is one entry per distinct date, no date twice, each count at least 1 and equal to the number of documents with that date, adding up to the number of documents |
| ChartOne.NatToString | src/components/Charts/ChartOne.tsx:139 | a natural number prints as one or more decimal digits, a single digit exactly below 10 |
| ChartOne.IntToString | src/components/Charts/ChartOne.tsx:139 | an integer prints with a leading minus exactly when it is negative |
| ChartOne.MonthKeyInjective | src/components/Charts/ChartOne.tsx:139 | the key `${year}-${month + 1}` determines year and month, so each key counts one month |
| ChartOne.Dedup | src/components/Charts/ChartOne.tsx:159 | `[...new Set(keys)]` has no repetitions and holds exactly the keys |
| ChartOne.NotIn | src/components/Charts/ChartOne.tsx:158-159 | the part-time keys not already among the intern keys |
| ChartOne.DedupMerge | src/components/Charts/ChartOne.tsx:158-159 | merging two repetition-free key lists keeps the first list and then the second list's new keys |
| ChartOne.CountedStep | src/components/Charts/ChartOne.tsx:144-149 | `counts[key] = (counts[key] \|\| 0) + 1` counts one more key, keeping first-occurrence order, per-key counts and the total |
| ChartOne.CountByMonth | src/components/Charts/ChartOne.tsx:133-150 | an intern adds one to the intern count of its month and a part-timer to the part-time count, any other type to neither; keys in first-occurrence order, counts equal to the number of documents, totals equal to the number of documents of the type |
| ChartOne.Series | src/components/Charts/ChartOne.tsx:161-162 | one value per month: the month's count, or 0 |
| ChartOne.TotalSeries | src/components/Charts/ChartOne.tsx:161-162 | a series adds up to the sum of the counts over its months |
| ChartOne.SeriesOfCounted | src/components/Charts/ChartOne.tsx:161-162 | over months covering every counted key, each series value is the number of documents of that month and the series adds up to the number of documents |
| ChartOne.ChartSeries | src/components/Charts/ChartOne.tsx:133-162 | the months are the intern months in first-occurrence order, then the new part-time months; no repetitions; both series aligned with the months; each value the number of documents of that type and month; each series adds up to the number of documents of its type |
| Login.Decide | src/pages/Authentication/Login.tsx:38-62 | access is granted iff the user document exists with role admin or super.admin and is active, and the user is exactly `{id, role}`; a missing document gives "User not found.", a refused role or status the permission message, an exception "Incorrect username or password." |
| Login.RefusalIdentifiesCause | src/pages/Authentication/Login.tsx:38-62 | the three messages tell the three causes apart |
| Login.LoginPage.constructor | src/pages/Authentication/Login.tsx:11-19 | the page starts with empty email, password and error, not loading |
| Login.LoginPage.Redirect | src/pages/Authentication/Login.tsx:12-14 | a signed-in user is redirected to "/" and only then |
| Login.LoginPage.HandleEmailChange | src/pages/Authentication/Login.tsx:108 | typing changes the email only |
| Login.LoginPage.HandlePasswordChange | src/pages/Authentication/Login.tsx:126 | typing changes the password only |
| Login.LoginPage.BeginSignIn | src/pages/Authentication/Login.tsx:22-25 | loading is on while the sign-in is pending |
| Login.LoginPage.FinishSignIn | src/pages/Authentication/Login.tsx:28-66 | a granted user is set, stored and sent to "/"; a refusal shows its message and sets no user; loading ends on every path |
| Forms.TraineeKeysExact | src/pages/Trainee/TraineeAdd.tsx:13-23 | the nine form fields have nine distinct document keys |
| Forms.TraineeSet | src/pages/Trainee/TraineeAdd.tsx:36-39 | the named trainee field takes the value and every other field keeps its own |
| Forms.TraineeDoc | src/pages/Trainee/TraineeAdd.tsx:66-67 | spreading the trainee data gives exactly the nine keys, each holding its field's text |
| Forms.TextOrEmpty | src/pages/Trainee/TraineeEdit.tsx:39-47 | `doc.key \|\| ''` is the stored text, or '' when the key is missing or falsy |
| TraineeAdd.NewTraineeDoc | src/pages/Trainee/TraineeAdd.tsx:66-71 | the new trainee document holds the nine fields plus role "trainee", the password and `isActive`, and nothing else |
| TraineeAdd.TraineeAddForm.constructor | src/pages/Trainee/TraineeAdd.tsx:11-26 | the form starts active, with empty fields and passwords, not loading |
| TraineeAdd.TraineeAddForm.HandleToggle | src/pages/Trainee/TraineeAdd.tsx:32-34 | the switch sets `isActive` to the value passed and nothing else |
| TraineeAdd.TraineeAddForm.HandleInputChange | src/pages/Trainee/TraineeAdd.tsx:36-39 | only the named field changes |
| TraineeAdd.TraineeAddForm.HandlePasswordChange | src/pages/Trainee/TraineeAdd.tsx:41-44 | the password is stored and the mismatch message cleared |
| TraineeAdd.TraineeAddForm.HandleConfirmPasswordChange | src/pages/Trainee/TraineeAdd.tsx:46-49 | the confirmation is stored and the mismatch message cleared |
| TraineeAdd.TraineeAddForm.HandleSubmit | src/pages/Trainee/TraineeAdd.tsx:53-71 | different passwords set "Passwords do not match.", leave loading alone and send nothing; equal passwords start loading and send the new trainee document |
| TraineeAdd.TraineeAddForm.Settle | src/pages/Trainee/TraineeAdd.tsx:77-79 | loading ends after the write, on success and on failure |
| TraineeEdit.LoadedTrainee | src/pages/Trainee/TraineeEdit.tsx:38-48 | each of the nine fields is copied from the fetched trainee, or '' when missing |
| TraineeEdit.LoadedActive | src/pages/Trainee/TraineeEdit.tsx:37 | `isActive` is the truthiness of the fetched flag, false when missing |
| TraineeEdit.UpdatePayload | src/pages/Trainee/TraineeEdit.tsx:86-90 | the update holds the nine fields plus `isActive` and the password, and no role |
| TraineeEdit.ReloadUpdate | src/pages/Trainee/TraineeEdit.tsx:35-50 | reloading a trainee saved by the edit form gives back the saved fields and flag |
| TraineeEdit.TraineeEditForm.constructor | src/pages/Trainee/TraineeEdit.tsx:13-33 | before the fetch the fields are empty and the switch is off |
| TraineeEdit.TraineeEditForm.LoadFetched | src/pages/Trainee/TraineeEdit.tsx:35-50 | a fetched trainee replaces the fields and the flag; without one nothing changes |
| TraineeEdit.TraineeEditForm.HandleToggle | src/pages/Trainee/TraineeEdit.tsx:54-56 | the switch sets `isActive` and nothing else |
| TraineeEdit.TraineeEditForm.HandleInputChange | src/pages/Trainee/TraineeEdit.tsx:58-61 | only the named field changes |
| TraineeEdit.TraineeEditForm.HandlePasswordChange | src/pages/Trainee/TraineeEdit.tsx:63-66 | the password is stored and the mismatch message cleared |
| TraineeEdit.TraineeEditForm.HandleConfirmPasswordChange | src/pages/Trainee/TraineeEdit.tsx:68-71 | the confirmation is stored and the mismatch message cleared |
| TraineeEdit.TraineeEditForm.HandleSubmit | src/pages/Trainee/TraineeEdit.tsx:75-90 | different passwords set the mismatch message and update nothing; equal passwords start loading and send the update |
| TraineeEdit.TraineeEditForm.Settle | src/pages/Trainee/TraineeEdit.tsx:96-98 | loading ends after the update, on success and on failure |
| AdminAdd.AdminSet | src/pages/Admin/AdminAdd.tsx:30-33 | the named admin field takes the value and the others keep theirs |
| AdminAdd.AdminRecord | src/pages/Admin/AdminAdd.tsx:61-65 | the stored admin record holds name, email, division, role "admin" and `isActive`, and no password |
| AdminAdd.AdminAddForm.constructor | src/pages/Admin/AdminAdd.tsx:12-21 | the form starts active, with empty fields and passwords, not loading |
| AdminAdd.AdminAddForm.HandleToggle | src/pages/Admin/AdminAdd.tsx:26-28 | the switch sets `isActive` and nothing else |
| AdminAdd.AdminAddForm.HandleInputChange | src/pages/Admin/AdminAdd.tsx:30-33 | only the named field changes |
| AdminAdd.AdminAddForm.HandlePasswordChange | src/pages/Admin/AdminAdd.tsx:35-38 | the password is stored and the mismatch message cleared |
| AdminAdd.AdminAddForm.HandleConfirmPasswordChange | src/pages/Admin/AdminAdd.tsx:40-43 | the confirmation is stored and the mismatch message cleared |
| AdminAdd.AdminAddForm.HandleSubmit | src/pages/Admin/AdminAdd.tsx:47-57 | different passwords set the mismatch message and create nothing; equal passwords start loading and ask for an account with the form's email and password |
| AdminAdd.AdminAddForm.Complete | src/pages/Admin/AdminAdd.tsx:57-74 | the record is written under the new account's uid only when the account was created; loading ends either way |

## Left out

- Firestore and Firebase authentication calls are not modelled. This covers reading the users, divisions and logbooks, adding, updating and setting documents, signing in and creating accounts. Their outcomes are parameters of the model.
- React scheduling is not modelled: effect dependencies, re-renders, and which state a closure captured. Each handler acts on the current state.
- JSX, CSS, icons and the chart library's options are not modelled, and neither is the write to the module-level `options` object in the chart component.
- Navigation after success, `alert`, the cancel buttons and the "Loading..." and error screens of the forms are not modelled. Login's navigation is recorded only as `navigatedTo`.
- Date parsing is not modelled: `new Date(string)`, `toDate()`, `toISOString().split('T')[0]` and Firestore timestamps. Date keys arrive as strings, and the chart's start dates arrive as a year and a 0-based month.
- The logbook form's submit is not modelled. It only converts the date strings to `Date` objects and writes the document.
- The division form's submit is not modelled. It only writes the document.
- DataTable.Lower: lower-cases ASCII letters only, not the full Unicode `toLowerCase`.
- DataTable.Filter: field values are strings already; `String(value)` on numbers, objects and timestamps is not modelled.
- DataTable.TableState.HandleItemsPerPageChange: accepts only the four sizes the selector offers, not any `Number(...)` result.
- LogbookAdd.LogbookForm.HandleTaskChange: builds the new list from the current state. The source copies the task list captured when the page rendered, and the model does not capture that.
- LogbookAdd.LogbookForm.HandleInputChange: only the `date` input is wired to this handler, so the model changes only the date.
- Calendar.CalendarView.constructor: starts from a valid date given by the caller rather than reading the clock.
- Calendar.RenderCalendar: logbooks without a date are given as `None`; `Date` objects outside the representable range are not modelled.
- ChartOne.CountByMonth: every start date is a valid date. An unparseable start date produces a `NaN-NaN` key in the source.
- DateCounts.CountByDate: a document whose date field is missing makes the source throw inside the loop. The model says this by aborting (`None`); the hook then keeps its old counts.
- TraineeEdit.LoadedTrainee: a fetched field that is a non-empty non-string value is read as '', whereas the source would copy the value itself.
- TraineeEdit.LoadedActive: a truthy non-boolean `isActive` is stored as `true`, whereas the source stores the value itself.
- Login.Decide: the stored role is compared as a string; `isActive` is a boolean, not an arbitrary truthy value.
- DivisionAdd.MaxId: ids are integers; `Math.max` over non-numeric ids (giving `NaN`) is not modelled.
