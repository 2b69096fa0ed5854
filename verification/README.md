# Attendance and payroll rules, modelled in Dafny

This project models the core of an attendance and payroll tracker written in
PHP. Workers punch in and punch out once a day, in one of three slots:
office, work-from-home (wfh) or site visit. An office punch-in must fall
inside a geofence. A punched-in day can be converted to a site visit. A
nightly sweep closes the rows that are still open. A day-count engine turns
each row into a credit of 0, 0.5 or 1 day. Payroll adds up the credits, the
approved leaves and the approved expenses of a month.

Modules, one per concern:

- `Clock` (clock.dfy): server time as whole seconds of Asia/Kolkata wall-clock
  time. It also holds the zero-padded `'H:i'` text and PHP's string ordering.
  `HiOrder` proves that comparing two `'H:i'` strings orders them exactly as
  the minutes they show.
- `DayCountEngine` (day_count.dfy): `calculate_day_count` written as the PHP
  does it, with string comparisons. `DayCountByMinutes` restates the same
  rules on minutes and seconds, with no strings, and the two are proved
  equal.
- `Attendance` (attendance.dfy): the attendance table as a map from row id to
  row, plus one step function per operation: `PunchInStep`, `PunchOutStep`,
  `ConvertStep` and `SweepStep`. The lemmas about guards, frames and
  idempotence are stated on these. `WellFormed` is the table invariant: at
  most one row per (user, punch-in date), and a row holds a day count exactly
  when it is closed. Every step preserves it.
- `AttendanceStore` (attendance_store.dfy): the class `AttendanceTable`, whose
  methods update the row map in place, statement by statement as db.php
  does. Each method is proved to have the effect of its step function.
- `Leaves`, `Expenses`: `apply_leave`, `add_expense` and the admin status
  updates, each as step functions plus a table class.
- `Payroll`: the monthly attendance summary, the approved-leave count, the
  approved-expense total and `calculate_monthly_salary`, all in exact reals.
- `Api`: the request gate (login, then admin), the slot whitelist, the
  photo-path defaulting, and the approve/reject endpoints.

Behaviour of the code that the model keeps as it is:

- `punch_out` passes the row as it was before the update to the engine. Its
  punch-out time is still null, and PHP reads a null time as "now".
  `CalculateDayCount` does the same with `r.punchOutTime.GetOr(now)`.
- The day count is bound as an integer, so a half day is returned to the
  client as 0.5 but stored as 0 (`HalfDayStoredAsZero`). As a result the
  summary's half-day count is always 0, and its day total equals its
  full-day count (`SummaryFacts`).
- The work-summary check is PHP `empty()`. It rejects `""` and `"0"` and
  accepts text made only of blanks.
- `convert_to_site_visit` does not look at the punch-out time. A closed row
  can therefore become a site visit and keep a day count of 0
  (`ConvertAfterPunchOut`).
- The sweep stamps its own clock reading, not the 23:59 constant.
- The sweep does not run the engine. It builds a copy of each selected row
  (`$temp_attendance`) from a three-column SELECT of id, user and slot, never
  uses it, and stores a hard-coded 0 for office and wfh. The engine on the
  full stored row, closed at the sweep's clock with the flag unset, would
  credit an office row open from 09:00 to 23:59 a full day; the table gets 0
  (`SweepOverridesEngine`).
- add_expense cannot store a claim as written (see "## Findings"). The
  model carries both the failing bind and the corrected insert.
- Rule 3 (late arrival, late departure) never changes a result when the
  punch-out is not earlier than the punch-in. Whenever it fires, at least
  8 h 44 min have passed, so rule 4 also gives a full day
  (`RecoveryNeverDecides`). The rule is kept as written.
- `get_today_attendance` uses `LIMIT 1` with no ordering. The model takes the
  least matching id. On a well-formed table only one row can match
  (`TodayAttendanceExact`).

## Model

| member | source | states |
|---|---|---|
| `Clock.HiOrder` | db.php:206-210 | Comparing two zero-padded 'H:i' strings as PHP does (byte order) gives the same order as comparing the minutes they show |
| `Clock.HiConstants` | config.php:50-54 | '10:00', '10:15' and '19:00' are the renderings of minutes 600, 615 and 1140 |
| `Clock.FormatHi` | db.php:206-209 | `format('H:i')` of a timestamp: the zero-padded hour and minute of its minute of the day |
| `Clock.LexLe` | db.php:207-210 | PHP's `<=` on two non-numeric strings: byte-wise lexicographic order, a proper prefix first |
| `Records.BindInt` | db.php:133 | Binding a number with type 'i' truncates toward zero: the result is within 1 of the input and does not pass zero |
| `Records.BindParams` | db.php:395 | mysqli `bind_param`'s arity rule: the call binds only when the type string has one letter per bound value; PHP 8's argument-count error and PHP 7's `false` both become `Err(BindMismatch)`, and the statement then writes nothing (used for db.php:395 and db.php:532) |
| `DayCountEngine.HourFallback` | db.php:215-224 | The hour rule yields only 0, 0.5 or 1 |
| `DayCountEngine.InLateWindow` | db.php:206-207 | Rule 3's first test: the punch-in 'H:i' string lies between '10:00' and '10:15' in string order; characterised on minutes by `LateWindowByMinutes` |
| `DayCountEngine.Recovered` | db.php:209-210 | Rule 3's second test: the punch-out 'H:i' string is at or after '19:00' in string order; characterised on minutes by `LateWindowByMinutes` |
| `DayCountEngine.DayCount` | db.php:190-225 | The priority chain yields only 0, 0.5 or 1 |
| `DayCountEngine.CalculateDayCount` | db.php:190-225 | On a row, with a null punch-out read as now: always 0, 0.5 or 1; a site-visit row is 1; an auto-punched-out office/wfh row is 0 |
| `DayCountEngine.LateWindowByMinutes` | db.php:205-213 | The string tests of rule 3 hold exactly when the punch-in minute is in [600, 615] and the punch-out minute is at least 1140 |
| `DayCountEngine.DayCountMatchesMinutes` | db.php:190-225 | The engine as written equals a string-free statement of the rules on minutes and elapsed seconds, for every input |
| `DayCountEngine.SiteVisitOverride` | db.php:191-194 | A site visit is 1 day whatever the times and the auto flag |
| `DayCountEngine.AutoPunchOutPenalty` | db.php:199-203 | An auto-punched-out office/wfh row is 0, even when late recovery or 8 hours would apply |
| `DayCountEngine.LateRecoveryFullDay` | db.php:205-213 | Punch-in minute 10:00-10:15 (seconds dropped, so 10:15:59 qualifies) and punch-out at 19:00 or later give 1 |
| `DayCountEngine.HourThresholds` | db.php:215-224 | When no earlier rule fires: 0 if and only if under 4 h, 0.5 if and only if 4 h to under 8 h, 1 if and only if 8 h or more |
| `DayCountEngine.HourFallbackMonotone` | db.php:215-224 | More hours never give a lower credit under the hour rule |
| `DayCountEngine.RecoveryNeverDecides` | db.php:205-224 | When punch-out is not before punch-in, the result equals the chain without rule 3 |
| `DayCountEngine.DayCountMonotone` | db.php:190-225 | With punch-in, slot and flag fixed, a later punch-out never lowers the day count |
| `DayCountEngine.ScenarioLateRecovery` | db.php:205-213 | Office 10:05 to 19:05 gives 1 |
| `DayCountEngine.ScenarioHalfDay` | db.php:215-224 | 09:00 to 16:30 gives 0.5 |
| `DayCountEngine.ScenarioShortDay` | db.php:215-219 | 09:00 to 12:00 gives 0 |
| `Attendance.TodayAttendance` | db.php:32-43 | get_today_attendance: the row of the user whose punch-in date is today's date, taken as the least such id for LIMIT 1 (characterised by `FirstMatch` and `TodayAttendanceExact`) |
| `Attendance.FirstMatch` | db.php:32-43 | The result is the least id in range whose row belongs to the user on that date, or none when no such row exists |
| `Attendance.TodayAttendanceExact` | db.php:32-43 | On a well-formed table, the lookup finds nothing exactly when the user has no row dated today, and otherwise finds that row |
| `Attendance.AttendanceError.Message` | db.php:55-162 | The reply text of each attendance failure, the geofence one with the distance rounded to whole metres |
| `Attendance.PunchInStep` | db.php:48-92 | punch_in on the table: the duplicate check, then the office geofence at more than 100 m, then the INSERT of an open row; its outcomes are stated by `PunchInOutcome` |
| `Attendance.PunchInOutcome` | db.php:48-92 | "Already punched in today" if and only if a row exists for today; geofence failure if and only if there is no row, the slot is office and the distance exceeds 100 m; failures change nothing; success inserts exactly one open row under a fresh id |
| `Attendance.GeofenceBoundary` | db.php:59-68 | wfh and site visit skip the geofence, and an office punch-in at exactly 100 m succeeds |
| `Attendance.PunchInKeepsWellFormed` | db.php:48-92 | punch_in keeps one row per (user, date) and the row invariants |
| `Attendance.SecondPunchInFails` | db.php:50-57 | After a successful punch-in, any further punch-in by that user on the same date fails and creates nothing |
| `Attendance.PhpEmpty` | db.php:116 | PHP `empty()` on the posted summary: true for `""` and `"0"` only |
| `Attendance.PunchOutStep` | db.php:97-149 | punch_out on the table: no row, already out, missing summary for office/wfh, otherwise the engine on the unchanged row and the UPDATE of the six punch-out columns (time, latitude and longitude held as one location, photo, summary, day count); its outcomes are stated by `PunchOutOutcome` |
| `Attendance.PunchOutOutcome` | db.php:97-149 | Each error holds under its exact condition and changes nothing; on success only today's row changes, and its new value is the old row with punch-out time now, the posted location, photo and summary, and the integer-bound day count; every other column (user, slot, punch-in columns, auto flag, site-visit columns) stays; the credit is the engine's with the auto flag off |
| `Attendance.HalfDayStoredAsZero` | db.php:124-141 | A punch-out that reports 0.5 stores day count 0 |
| `Attendance.PunchOutKeepsWellFormed` | db.php:97-149 | punch_out keeps the table invariant |
| `Attendance.ConvertStep` | db.php:154-185 | convert_to_site_visit on the table: no row, already a site visit, otherwise the UPDATE of the slot and the site-visit columns; its outcomes are stated by `ConvertOutcome` |
| `Attendance.ConvertOutcome` | db.php:154-185 | Fails with no row or with a row already on site visit, changing nothing; otherwise only slot and site-visit columns of today's row change, open or closed |
| `Attendance.ConvertKeepsWellFormed` | db.php:154-185 | convert_to_site_visit keeps the table invariant |
| `Attendance.SecondConversionFails` | db.php:161-163 | A second conversion on the same date always fails and changes nothing |
| `Attendance.ConvertAfterPunchOut` | db.php:155-172 | Converting a closed row makes it a site visit but keeps the stored day count and punch-out time |
| `Attendance.AutoClose` | db.php:261-276 | The UPDATE of one selected row: punch-out at the sweep's clock, day count 1 for a site visit and 0 otherwise, the flag set, the fixed summary |
| `Attendance.SweepStep` | db.php:243-282 | auto_punch_out_system on the table: every row punched in today and still open is closed by `AutoClose`, all others are left; stated by `SweepFrame` |
| `Attendance.SweepFrame` | db.php:243-282 | The sweep changes only rows punched in today and still open; each becomes the old row with punch-out now, day count 1 for a site visit and 0 otherwise, the flag set and the summary 'Punch out automatically done by system', every other column kept; other rows are unchanged; no row of today is left open |
| `Attendance.SweepIdempotent` | db.php:248-279 | Running the sweep again on the same date, at any time of that date, changes nothing |
| `Attendance.SweepAgreesWithEngine` | db.php:261-276 | Only after the flag is set: on the row the sweep stores, the engine's auto-punch-out rule gives the stored 0/1 |
| `Attendance.SweepOverridesEngine` | db.php:248-266 | The sweep stores 0 for every office/wfh row it closes, whereas the engine on the full stored row, closed at the sweep's clock with the flag unset, gives a full day from 8 h open and at least half a day from 4 h (the copy built at db.php:258-259 holds only id, user and slot and is never passed to the engine) |
| `Attendance.SweepOverridesEngineExample` | db.php:248-266 | An office row punched in at 09:00 and swept at 23:59: the engine on the stored row gives 1, the table gets 0 |
| `Attendance.SweepKeepsWellFormed` | db.php:243-282 | The sweep keeps the table invariant |
| `Attendance.NoActionAfterSweep` | db.php:50-57 | After the sweep has closed a user's row, punch-in and punch-out on that date both fail and change nothing |
| `Attendance.ScenarioConvertedSiteVisit` | db.php:190-194 | Office punch-in, then a conversion, then a punch-out 3 hours later gives 1 day |
| `AttendanceStore.AttendanceTable.GetTodayAttendance` | db.php:32-43 | The scan returns the lookup's row, which belongs to the user and is dated today |
| `AttendanceStore.AttendanceTable.PunchIn` | db.php:48-92 | The in-place insert has the effect of PunchInStep and keeps the invariant |
| `AttendanceStore.AttendanceTable.PunchOut` | db.php:97-149 | The in-place update has the effect of PunchOutStep and keeps the invariant |
| `AttendanceStore.AttendanceTable.ConvertToSiteVisit` | db.php:154-185 | The in-place update has the effect of ConvertStep and keeps the invariant |
| `AttendanceStore.AttendanceTable.AutoPunchOutSystem` | db.php:243-282 | The loop over the selected rows leaves the table equal to SweepStep of the old table |
| `Leaves.ApplyLeaveStep` | db.php:291-342 | apply_leave on the table: refuse interns, refuse a second (user, date, type), otherwise insert a pending leave; stated by `ApplyLeaveOutcome` |
| `Leaves.SameLeaveType` | db.php:304 | `leave_type = ?` under a case-insensitive collation: the two types are equal once ASCII letters are folded to lower case |
| `Leaves.LeaveError.Message` | db.php:297-314 | The reply text of each apply_leave failure |
| `Leaves.ApplyLeaveOutcome` | db.php:291-342 | Interns are refused; a duplicate (user, date, type) is refused; failures change nothing; otherwise exactly one pending leave is inserted and uniqueness holds |
| `Leaves.SecondApplicationFails` | db.php:301-316 | Applying twice for the same user, date and type fails the second time |
| `Leaves.OtherTypeSameDateAccepted` | db.php:301-316 | A leave whose type differs even after case folding is still accepted on the same date |
| `Leaves.CaseVariantIsDuplicate` | db.php:301-316 | After 'sick' is on record for a date, 'Sick' for that date is refused as already applied and changes nothing |
| `Leaves.SetStatusStep` | api.php:209-212 | The admin UPDATE of one leave's status and updated_at, by id, with no guard on the previous status; stated by `SetStatusFrame` |
| `Leaves.SetStatusFrame` | api.php:209-212 | Setting a leave's status changes only that row's status and updated_at, from any previous status |
| `Leaves.LeaveTable.ApplyLeave` | db.php:291-342 | The in-place insert has the effect of ApplyLeaveStep |
| `Leaves.LeaveTable.SetStatus` | api.php:243-246 | The in-place update has the effect of SetStatusStep |
| `Expenses.AddExpenseStep` | db.php:391-395 | The INSERT of add_expense once bound (corrected): a pending claim under the next id; stated by `AddExpenseOutcome` |
| `Expenses.AddExpenseWith` | db.php:387-411 | add_expense with a given type string: a bind failure leaves the table unchanged and fails, otherwise the insert runs |
| `Expenses.AddExpenseAsWrittenFails` | db.php:395 | As written, the seven-letter type string for eight values fails to bind on every input and the table is unchanged; with one letter per value the insert of `AddExpenseStep` happens |
| `Expenses.AddExpenseOutcome` | db.php:387-411 | The corrected insert adds exactly one row, equal to the posted user, amount, description, date and receipt with status pending and both timestamps now, keeps every other row and keeps the table well formed |
| `Expenses.SetStatusStep` | api.php:277-280 | The admin UPDATE of one claim's status and updated_at, by id, with no guard on the previous status; stated by `SetStatusFrame` |
| `Expenses.SetStatusFrame` | api.php:277-280 | Setting a claim's status changes only that row's status and updated_at, from any previous status |
| `Expenses.ExpenseTable.AddExpense` | db.php:387-411 | The bind-then-insert, in place, has the effect of `AddExpenseWith` for the type string given: nothing changes with the string as written, one row is added with the corrected one |
| `Expenses.ExpenseTable.SetStatus` | api.php:311-314 | The in-place update has the effect of SetStatusStep |
| `Payroll.SummaryUpTo` | db.php:471-479 | The four aggregates (row count, full days, half days, day total) over the user's rows dated in the month; stated by `SummaryFacts` |
| `Payroll.SummaryFacts` | db.php:471-479 | COUNT(*) is the number of the user's rows dated in the month; the full-day count and SUM(day_count) are both the number of those rows whose stored day count is 1; no half day is counted |
| `Payroll.MonthlyAttendanceSummary` | db.php:467-484 | get_monthly_attendance_summary: the aggregates over every id of the table; stated by `MonthlySummaryFacts` |
| `Payroll.MonthlySummaryFacts` | db.php:467-484 | On a well-formed table, over every row of the table: COUNT(*) is the number of the user's rows in the month, and the day total paid on is the number of those rows stored with day count 1; no half day is counted |
| `Payroll.ApprovedLeaveCount` | db.php:528-535 | COUNT of the user's approved leaves dated in the month (the query as corrected); stated by `LeaveCountAfterStatus` |
| `Payroll.LeaveCountAnyStatus` | db.php:528-535 | For any row, any old and any new status: count after + [row counted before] = count before + [row counted after]; a row of another user, outside the month or beyond the ids leaves the count unchanged |
| `Payroll.LeaveCountAfterStatus` | db.php:528-535 | Derived from `LeaveCountAnyStatus`: approving a not-yet-approved leave in the month adds one; any other status adds nothing |
| `Payroll.LeaveCountAfterRevoke` | db.php:528-535 | Setting an approved leave of the user in the month to any other status lowers the count by exactly one |
| `Payroll.ApprovedExpenseTotal` | db.php:416-429 | SUM of the amounts of the user's approved claims dated in the month, 0 when there are none; stated by `ExpenseSumAfterStatus` |
| `Payroll.ExpenseSumAnyStatus` | db.php:416-429 | For any claim, any old and any new status: total after + [amount counted before] = total before + [amount counted after]; a claim of another user, outside the month or beyond the ids leaves the total unchanged |
| `Payroll.ExpenseSumAfterStatus` | db.php:416-429 | Derived from `ExpenseSumAnyStatus`: approving a not-yet-approved claim in the month adds its amount; any other status adds nothing |
| `Payroll.ExpenseSumAfterRevoke` | db.php:416-429 | Setting an approved claim of the user in the month to any other status lowers the total by exactly its amount |
| `Payroll.SalaryFor` | db.php:502-546 | The intern (hourly or fixed) and employee payslips from the day total, leave count and expense total; stated by `GrossSalary` |
| `Payroll.CalculateMonthlySalary` | db.php:489-546 | calculate_monthly_salary with the leave query corrected: the summary, the approved expenses and leaves fed to `SalaryFor` |
| `Payroll.GrossSalary` | db.php:502-546 | Employee gross = (days + approved leaves)·S/30 + approved expenses; hourly intern = days·8·stipend + expenses; fixed intern = stipend + expenses |
| `Payroll.FixedStipendIgnoresAttendance` | db.php:508-511 | A fixed-stipend intern's gross does not depend on attendance |
| `Payroll.FullMonthEarnsSalary` | db.php:522-535 | An employee credited 30 days with no expenses earns exactly the monthly salary |
| `Payroll.ApprovingLeaveAddsOneDay` | db.php:522-546 | Approving a pending or rejected leave in the month raises an employee's gross by S/30 |
| `Payroll.ApprovingExpenseAddsAmount` | db.php:500-546 | Approving a pending or rejected claim in the month raises the gross by its amount |
| `Payroll.RejectingLeaveRemovesOneDay` | db.php:522-546 | Rejecting an approved leave in the month lowers an employee's gross by S/30 |
| `Payroll.RejectingExpenseRemovesAmount` | db.php:500-546 | Rejecting an approved claim in the month lowers the gross by its amount |
| `Payroll.SalaryAsWrittenFailsForEmployees` | db.php:528-534 | As written, the employee branch fails at binding for every input; a four-letter type string binds |
| `Payroll.EmployeeLeaveCountAsWritten` | db.php:528-534 | The employee branch's leave query as written: the three-letter type string against four values decides whether the count is reached |
| `Payroll.CalculateMonthlySalaryAsWritten` | db.php:489-546 | calculate_monthly_salary as written: interns as in `CalculateMonthlySalary`, every other role through `EmployeeLeaveCountAsWritten`; stated by `SalaryAsWrittenFailsForEmployees` |
| `Api.LoggedIn` | auth.php:16-18 | is_logged_in: both the user id and the role are set in the session |
| `Api.IsAdmin` | auth.php:105-107 | is_admin: the session role is admin |
| `Api.ParseSlot` | api.php:48-52 | A slot is accepted if and only if it is one of office, wfh, site_visit, and is read back as that name |
| `Api.SlotNameRoundTrip` | config.php:80-82 | Every slot's stored name passes the whitelist and reads back as the same slot |
| `Api.PhotoPath` | api.php:54-63 | The photo path passed on: the upload URL plus the file name when a non-empty file arrived and was moved, null otherwise; stated by `StorePhoto` |
| `Api.StorePhoto` | api.php:54-63 | The upload block run by the actions: the photo path is set if and only if a non-empty file arrived and was moved, otherwise null, and it equals `PhotoPath`, the function the actions' contracts use |
| `Api.PunchInReply` | db.php:52-90 | The reply punch_in returns and api.php:66 echoes: success with 'Punched in successfully' and the new id, or failure with the error's message |
| `Api.PunchOutReply` | db.php:101-147 | The reply punch_out returns and api.php:89 echoes: success with 'Punched out successfully' and the day count as computed (0.5 kept), or failure with the error's message |
| `Api.ConvertReply` | db.php:157-184 | The reply convert_to_site_visit returns and api.php:111 echoes: success with 'Converted to site visit' and the row id, or failure with the error's message |
| `Api.PunchInAction` | api.php:35-68 | Not logged in: redirect. Invalid slot: "Invalid slot" and no change. Otherwise punch_in with the defaulted photo path, and its reply |
| `Api.PunchOutAction` | api.php:71-91 | Not logged in: redirect. Otherwise punch_out with the defaulted photo path and the untrimmed summary, and its reply |
| `Api.ConvertSiteVisitAction` | api.php:94-113 | Not logged in: redirect. Otherwise convert_to_site_visit with the defaulted photo path, and its reply |
| `Api.AdminGate` | api.php:204 | The admin branch runs if and only if the session is logged in with role admin |
| `Api.SetLeaveStatusAction` | api.php:204-271 | Non-admins get no change; an admin overwrites the leave's status and updated_at whatever it was before, and gets success |
| `Api.SetExpenseStatusAction` | api.php:273-339 | Non-admins get no change; an admin overwrites the claim's status and updated_at whatever it was before, and gets success |
| `Api.StatusFlipsAllowed` | api.php:240-246 | Rejected leaves can be approved and approved leaves rejected |

## Findings

| source | as written | input that shows it | evidently intended | confidence | as-written member | corrected member |
|---|---|---|---|---|---|---|
| db.php:532 | the approved-leave query binds four variables (user, start, end, status) with the type string `"iss"` | any employee (any role other than intern), any month | type string `"isss"`, so approved leaves are counted and paid | medium, not executed (PHP 8 raises an argument-count error; PHP 7 fails the bind and then calls fetch_assoc on false) | `Payroll.SalaryAsWrittenFailsForEmployees` (about `Payroll.CalculateMonthlySalaryAsWritten`) | `Payroll.CalculateMonthlySalary`, with `Payroll.GrossSalary` |
| db.php:395 | add_expense binds eight values (user, amount, description, date, receipt, status, created_at twice) with the seven-letter type string `"ddsssss"` | any claim by any user | one letter per value, `"idssssss"`, so the claim is stored as pending | medium, not executed (PHP 8 raises an argument-count error; PHP 7 fails the bind, execute fails and the reply is "Failed to add expense") | `Expenses.AddExpenseAsWrittenFails` (about `Expenses.AddExpenseWith` with `ADD_EXPENSE_TYPES`) | `Expenses.AddExpenseStep`, with `Expenses.AddExpenseOutcome` |

## Left out

- The Haversine distance (`calculate_distance`) uses floating-point
  trigonometry. The model takes the distance from the office as an input: a
  non-negative real in `PunchInStep`, and a function of the location in
  `Api.PunchInAction`.
- Database plumbing is not modelled: the connection, prepare/execute, and the
  "Failed to ..." replies of a statement that fails to execute. The two
  binds that fail on every input (db.php:395 and db.php:532) are modelled,
  under "## Findings".
- ConvertStep: assumes that binding the assignment `$slot = SLOT_SITE_VISIT`
  (db.php:172) to bind_param's by-reference argument succeeds. A PHP version
  that refuses a non-variable there would stop convert_to_site_visit before
  its UPDATE, on every input.
- ApprovedExpenseTotal: assumes the same of `$status = STATUS_APPROVED` at
  db.php:424. If the bind refused it, every salary calculation, interns'
  included, would fail at the expense total, before the role branch.
- CalculateMonthlySalary: assumes the same of the status assignment at
  db.php:532, beside the type-string defect recorded under "## Findings".
  The assignments at db.php:355 and db.php:374 are in functions that are not
  part of this model.
- Audit logging (`log_action`) and notifications (`create_notification`) are
  fire-and-forget side effects.
- Sessions, the PIN login and the redirect page itself: a session is an input
  holding a user id and a role.
- File storage: whether `move_uploaded_file` succeeded, and the photo file
  name built from the user id and `time()`, are inputs.
- Calendar arithmetic: dates are day numbers. A month is given as its first
  and last day, so the `'Y-m-t'` month-end computation is not modelled.
- Parsing of posted dates, amounts and coordinates: these arrive already
  typed.
- ApplyLeaveStep: the duplicate check compares leave types as a
  case-insensitive collation does on ASCII letters. The table schema, and so
  its collation, is not part of this model: accent folding, case folding
  beyond ASCII and the trailing-blank equivalence of PAD SPACE collations are
  not modelled. Leave types are not checked against sick/casual, as in the
  code.
- Payloads in replies other than the attendance id and the day count.
- Float rounding, `round()` other than in the geofence message, and
  `number_format`: amounts are exact reals.
- Stored column values outside the enumerations, such as a slot string other
  than the three names written by a direct insert, or a stipend type other
  than hourly/fixed, are not represented. Any non-hourly stipend type takes
  the fixed branch, as it does in the code.
- `has_approved_leave_today` and `get_user_leaves_for_month` are not part of
  this model. Neither is used by the modelled operations.
- index.php, app.js (including the client-side trim of the work summary),
  service-worker.js and auth.php beyond `is_logged_in` and `is_admin` are
  not part of this model.
- Concurrency: each operation is one atomic step on the table value. Two
  simultaneous punch-ins by one user are not modelled.
