/** The monthly roll-up of db.php: attendance summary, approved leaves,
    approved expenses and the gross salary computed from them. A month is
    given as the inclusive range of day numbers [first, last]. Amounts are
    exact reals. */
module Payroll {
  import opened Config
  import opened Clock
  import opened Results
  import opened Records
  import Attendance
  import Leaves
  import Expenses

  // ----- get_monthly_attendance_summary -----

  /** The four aggregates of the summary query. */
  datatype AttendanceSummary = AttendanceSummary(totalDays: nat, fullDays: nat, halfDays: nat, totalDaysWorked: int)

  /** The summary query's row filter. */
  predicate InMonth(r: AttendanceRecord, userId: nat, first: nat, last: nat) {
    r.userId == userId && first <= r.Date() <= last
  }

  /** COUNT(*), the two conditional counts, and SUM(day_count) (which skips
      nulls) over the matching rows with id below n. The stored day count is
      an integer, so the comparison with 0.5 never holds. */
  function SummaryUpTo(rows: map<nat, AttendanceRecord>, userId: nat, first: nat, last: nat, n: nat): AttendanceSummary {
    if n == 0 then AttendanceSummary(0, 0, 0, 0)
    else
      var s := SummaryUpTo(rows, userId, first, last, n - 1);
      var id := n - 1;
      if id in rows && InMonth(rows[id], userId, first, last) then
        var dc := rows[id].dayCount;
        AttendanceSummary(
          s.totalDays + 1,
          s.fullDays + (if dc == Some(1) then 1 else 0),
          s.halfDays + (if dc.Some? && dc.value as real == 0.5 then 1 else 0),
          s.totalDaysWorked + dc.GetOr(0))
      else s
  }

  function MonthlyAttendanceSummary(db: Attendance.Db, userId: nat, first: nat, last: nat): AttendanceSummary {
    SummaryUpTo(db.rows, userId, first, last, db.nextId)
  }

  /** The ids of the rows the summary counts. */
  function MonthRows(rows: map<nat, AttendanceRecord>, userId: nat, first: nat, last: nat, n: nat): set<nat> {
    set id | id in rows && id < n && InMonth(rows[id], userId, first, last)
  }

  /** The ids of the counted rows whose stored day count is 1. */
  function FullDayRows(rows: map<nat, AttendanceRecord>, userId: nat, first: nat, last: nat, n: nat): set<nat> {
    set id | id in rows && id < n && InMonth(rows[id], userId, first, last) && rows[id].dayCount == Some(1)
  }

  /** Extending the id range by one adds at most that id to each set. */
  lemma RowSetsStep(rows: map<nat, AttendanceRecord>, userId: nat, first: nat, last: nat, n: nat)
    requires n > 0
    ensures var id := n - 1; var counted := id in rows && InMonth(rows[id], userId, first, last);
      && id !in MonthRows(rows, userId, first, last, n - 1)
      && id !in FullDayRows(rows, userId, first, last, n - 1)
      && MonthRows(rows, userId, first, last, n) ==
           MonthRows(rows, userId, first, last, n - 1) + (if counted then {id} else {})
      && FullDayRows(rows, userId, first, last, n) ==
           FullDayRows(rows, userId, first, last, n - 1) + (if counted && rows[id].dayCount == Some(1) then {id} else {})
  {
  }

  /** On rows that keep the table's row invariant: COUNT(*) is the number of
      matching rows, the full-day count and SUM(day_count) are both the number
      of matching rows credited 1, and no half day is ever counted. */
  lemma {:induction false} SummaryFacts(rows: map<nat, AttendanceRecord>, userId: nat, first: nat, last: nat, n: nat)
    requires forall id | id in rows :: Attendance.RowInvariant(rows[id])
    ensures var s := SummaryUpTo(rows, userId, first, last, n);
      && s.totalDays == |MonthRows(rows, userId, first, last, n)|
      && s.fullDays == |FullDayRows(rows, userId, first, last, n)|
      && s.totalDaysWorked == s.fullDays
      && s.halfDays == 0
      && s.fullDays <= s.totalDays
  {
    if n > 0 {
      SummaryFacts(rows, userId, first, last, n - 1);
      RowSetsStep(rows, userId, first, last, n);
      var id := n - 1;
      if id in rows && InMonth(rows[id], userId, first, last) {
        var dc := rows[id].dayCount;
        if dc.Some? && dc != Some(1) {
          assert dc.value == 0;
        }
      }
    } else {
      assert MonthRows(rows, userId, first, last, n) == {};
      assert FullDayRows(rows, userId, first, last, n) == {};
    }
  }

  /** On a well-formed table the summary covers every row of the user in the
      month: the day total that payroll pays on is the number of those rows
      credited a full day. */
  lemma MonthlySummaryFacts(db: Attendance.Db, userId: nat, first: nat, last: nat)
    requires Attendance.WellFormed(db)
    ensures var s := MonthlyAttendanceSummary(db, userId, first, last);
      && s.totalDays == |set id | id in db.rows && InMonth(db.rows[id], userId, first, last)|
      && s.fullDays == |set id | id in db.rows && InMonth(db.rows[id], userId, first, last) && db.rows[id].dayCount == Some(1)|
      && s.halfDays == 0
      && s.totalDaysWorked == s.fullDays <= s.totalDays
  {
    SummaryFacts(db.rows, userId, first, last, db.nextId);
    assert MonthRows(db.rows, userId, first, last, db.nextId) ==
      set id | id in db.rows && InMonth(db.rows[id], userId, first, last);
    assert FullDayRows(db.rows, userId, first, last, db.nextId) ==
      set id | id in db.rows && InMonth(db.rows[id], userId, first, last) && db.rows[id].dayCount == Some(1);
  }

  // ----- approved leaves and expenses of a month -----

  predicate LeaveCounts(l: Leaves.Leave, userId: nat, first: nat, last: nat) {
    l.userId == userId && first <= l.leaveDate <= last && l.status == Approved
  }

  /** COUNT(*) of the user's approved leaves in the month, ids below n. */
  function LeaveCountUpTo(rows: map<nat, Leaves.Leave>, userId: nat, first: nat, last: nat, n: nat): nat {
    if n == 0 then 0
    else LeaveCountUpTo(rows, userId, first, last, n - 1) +
         (if n - 1 in rows && LeaveCounts(rows[n - 1], userId, first, last) then 1 else 0)
  }

  function ApprovedLeaveCount(db: Leaves.LeaveDb, userId: nat, first: nat, last: nat): nat {
    LeaveCountUpTo(db.rows, userId, first, last, db.nextId)
  }

  predicate ExpenseCounts(e: Expenses.Expense, userId: nat, first: nat, last: nat) {
    e.userId == userId && first <= e.expenseDate <= last && e.status == Approved
  }

  /** SUM(amount) of the user's approved expenses in the month, ids below n
      (a null sum is read as 0). */
  function ExpenseSumUpTo(rows: map<nat, Expenses.Expense>, userId: nat, first: nat, last: nat, n: nat): real {
    if n == 0 then 0.0
    else ExpenseSumUpTo(rows, userId, first, last, n - 1) +
         (if n - 1 in rows && ExpenseCounts(rows[n - 1], userId, first, last) then rows[n - 1].amount else 0.0)
  }

  function ApprovedExpenseTotal(db: Expenses.ExpenseDb, userId: nat, first: nat, last: nat): real {
    ExpenseSumUpTo(db.rows, userId, first, last, db.nextId)
  }

  /** A status update on any row, from any status to any status: the count
      after it plus what the row counted before equals the count before it
      plus what the row counts after. A row of another user, outside the
      month or beyond the ids counted leaves the count unchanged. */
  lemma {:induction false} LeaveCountAnyStatus(rows: map<nat, Leaves.Leave>, userId: nat, first: nat, last: nat,
                                               n: nat, id: nat, status: Status, now: Timestamp)
    requires id in rows
    ensures var rows' := rows[id := rows[id].(status := status, updatedAt := now)];
      LeaveCountUpTo(rows', userId, first, last, n) +
        (if id < n && LeaveCounts(rows[id], userId, first, last) then 1 else 0) ==
      LeaveCountUpTo(rows, userId, first, last, n) +
        (if id < n && LeaveCounts(rows'[id], userId, first, last) then 1 else 0)
  {
    if n > 0 {
      LeaveCountAnyStatus(rows, userId, first, last, n - 1, id, status, now);
    }
  }

  /** Only approved leaves are paid: approving a leave of the user in the
      month that was not approved adds exactly one to the count; rejecting
      or leaving pending a leave that was not approved adds nothing. */
  lemma LeaveCountAfterStatus(rows: map<nat, Leaves.Leave>, userId: nat, first: nat, last: nat,
                              n: nat, id: nat, status: Status, now: Timestamp)
    requires id in rows && id < n
    requires rows[id].userId == userId && first <= rows[id].leaveDate <= last && rows[id].status != Approved
    ensures LeaveCountUpTo(rows[id := rows[id].(status := status, updatedAt := now)], userId, first, last, n) ==
      LeaveCountUpTo(rows, userId, first, last, n) + (if status == Approved then 1 else 0)
  {
    LeaveCountAnyStatus(rows, userId, first, last, n, id, status, now);
  }

  /** Withdrawing an approval (the admin rejecting, or any other status, on
      an approved leave of the user in the month) removes it from the count. */
  lemma LeaveCountAfterRevoke(rows: map<nat, Leaves.Leave>, userId: nat, first: nat, last: nat,
                              n: nat, id: nat, status: Status, now: Timestamp)
    requires id in rows && id < n && status != Approved
    requires rows[id].userId == userId && first <= rows[id].leaveDate <= last && rows[id].status == Approved
    ensures LeaveCountUpTo(rows[id := rows[id].(status := status, updatedAt := now)], userId, first, last, n) + 1 ==
      LeaveCountUpTo(rows, userId, first, last, n)
  {
    LeaveCountAnyStatus(rows, userId, first, last, n, id, status, now);
  }

  /** A status update on any claim, from any status to any status: the total
      after it plus what the claim contributed before equals the total before
      it plus what the claim contributes after. A claim of another user,
      outside the month or beyond the ids summed leaves the total unchanged. */
  lemma {:induction false} ExpenseSumAnyStatus(rows: map<nat, Expenses.Expense>, userId: nat, first: nat, last: nat,
                                               n: nat, id: nat, status: Status, now: Timestamp)
    requires id in rows
    ensures var rows' := rows[id := rows[id].(status := status, updatedAt := now)];
      ExpenseSumUpTo(rows', userId, first, last, n) +
        (if id < n && ExpenseCounts(rows[id], userId, first, last) then rows[id].amount else 0.0) ==
      ExpenseSumUpTo(rows, userId, first, last, n) +
        (if id < n && ExpenseCounts(rows'[id], userId, first, last) then rows[id].amount else 0.0)
  {
    if n > 0 {
      ExpenseSumAnyStatus(rows, userId, first, last, n - 1, id, status, now);
    }
  }

  /** Approving a pending claim of the user in the month adds its amount to
      the approved total; a rejected claim adds nothing. */
  lemma ExpenseSumAfterStatus(rows: map<nat, Expenses.Expense>, userId: nat, first: nat, last: nat,
                              n: nat, id: nat, status: Status, now: Timestamp)
    requires id in rows && id < n
    requires rows[id].userId == userId && first <= rows[id].expenseDate <= last && rows[id].status != Approved
    ensures ExpenseSumUpTo(rows[id := rows[id].(status := status, updatedAt := now)], userId, first, last, n) ==
      ExpenseSumUpTo(rows, userId, first, last, n) + (if status == Approved then rows[id].amount else 0.0)
  {
    ExpenseSumAnyStatus(rows, userId, first, last, n, id, status, now);
  }

  /** Withdrawing the approval of a claim of the user in the month takes its
      amount off the total. */
  lemma ExpenseSumAfterRevoke(rows: map<nat, Expenses.Expense>, userId: nat, first: nat, last: nat,
                              n: nat, id: nat, status: Status, now: Timestamp)
    requires id in rows && id < n && status != Approved
    requires rows[id].userId == userId && first <= rows[id].expenseDate <= last && rows[id].status == Approved
    ensures ExpenseSumUpTo(rows[id := rows[id].(status := status, updatedAt := now)], userId, first, last, n) +
      rows[id].amount == ExpenseSumUpTo(rows, userId, first, last, n)
  {
    ExpenseSumAnyStatus(rows, userId, first, last, n, id, status, now);
  }


  // ----- calculate_monthly_salary -----

  /** The user's role and salary columns (users.role, monthly_salary,
      stipend_amount, stipend_type). A missing user has no role. */
  datatype SalaryData = SalaryData(role: Option<Role>, monthlySalary: real, stipendAmount: real, stipendType: StipendType)

  /** The two shapes of the array calculate_monthly_salary returns. */
  datatype Payslip =
    | InternPay(baseAmount: real, attendanceDays: int, expenses: real, grossSalary: real)
    | EmployeePay(baseSalary: real, perDaySalary: real, attendanceDays: int, attendanceSalary: real,
                  leaveDays: nat, leaveSalary: real, expenses: real, grossSalary: real)

  /** The arithmetic of calculate_monthly_salary once the three aggregates are
      known. Every role other than intern, a missing one included, takes the
      employee branch. */
  function SalaryFor(data: SalaryData, daysWorked: int, leaveCount: nat, expenses: real): Payslip {
    if data.role == Some(Intern) then
      var stipend := if data.stipendType == Hourly then (daysWorked * 8) as real * data.stipendAmount
                     else data.stipendAmount;
      InternPay(stipend, daysWorked, expenses, stipend + expenses)
    else
      var perDay := data.monthlySalary / 30.0;
      var attendanceSalary := daysWorked as real * perDay;
      var leaveSalary := leaveCount as real * perDay;
      EmployeePay(data.monthlySalary, perDay, daysWorked, attendanceSalary, leaveCount, leaveSalary, expenses,
                  attendanceSalary + leaveSalary + expenses)
  }

  /** calculate_monthly_salary, with the approved-leave query bound correctly
      (see EmployeeLeaveCountAsWritten for the query as written). */
  function CalculateMonthlySalary(data: SalaryData, attendance: Attendance.Db, leaves: Leaves.LeaveDb,
                                  expenses: Expenses.ExpenseDb, userId: nat, first: nat, last: nat): Payslip {
    SalaryFor(data,
              MonthlyAttendanceSummary(attendance, userId, first, last).totalDaysWorked,
              ApprovedLeaveCount(leaves, userId, first, last),
              ApprovedExpenseTotal(expenses, userId, first, last))
  }

  /** The gross pay of each kind of user in terms of the month's records:
      employees are paid S/30 per day worked and per approved leave, hourly
      interns 8 hours of stipend per day worked, fixed interns their stipend
      whatever their attendance; everyone gets the approved expenses. */
  lemma GrossSalary(data: SalaryData, attendance: Attendance.Db, leaves: Leaves.LeaveDb,
                    expenses: Expenses.ExpenseDb, userId: nat, first: nat, last: nat)
    requires Attendance.WellFormed(attendance)
    ensures var p := CalculateMonthlySalary(data, attendance, leaves, expenses, userId, first, last);
      var days := MonthlyAttendanceSummary(attendance, userId, first, last).fullDays;
      var leaveDays := ApprovedLeaveCount(leaves, userId, first, last);
      var claimed := ApprovedExpenseTotal(expenses, userId, first, last);
      && (data.role != Some(Intern) ==>
            p.grossSalary == (days + leaveDays) as real * data.monthlySalary / 30.0 + claimed)
      && (data.role == Some(Intern) && data.stipendType == Hourly ==>
            p.grossSalary == (days * 8) as real * data.stipendAmount + claimed)
      && (data.role == Some(Intern) && data.stipendType == Fixed ==>
            p.grossSalary == data.stipendAmount + claimed)
  {
    MonthlySummaryFacts(attendance, userId, first, last);
  }

  /** A fixed-stipend intern's pay does not depend on attendance. */
  lemma FixedStipendIgnoresAttendance(data: SalaryData, att1: Attendance.Db, att2: Attendance.Db,
                                      leaves: Leaves.LeaveDb, expenses: Expenses.ExpenseDb,
                                      userId: nat, first: nat, last: nat)
    requires data.role == Some(Intern) && data.stipendType == Fixed
    ensures CalculateMonthlySalary(data, att1, leaves, expenses, userId, first, last).grossSalary ==
            CalculateMonthlySalary(data, att2, leaves, expenses, userId, first, last).grossSalary
  {
  }

  /** An employee credited with 30 days (worked plus approved leave) and no
      expenses earns exactly the monthly salary. */
  lemma FullMonthEarnsSalary(data: SalaryData, daysWorked: int, leaveCount: nat)
    requires data.role != Some(Intern) && daysWorked + leaveCount == 30
    ensures SalaryFor(data, daysWorked, leaveCount, 0.0).grossSalary == data.monthlySalary
  {
    assert (daysWorked as real) + (leaveCount as real) == 30.0;
  }

  /** Approving a not-yet-approved leave of the employee inside the month
      raises the month's gross pay by one day's salary. */
  lemma ApprovingLeaveAddsOneDay(data: SalaryData, attendance: Attendance.Db, leaves: Leaves.LeaveDb,
                                 expenses: Expenses.ExpenseDb, userId: nat, first: nat, last: nat,
                                 id: nat, now: Timestamp)
    requires data.role != Some(Intern) && Leaves.WellFormed(leaves)
    requires id in leaves.rows && leaves.rows[id].userId == userId
    requires first <= leaves.rows[id].leaveDate <= last && leaves.rows[id].status != Approved
    ensures CalculateMonthlySalary(data, attendance, Leaves.SetStatusStep(leaves, id, Approved, now), expenses, userId, first, last).grossSalary ==
            CalculateMonthlySalary(data, attendance, leaves, expenses, userId, first, last).grossSalary + data.monthlySalary / 30.0
  {
    LeaveCountAfterStatus(leaves.rows, userId, first, last, leaves.nextId, id, Approved, now);
    var k := ApprovedLeaveCount(leaves, userId, first, last);
    assert ApprovedLeaveCount(Leaves.SetStatusStep(leaves, id, Approved, now), userId, first, last) == k + 1;
    assert (k + 1) as real * (data.monthlySalary / 30.0) == k as real * (data.monthlySalary / 30.0) + data.monthlySalary / 30.0;
  }

  /** Approving a pending claim inside the month raises every user's gross
      pay by exactly its amount. */
  lemma ApprovingExpenseAddsAmount(data: SalaryData, attendance: Attendance.Db, leaves: Leaves.LeaveDb,
                                   expenses: Expenses.ExpenseDb, userId: nat, first: nat, last: nat,
                                   id: nat, now: Timestamp)
    requires Expenses.WellFormed(expenses)
    requires id in expenses.rows && expenses.rows[id].userId == userId
    requires first <= expenses.rows[id].expenseDate <= last && expenses.rows[id].status != Approved
    ensures CalculateMonthlySalary(data, attendance, leaves, Expenses.SetStatusStep(expenses, id, Approved, now), userId, first, last).grossSalary ==
            CalculateMonthlySalary(data, attendance, leaves, expenses, userId, first, last).grossSalary + expenses.rows[id].amount
  {
    ExpenseSumAfterStatus(expenses.rows, userId, first, last, expenses.nextId, id, Approved, now);
  }

  /** Rejecting an approved leave of the month lowers an employee's gross by
      one day's salary. */
  lemma RejectingLeaveRemovesOneDay(data: SalaryData, attendance: Attendance.Db, leaves: Leaves.LeaveDb,
                                    expenses: Expenses.ExpenseDb, userId: nat, first: nat, last: nat,
                                    id: nat, now: Timestamp)
    requires data.role != Some(Intern) && Leaves.WellFormed(leaves)
    requires id in leaves.rows && leaves.rows[id].userId == userId
    requires first <= leaves.rows[id].leaveDate <= last && leaves.rows[id].status == Approved
    ensures CalculateMonthlySalary(data, attendance, Leaves.SetStatusStep(leaves, id, Rejected, now), expenses, userId, first, last).grossSalary ==
            CalculateMonthlySalary(data, attendance, leaves, expenses, userId, first, last).grossSalary - data.monthlySalary / 30.0
  {
    LeaveCountAfterRevoke(leaves.rows, userId, first, last, leaves.nextId, id, Rejected, now);
    var k := ApprovedLeaveCount(Leaves.SetStatusStep(leaves, id, Rejected, now), userId, first, last);
    assert ApprovedLeaveCount(leaves, userId, first, last) == k + 1;
    assert (k + 1) as real * (data.monthlySalary / 30.0) == k as real * (data.monthlySalary / 30.0) + data.monthlySalary / 30.0;
  }

  /** Rejecting an approved claim of the month takes its amount off the gross. */
  lemma RejectingExpenseRemovesAmount(data: SalaryData, attendance: Attendance.Db, leaves: Leaves.LeaveDb,
                                      expenses: Expenses.ExpenseDb, userId: nat, first: nat, last: nat,
                                      id: nat, now: Timestamp)
    requires Expenses.WellFormed(expenses)
    requires id in expenses.rows && expenses.rows[id].userId == userId
    requires first <= expenses.rows[id].expenseDate <= last && expenses.rows[id].status == Approved
    ensures CalculateMonthlySalary(data, attendance, leaves, Expenses.SetStatusStep(expenses, id, Rejected, now), userId, first, last).grossSalary ==
            CalculateMonthlySalary(data, attendance, leaves, expenses, userId, first, last).grossSalary - expenses.rows[id].amount
  {
    ExpenseSumAfterRevoke(expenses.rows, userId, first, last, expenses.nextId, id, Rejected, now);
  }

  // ----- the approved-leave query as written -----

  /** The employee branch's leave count as written: four variables (user,
      start, end, status) bound with the three-letter type string "iss". */
  function EmployeeLeaveCountAsWritten(leaves: Leaves.LeaveDb, userId: nat, first: nat, last: nat): Result<nat, SqlError> {
    match BindParams("iss", 4)
    case Err(e) => Err(e)
    case Ok(_) => Ok(ApprovedLeaveCount(leaves, userId, first, last))
  }

  /** calculate_monthly_salary as written: the intern branch works, the
      employee branch fails at the leave query. */
  function CalculateMonthlySalaryAsWritten(data: SalaryData, attendance: Attendance.Db, leaves: Leaves.LeaveDb,
                                           expenses: Expenses.ExpenseDb, userId: nat, first: nat, last: nat)
    : Result<Payslip, SqlError>
  {
    if data.role == Some(Intern) then Ok(CalculateMonthlySalary(data, attendance, leaves, expenses, userId, first, last))
    else
      match EmployeeLeaveCountAsWritten(leaves, userId, first, last)
      case Err(e) => Err(e)
      case Ok(count) =>
        Ok(SalaryFor(data, MonthlyAttendanceSummary(attendance, userId, first, last).totalDaysWorked, count,
                     ApprovedExpenseTotal(expenses, userId, first, last)))
  }

  /** As written, no employee's salary can be computed, whatever the tables
      hold; with a four-letter type string ("isss") the same query binds. */
  lemma SalaryAsWrittenFailsForEmployees(data: SalaryData, attendance: Attendance.Db, leaves: Leaves.LeaveDb,
                                         expenses: Expenses.ExpenseDb, userId: nat, first: nat, last: nat)
    requires data.role != Some(Intern)
    ensures CalculateMonthlySalaryAsWritten(data, attendance, leaves, expenses, userId, first, last) == Err(BindMismatch)
    ensures BindParams("isss", 4) == Ok(())
  {
  }
}
