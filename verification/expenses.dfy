/** Expense claims: add_expense in db.php and the status updates the admin
    endpoints of api.php perform. */
module Expenses {
  import opened Config
  import opened Clock
  import opened Results
  import opened Records

  /** One row of the expenses table; the expense date is a day number. */
  datatype Expense = Expense(userId: nat, amount: real, description: string, expenseDate: nat,
                             receipt: Option<string>, status: Status, createdAt: Timestamp, updatedAt: Timestamp)

  datatype ExpenseDb = ExpenseDb(rows: map<nat, Expense>, nextId: nat)

  const EmptyExpenses: ExpenseDb := ExpenseDb(map[], 1)

  predicate WellFormed(db: ExpenseDb) {
    db.nextId >= 1 && forall id | id in db.rows :: 1 <= id < db.nextId
  }

  /** The type string add_expense binds its values with, as written: seven
      letters for the eight values user_id, amount, description,
      expense_date, receipt_image, status, created_at and updated_at. */
  const ADD_EXPENSE_TYPES: string := "ddsssss"

  /** One letter per bound value, as the column types call for. */
  const ADD_EXPENSE_TYPES_INTENDED: string := "idssssss"

  /** The number of values add_expense binds (created_at is bound twice). */
  const ADD_EXPENSE_VALUES: nat := 8

  /** The INSERT of add_expense once its parameters are bound: a pending
      claim under the next id, created and updated now. */
  function AddExpenseStep(db: ExpenseDb, userId: nat, amount: real, description: string, expenseDate: nat,
                          receipt: Option<string>, now: Timestamp): (ExpenseDb, nat)
  {
    (ExpenseDb(db.rows[db.nextId := Expense(userId, amount, description, expenseDate, receipt, Pending, now, now)],
               db.nextId + 1),
     db.nextId)
  }

  /** add_expense with the given type string: when the bind fails the
      INSERT does not run and the table is unchanged. */
  function AddExpenseWith(types: string, db: ExpenseDb, userId: nat, amount: real, description: string,
                          expenseDate: nat, receipt: Option<string>, now: Timestamp): (ExpenseDb, Result<nat, SqlError>)
  {
    match BindParams(types, ADD_EXPENSE_VALUES)
    case Err(e) => (db, Err(e))
    case Ok(_) =>
      var (db', id) := AddExpenseStep(db, userId, amount, description, expenseDate, receipt, now);
      (db', Ok(id))
  }

  /** As written, add_expense never stores a claim: the seven-letter type
      string does not bind the eight values, whatever the table and the
      input; with one letter per value the insert goes through. */
  lemma AddExpenseAsWrittenFails(db: ExpenseDb, userId: nat, amount: real, description: string, expenseDate: nat,
                                 receipt: Option<string>, now: Timestamp)
    ensures AddExpenseWith(ADD_EXPENSE_TYPES, db, userId, amount, description, expenseDate, receipt, now)
            == (db, Err(BindMismatch))
    ensures var (db', id) := AddExpenseStep(db, userId, amount, description, expenseDate, receipt, now);
      AddExpenseWith(ADD_EXPENSE_TYPES_INTENDED, db, userId, amount, description, expenseDate, receipt, now)
      == (db', Ok(id))
  {
  }

  /** The admin UPDATE: set the status and updated_at of the row with that
      id whatever its previous status; no row, no change. */
  function SetStatusStep(db: ExpenseDb, id: nat, status: Status, now: Timestamp): ExpenseDb {
    if id in db.rows then db.(rows := db.rows[id := db.rows[id].(status := status, updatedAt := now)])
    else db
  }

  /** The corrected insert adds exactly one new row, holding the posted
      values, status pending and both timestamps now, and keeps the rest. */
  lemma AddExpenseOutcome(db: ExpenseDb, userId: nat, amount: real, description: string, expenseDate: nat,
                          receipt: Option<string>, now: Timestamp)
    requires WellFormed(db)
    ensures var (db', id) := AddExpenseStep(db, userId, amount, description, expenseDate, receipt, now);
      && id !in db.rows && id in db'.rows
      && db'.rows[id] == Expense(userId, amount, description, expenseDate, receipt, Pending, now, now)
      && (forall other | other in db.rows :: other in db'.rows && db'.rows[other] == db.rows[other])
      && |db'.rows| == |db.rows| + 1
      && WellFormed(db')
  {
  }

  /** A status update changes only the status and timestamp of its own row,
      from any previous status. */
  lemma SetStatusFrame(db: ExpenseDb, id: nat, status: Status, now: Timestamp)
    ensures var db' := SetStatusStep(db, id, status, now);
      && db'.nextId == db.nextId && db'.rows.Keys == db.rows.Keys
      && (forall other | other in db.rows && other != id :: db'.rows[other] == db.rows[other])
      && (id in db.rows ==>
            db'.rows[id] == db.rows[id].(status := status, updatedAt := now))
      && (WellFormed(db) ==> WellFormed(db'))
  {
  }

  /** A mutable expenses table, updated in place as db.php and api.php do. */
  class ExpenseTable {
    var rows: map<nat, Expense>
    var nextId: nat

    function Snapshot(): ExpenseDb
      reads this
    {
      ExpenseDb(rows, nextId)
    }

    ghost predicate Valid()
      reads this
    {
      WellFormed(Snapshot())
    }

    constructor ()
      ensures Valid() && Snapshot() == EmptyExpenses
    {
      rows := map[];
      nextId := 1;
    }

    /** add_expense: bind the eight values with the type string `types`,
        then insert. Run with ADD_EXPENSE_TYPES it is the code as written,
        with ADD_EXPENSE_TYPES_INTENDED the corrected statement. */
    method AddExpense(types: string, userId: nat, amount: real, description: string, expenseDate: nat,
                      receipt: Option<string>, now: Timestamp) returns (res: Result<nat, SqlError>)
      requires Valid()
      modifies this
      ensures Valid()
      ensures (Snapshot(), res) == AddExpenseWith(types, old(Snapshot()), userId, amount, description, expenseDate, receipt, now)
    {
      var bound := BindParams(types, ADD_EXPENSE_VALUES);
      if bound.Err? {
        return Err(bound.error);
      }
      var id := nextId;
      rows := rows[id := Expense(userId, amount, description, expenseDate, receipt, Pending, now, now)];
      nextId := nextId + 1;
      res := Ok(id);
    }

    /** UPDATE expenses SET status = ?, updated_at = ? WHERE id = ? */
    method SetStatus(id: nat, status: Status, now: Timestamp)
      requires Valid()
      modifies this
      ensures Valid()
      ensures Snapshot() == SetStatusStep(old(Snapshot()), id, status, now)
    {
      if id in rows {
        rows := rows[id := rows[id].(status := status, updatedAt := now)];
      }
    }
  }
}
