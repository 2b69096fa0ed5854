/** Leave requests: apply_leave in db.php and the status updates the admin
    endpoints of api.php perform. */
module Leaves {
  import opened Config
  import opened Clock
  import opened Results

  /** One row of the leaves table; the leave date is a day number. */
  datatype Leave = Leave(userId: nat, leaveType: string, leaveDate: nat, status: Status,
                         appliedAt: Timestamp, updatedAt: Timestamp)

  datatype LeaveError = InternsCannotApply | AlreadyApplied {
    function Message(): string {
      match this
      case InternsCannotApply => "Interns cannot apply for leave"
      case AlreadyApplied => "Leave already applied for this date"
    }
  }

  datatype LeaveDb = LeaveDb(rows: map<nat, Leave>, nextId: nat)

  const EmptyLeaves: LeaveDb := LeaveDb(map[], 1)

  /** An ASCII capital letter as its lower-case letter; any other character
      is left as it is. */
  function LowerAscii(c: char): char {
    if 'A' <= c <= 'Z' then (c as int + 32) as char else c
  }

  /** The text as a case-insensitive collation compares it: ASCII letters
      folded to lower case, character by character. */
  function FoldCase(s: string): (t: string)
    ensures |t| == |s|
    ensures forall i | 0 <= i < |s| :: t[i] == LowerAscii(s[i])
  {
    if s == [] then [] else [LowerAscii(s[0])] + FoldCase(s[1..])
  }

  /** The column comparison `leave_type = ?` under a case-insensitive
      collation. */
  predicate SameLeaveType(a: string, b: string) {
    FoldCase(a) == FoldCase(b)
  }

  /** The duplicate query's condition: same user, date and type. */
  predicate SameRequest(l: Leave, userId: nat, leaveDate: nat, leaveType: string) {
    l.userId == userId && l.leaveDate == leaveDate && SameLeaveType(l.leaveType, leaveType)
  }

  predicate HasRequest(db: LeaveDb, userId: nat, leaveDate: nat, leaveType: string) {
    exists id | id in db.rows :: SameRequest(db.rows[id], userId, leaveDate, leaveType)
  }

  /** Ids below the counter, and at most one request per (user, date, type). */
  predicate WellFormed(db: LeaveDb) {
    && db.nextId >= 1
    && (forall id | id in db.rows :: 1 <= id < db.nextId)
    && (forall i, j | i in db.rows && j in db.rows && i != j ::
          !SameRequest(db.rows[i], db.rows[j].userId, db.rows[j].leaveDate, db.rows[j].leaveType))
  }

  /** apply_leave. The role is that of the user row looked up by id; a
      missing user (None) is not an intern and may apply. Neither the type
      nor the date is validated. */
  function ApplyLeaveStep(db: LeaveDb, userId: nat, role: Option<Role>, leaveType: string,
                          leaveDate: nat, now: Timestamp): (LeaveDb, Result<nat, LeaveError>)
  {
    if role == Some(Intern) then (db, Err(InternsCannotApply))
    else if HasRequest(db, userId, leaveDate, leaveType) then (db, Err(AlreadyApplied))
    else (LeaveDb(db.rows[db.nextId := Leave(userId, leaveType, leaveDate, Pending, now, now)], db.nextId + 1),
          Ok(db.nextId))
  }

  /** The outcomes of apply_leave, each with its exact condition. */
  lemma ApplyLeaveOutcome(db: LeaveDb, userId: nat, role: Option<Role>, leaveType: string,
                          leaveDate: nat, now: Timestamp)
    requires WellFormed(db)
    ensures var (db', res) := ApplyLeaveStep(db, userId, role, leaveType, leaveDate, now);
      && (res == Err(InternsCannotApply) <==> role == Some(Intern))
      && (res == Err(AlreadyApplied) <==> role != Some(Intern) && HasRequest(db, userId, leaveDate, leaveType))
      && (res.Err? ==> db' == db)
      && (res.Ok? ==>
            && res.value !in db.rows
            && db'.rows == db.rows[res.value := Leave(userId, leaveType, leaveDate, Pending, now, now)]
            && |db'.rows| == |db.rows| + 1
            && WellFormed(db'))
  {
  }

  /** A second application for the same user, date and type always fails. */
  lemma SecondApplicationFails(db: LeaveDb, userId: nat, role: Option<Role>, leaveType: string,
                               leaveDate: nat, now: Timestamp, later: Timestamp)
    requires ApplyLeaveStep(db, userId, role, leaveType, leaveDate, now).1.Ok?
    ensures var db1 := ApplyLeaveStep(db, userId, role, leaveType, leaveDate, now).0;
      ApplyLeaveStep(db1, userId, role, leaveType, leaveDate, later) == (db1, Err(AlreadyApplied))
  {
    var db1 := ApplyLeaveStep(db, userId, role, leaveType, leaveDate, now).0;
    assert SameRequest(db1.rows[db.nextId], userId, leaveDate, leaveType);
  }

  /** A request of another type (not equal even after case folding) on the
      same date is still accepted. */
  lemma OtherTypeSameDateAccepted(db: LeaveDb, userId: nat, role: Option<Role>, leaveType: string,
                                  otherType: string, leaveDate: nat, now: Timestamp, later: Timestamp)
    requires WellFormed(db)
    requires !SameLeaveType(otherType, leaveType) && !HasRequest(db, userId, leaveDate, otherType)
    requires ApplyLeaveStep(db, userId, role, leaveType, leaveDate, now).1.Ok?
    ensures var db1 := ApplyLeaveStep(db, userId, role, leaveType, leaveDate, now).0;
      ApplyLeaveStep(db1, userId, role, otherType, leaveDate, later).1 == Ok(db1.nextId)
  {
    var db1 := ApplyLeaveStep(db, userId, role, leaveType, leaveDate, now).0;
    forall id | id in db1.rows
      ensures !SameRequest(db1.rows[id], userId, leaveDate, otherType)
    {
      if id != db.nextId {
        assert id in db.rows;
      }
    }
  }

  /** The type comparison ignores letter case: once 'sick' is on record for
      a date, 'Sick' for the same date is refused as a duplicate. */
  lemma CaseVariantIsDuplicate(db: LeaveDb, userId: nat, role: Option<Role>, leaveDate: nat,
                               now: Timestamp, later: Timestamp)
    requires ApplyLeaveStep(db, userId, role, LEAVE_SICK, leaveDate, now).1.Ok?
    ensures var db1 := ApplyLeaveStep(db, userId, role, LEAVE_SICK, leaveDate, now).0;
      ApplyLeaveStep(db1, userId, role, "Sick", leaveDate, later) == (db1, Err(AlreadyApplied))
  {
    var db1 := ApplyLeaveStep(db, userId, role, LEAVE_SICK, leaveDate, now).0;
    assert FoldCase("Sick") == FoldCase(LEAVE_SICK);
    assert SameRequest(db1.rows[db.nextId], userId, leaveDate, "Sick");
  }

  /** The admin UPDATE: set the status and updated_at of the row with that
      id whatever its previous status; no row, no change. */
  function SetStatusStep(db: LeaveDb, id: nat, status: Status, now: Timestamp): LeaveDb {
    if id in db.rows then db.(rows := db.rows[id := db.rows[id].(status := status, updatedAt := now)])
    else db
  }

  /** A status update changes only the status and timestamp of its own row. */
  lemma SetStatusFrame(db: LeaveDb, id: nat, status: Status, now: Timestamp)
    ensures var db' := SetStatusStep(db, id, status, now);
      && db'.nextId == db.nextId && db'.rows.Keys == db.rows.Keys
      && (forall other | other in db.rows && other != id :: db'.rows[other] == db.rows[other])
      && (id in db.rows ==>
            db'.rows[id] == Leave(db.rows[id].userId, db.rows[id].leaveType, db.rows[id].leaveDate,
                                  status, db.rows[id].appliedAt, now))
      && (WellFormed(db) ==> WellFormed(db'))
  {
  }

  /** A mutable leaves table, updated in place as db.php and api.php do. */
  class LeaveTable {
    var rows: map<nat, Leave>
    var nextId: nat

    function Snapshot(): LeaveDb
      reads this
    {
      LeaveDb(rows, nextId)
    }

    ghost predicate Valid()
      reads this
    {
      WellFormed(Snapshot())
    }

    constructor ()
      ensures Valid() && Snapshot() == EmptyLeaves
    {
      rows := map[];
      nextId := 1;
    }

    method ApplyLeave(userId: nat, role: Option<Role>, leaveType: string, leaveDate: nat, now: Timestamp)
      returns (res: Result<nat, LeaveError>)
      requires Valid()
      modifies this
      ensures Valid()
      ensures (Snapshot(), res) == ApplyLeaveStep(old(Snapshot()), userId, role, leaveType, leaveDate, now)
    {
      ApplyLeaveOutcome(Snapshot(), userId, role, leaveType, leaveDate, now);
      if role == Some(Intern) {
        return Err(InternsCannotApply);
      }
      var duplicate := exists id | id in rows :: SameRequest(rows[id], userId, leaveDate, leaveType);
      if duplicate {
        return Err(AlreadyApplied);
      }
      var id := nextId;
      rows := rows[id := Leave(userId, leaveType, leaveDate, Pending, now, now)];
      nextId := nextId + 1;
      res := Ok(id);
    }

    /** UPDATE leaves SET status = ?, updated_at = ? WHERE id = ? */
    method SetStatus(id: nat, status: Status, now: Timestamp)
      requires Valid()
      modifies this
      ensures Valid()
      ensures Snapshot() == SetStatusStep(old(Snapshot()), id, status, now)
    {
      SetStatusFrame(Snapshot(), id, status, now);
      if id in rows {
        rows := rows[id := rows[id].(status := status, updatedAt := now)];
      }
    }
  }
}
