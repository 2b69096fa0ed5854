/** The attendance table as the PHP code updates it in place: one object
    whose row map is rewritten by each operation. Each method follows the
    statements of its db.php function and is proved to have the effect of
    the corresponding step function of module Attendance. */
module AttendanceStore {
  import opened Config
  import opened Clock
  import opened Results
  import opened Records
  import opened DayCountEngine
  import opened Attendance

  class AttendanceTable {
    var rows: map<nat, AttendanceRecord>
    var nextId: nat

    function Snapshot(): Db
      reads this
    {
      Db(rows, nextId)
    }

    ghost predicate Valid()
      reads this
    {
      WellFormed(Snapshot())
    }

    constructor ()
      ensures Valid() && Snapshot() == EmptyDb
    {
      rows := map[];
      nextId := 1;
    }

    /** get_today_attendance: scan the ids in order for the user's row whose
        punch-in date is today. */
    method GetTodayAttendance(userId: nat, now: Timestamp) returns (found: Option<nat>)
      ensures found == TodayAttendance(Snapshot(), userId, now)
      ensures found.Some? ==> found.value in rows && Matches(rows[found.value], userId, Day(now))
    {
      var today := Day(now);
      var i: nat := 0;
      while i < nextId
        invariant i <= nextId
        invariant FirstMatch(rows, userId, today, i, nextId) == FirstMatch(rows, userId, today, 0, nextId)
      {
        if i in rows && Matches(rows[i], userId, today) {
          return Some(i);
        }
        i := i + 1;
      }
      return None;
    }

    method PunchIn(userId: nat, slot: Slot, location: Location, distance: Meters,
                   photo: Option<string>, now: Timestamp) returns (res: Result<nat, AttendanceError>)
      requires Valid()
      modifies this
      ensures Valid()
      ensures (Snapshot(), res) == PunchInStep(old(Snapshot()), userId, slot, location, distance, photo, now)
    {
      PunchInKeepsWellFormed(Snapshot(), userId, slot, location, distance, photo, now);
      var today := GetTodayAttendance(userId, now);
      if today.Some? {
        return Err(AlreadyPunchedIn);
      }
      if slot == Office && distance > OFFICE_RADIUS {
        return Err(OutsideGeofence(distance));
      }
      var id := nextId;
      rows := rows[id := OpenRecord(userId, slot, location, photo, now)];
      nextId := nextId + 1;
      res := Ok(id);
    }

    method PunchOut(userId: nat, workSummary: string, location: Location,
                    photo: Option<string>, now: Timestamp) returns (res: Result<real, AttendanceError>)
      requires Valid()
      modifies this
      ensures Valid()
      ensures (Snapshot(), res) == PunchOutStep(old(Snapshot()), userId, workSummary, location, photo, now)
    {
      PunchOutKeepsWellFormed(Snapshot(), userId, workSummary, location, photo, now);
      var today := GetTodayAttendance(userId, now);
      if today.None? {
        return Err(NoPunchInToday);
      }
      var id := today.value;
      var record := rows[id];
      if record.punchOutTime.Some? {
        return Err(AlreadyPunchedOut);
      }
      if record.slot != SiteVisit && PhpEmpty(workSummary) {
        return Err(WorkSummaryRequired);
      }
      var dayCount := CalculateDayCount(record, now);
      rows := rows[id := CloseRecord(record, now, location, photo, workSummary, dayCount)];
      res := Ok(dayCount);
    }

    method ConvertToSiteVisit(userId: nat, location: Location, photo: Option<string>, now: Timestamp)
      returns (res: Result<nat, AttendanceError>)
      requires Valid()
      modifies this
      ensures Valid()
      ensures (Snapshot(), res) == ConvertStep(old(Snapshot()), userId, location, photo, now)
    {
      ConvertKeepsWellFormed(Snapshot(), userId, location, photo, now);
      var today := GetTodayAttendance(userId, now);
      if today.None? {
        return Err(NoPunchInFound);
      }
      var id := today.value;
      var record := rows[id];
      if record.slot == SiteVisit {
        return Err(AlreadyOnSiteVisit);
      }
      rows := rows[id := record.(slot := SiteVisit, siteVisit := Some(Conversion(now, location, photo)))];
      res := Ok(id);
    }

    /** auto_punch_out_system: select today's open rows, then close them one
        at a time. */
    method AutoPunchOutSystem(now: Timestamp)
      requires Valid()
      modifies this
      ensures Valid()
      ensures Snapshot() == SweepStep(old(Snapshot()), now)
    {
      SweepKeepsWellFormed(Snapshot(), now);
      var today := Day(now);
      var selected := set id | id in rows && OpenOn(rows[id], today);
      var pending := selected;
      while pending != {}
        invariant pending <= selected
        invariant nextId == old(nextId)
        invariant rows.Keys == old(rows).Keys
        invariant forall id | id in old(rows) && id !in selected :: rows[id] == old(rows)[id]
        invariant forall id | id in pending :: rows[id] == old(rows)[id]
        invariant forall id | id in selected && id !in pending :: rows[id] == AutoClose(old(rows)[id], now)
        decreases pending
      {
        var id :| id in pending;
        rows := rows[id := AutoClose(rows[id], now)];
        pending := pending - {id};
      }
      assert rows == SweepStep(old(Snapshot()), now).rows;
    }
  }
}
