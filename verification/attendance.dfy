/** The attendance state machine of db.php, on values: the attendance table
    as a map from row id to row, and one step function per operation that
    returns the new table and the operation's outcome. */
module Attendance {
  import opened Config
  import opened Clock
  import opened Results
  import opened Records
  import opened DayCountEngine

  /** The failures the attendance operations report, with their messages. */
  datatype AttendanceError =
    | AlreadyPunchedIn
    | OutsideGeofence(distance: Meters)
    | NoPunchInToday
    | AlreadyPunchedOut
    | WorkSummaryRequired
    | NoPunchInFound
    | AlreadyOnSiteVisit
  {
    function Message(): string {
      match this
      case AlreadyPunchedIn => "Already punched in today"
      case OutsideGeofence(d) => "You are outside office geofence. Distance: " + Decimal(Round(d)) + "m"
      case NoPunchInToday => "No punch in found for today"
      case AlreadyPunchedOut => "Already punched out today"
      case WorkSummaryRequired => "Work summary is mandatory"
      case NoPunchInFound => "No punch in found"
      case AlreadyOnSiteVisit => "Already on site visit"
    }
  }

  /** The attendance table and its auto-increment counter. */
  datatype Db = Db(rows: map<nat, AttendanceRecord>, nextId: nat)

  /** The empty table; MySQL's auto-increment starts at 1. */
  const EmptyDb: Db := Db(map[], 1)

  /** Row r belongs to the user and its punch-in date is `day`. */
  predicate Matches(r: AttendanceRecord, userId: nat, day: nat) {
    r.userId == userId && r.Date() == day
  }

  /** A row's own consistency: closed exactly when it holds a day count, only
      closed rows carry the auto flag, and stored day counts are 0 or 1. */
  predicate RowInvariant(r: AttendanceRecord) {
    && (r.dayCount.Some? <==> r.punchOutTime.Some?)
    && (r.isAutoPunchOut ==> r.punchOutTime.Some?)
    && (r.dayCount.Some? ==> r.dayCount.value == 0 || r.dayCount.value == 1)
  }

  /** What the operations keep true of the table: ids below the counter and at
      most one row per (user, punch-in date). */
  predicate WellFormed(db: Db) {
    && db.nextId >= 1
    && (forall id | id in db.rows :: 1 <= id < db.nextId && RowInvariant(db.rows[id]))
    && (forall i, j | i in db.rows && j in db.rows && i != j ::
          !Matches(db.rows[i], db.rows[j].userId, db.rows[j].Date()))
  }

  /** The least id in [lo, hi) whose row matches (userId, day). */
  function FirstMatch(rows: map<nat, AttendanceRecord>, userId: nat, day: nat, lo: nat, hi: nat): (r: Option<nat>)
    decreases hi - lo
    ensures r.Some? ==> lo <= r.value < hi && r.value in rows && Matches(rows[r.value], userId, day)
    ensures r.Some? ==> forall id | lo <= id < r.value && id in rows :: !Matches(rows[id], userId, day)
    ensures r.None? ==> forall id | lo <= id < hi && id in rows :: !Matches(rows[id], userId, day)
  {
    if lo >= hi then None
    else if lo in rows && Matches(rows[lo], userId, day) then Some(lo)
    else FirstMatch(rows, userId, day, lo + 1, hi)
  }

  /** get_today_attendance: the row of the user whose punch-in date is the
      date of `now` (LIMIT 1 without ORDER BY, taken as the least id). */
  function TodayAttendance(db: Db, userId: nat, now: Timestamp): Option<nat> {
    FirstMatch(db.rows, userId, Day(now), 0, db.nextId)
  }

  /** On a well-formed table the lookup finds a row exactly when one exists,
      and then it is that row. */
  lemma TodayAttendanceExact(db: Db, userId: nat, now: Timestamp)
    requires WellFormed(db)
    ensures TodayAttendance(db, userId, now).None? <==>
      forall id | id in db.rows :: !Matches(db.rows[id], userId, Day(now))
    ensures forall id | id in db.rows && Matches(db.rows[id], userId, Day(now)) ::
      TodayAttendance(db, userId, now) == Some(id)
  {
    var r := TodayAttendance(db, userId, now);
    forall id | id in db.rows && Matches(db.rows[id], userId, Day(now))
      ensures r == Some(id)
    {
      assert id < db.nextId;
      assert r.Some?;
    }
  }

  // ----- punch_in -----

  /** The row punch_in inserts. */
  function OpenRecord(userId: nat, slot: Slot, location: Location, photo: Option<string>, now: Timestamp): AttendanceRecord {
    AttendanceRecord(userId, slot, now, location, photo, None, None, None, None, None, false, None)
  }

  /** punch_in: refuse a second punch-in on the same date, refuse an office
      punch-in outside the geofence, otherwise insert an open row. */
  function PunchInStep(db: Db, userId: nat, slot: Slot, location: Location, distance: Meters,
                       photo: Option<string>, now: Timestamp): (Db, Result<nat, AttendanceError>)
  {
    if TodayAttendance(db, userId, now).Some? then (db, Err(AlreadyPunchedIn))
    else if slot == Office && distance > OFFICE_RADIUS then (db, Err(OutsideGeofence(distance)))
    else (Db(db.rows[db.nextId := OpenRecord(userId, slot, location, photo, now)], db.nextId + 1), Ok(db.nextId))
  }

  /** The three outcomes of punch_in, each with its exact condition, and
      "nothing else changes". */
  lemma PunchInOutcome(db: Db, userId: nat, slot: Slot, location: Location, distance: Meters,
                       photo: Option<string>, now: Timestamp)
    requires WellFormed(db)
    ensures var (db', res) := PunchInStep(db, userId, slot, location, distance, photo, now);
      var exists_ := exists id :: id in db.rows && Matches(db.rows[id], userId, Day(now));
      && (res == Err(AlreadyPunchedIn) <==> exists_)
      && (res == Err(OutsideGeofence(distance)) <==> !exists_ && slot == Office && distance > OFFICE_RADIUS)
      && (res.Err? ==> db' == db)
      && (res.Ok? ==>
            && res.value == db.nextId && res.value !in db.rows
            && db'.rows == db.rows[res.value := OpenRecord(userId, slot, location, photo, now)]
            && |db'.rows| == |db.rows| + 1)
  {
    TodayAttendanceExact(db, userId, now);
  }

  /** The geofence applies to the office slot only, and exactly 100 m passes. */
  lemma GeofenceBoundary(db: Db, userId: nat, slot: Slot, location: Location, distance: Meters,
                         photo: Option<string>, now: Timestamp)
    requires TodayAttendance(db, userId, now).None?
    requires slot != Office || distance <= 100.0
    ensures PunchInStep(db, userId, slot, location, distance, photo, now).1 == Ok(db.nextId)
  {
  }

  lemma PunchInKeepsWellFormed(db: Db, userId: nat, slot: Slot, location: Location, distance: Meters,
                               photo: Option<string>, now: Timestamp)
    requires WellFormed(db)
    ensures WellFormed(PunchInStep(db, userId, slot, location, distance, photo, now).0)
  {
    TodayAttendanceExact(db, userId, now);
  }

  /** After a successful punch-in, every further punch-in by that user on the
      same date fails and creates nothing. */
  lemma SecondPunchInFails(db: Db, userId: nat, slot: Slot, location: Location, distance: Meters,
                           photo: Option<string>, now: Timestamp,
                           slot2: Slot, location2: Location, distance2: Meters, photo2: Option<string>, later: Timestamp)
    requires WellFormed(db)
    requires PunchInStep(db, userId, slot, location, distance, photo, now).1.Ok?
    requires Day(later) == Day(now)
    ensures var db1 := PunchInStep(db, userId, slot, location, distance, photo, now).0;
      PunchInStep(db1, userId, slot2, location2, distance2, photo2, later) == (db1, Err(AlreadyPunchedIn))
  {
    var db1 := PunchInStep(db, userId, slot, location, distance, photo, now).0;
    PunchInKeepsWellFormed(db, userId, slot, location, distance, photo, now);
    assert Matches(db1.rows[db.nextId], userId, Day(later));
    TodayAttendanceExact(db1, userId, later);
  }

  // ----- punch_out -----

  /** PHP's empty() on a posted string: true for "" and "0" only, so text made
      of blanks is accepted. */
  predicate PhpEmpty(s: string) {
    s == "" || s == "0"
  }

  /** The row after a punch-out: the closing columns are written, and the day
      count is bound as an integer. */
  function CloseRecord(r: AttendanceRecord, now: Timestamp, location: Location, photo: Option<string>,
                       workSummary: string, dayCount: real): AttendanceRecord {
    r.(punchOutTime := Some(now), punchOutLocation := Some(location), punchOutPhoto := photo,
       workSummary := Some(workSummary), dayCount := Some(BindInt(dayCount)))
  }

  /** punch_out: the day count is computed from the row as it was before the
      update, whose punch_out_time is still null and is therefore read as now. */
  function PunchOutStep(db: Db, userId: nat, workSummary: string, location: Location,
                        photo: Option<string>, now: Timestamp): (Db, Result<real, AttendanceError>)
  {
    match TodayAttendance(db, userId, now)
    case None => (db, Err(NoPunchInToday))
    case Some(id) =>
      var r := db.rows[id];
      if r.punchOutTime.Some? then (db, Err(AlreadyPunchedOut))
      else if r.slot != SiteVisit && PhpEmpty(workSummary) then (db, Err(WorkSummaryRequired))
      else
        var d := CalculateDayCount(r, now);
        (db.(rows := db.rows[id := CloseRecord(r, now, location, photo, workSummary, d)]), Ok(d))
  }

  /** The outcomes of punch_out on a well-formed table: each error with its
      exact condition and no change; on success only today's row changes,
      exactly in its punch-out columns (latitude and longitude as one
      location), and the credit is the engine's for an open row (so the
      auto-punch-out penalty never applies here). */
  lemma PunchOutOutcome(db: Db, userId: nat, workSummary: string, location: Location,
                        photo: Option<string>, now: Timestamp)
    requires WellFormed(db)
    ensures var (db', res) := PunchOutStep(db, userId, workSummary, location, photo, now);
      && (res.Err? ==> db' == db)
      && (res == Err(NoPunchInToday) <==> forall id | id in db.rows :: !Matches(db.rows[id], userId, Day(now)))
      && forall id | id in db.rows && Matches(db.rows[id], userId, Day(now)) ::
           var r := db.rows[id];
           && (res == Err(AlreadyPunchedOut) <==> !r.IsOpen())
           && (res == Err(WorkSummaryRequired) <==> r.IsOpen() && r.slot != SiteVisit && PhpEmpty(workSummary))
           && (res.Ok? ==>
                 && res.value == DayCount(r.slot, r.punchInTime, now, false)
                 && db'.nextId == db.nextId
                 && db'.rows.Keys == db.rows.Keys
                 && (forall other | other in db.rows && other != id :: db'.rows[other] == db.rows[other])
                 && db'.rows[id] == r.(punchOutTime := Some(now), punchOutLocation := Some(location),
                                       punchOutPhoto := photo, workSummary := Some(workSummary),
                                       dayCount := Some(BindInt(res.value))))
  {
    TodayAttendanceExact(db, userId, now);
  }

  /** A half day is reported to the caller as 0.5 but stored as 0, because the
      day count is bound with integer type. */
  lemma HalfDayStoredAsZero(db: Db, userId: nat, workSummary: string, location: Location,
                            photo: Option<string>, now: Timestamp)
    requires WellFormed(db)
    requires PunchOutStep(db, userId, workSummary, location, photo, now).1 == Ok(0.5)
    ensures var db' := PunchOutStep(db, userId, workSummary, location, photo, now).0;
      exists id :: id in db'.rows && Matches(db'.rows[id], userId, Day(now)) && db'.rows[id].dayCount == Some(0)
  {
    var id := TodayAttendance(db, userId, now).value;
    var db' := PunchOutStep(db, userId, workSummary, location, photo, now).0;
    assert db'.rows[id].dayCount == Some(BindInt(0.5));
    assert Matches(db'.rows[id], userId, Day(now));
  }

  lemma PunchOutKeepsWellFormed(db: Db, userId: nat, workSummary: string, location: Location,
                                photo: Option<string>, now: Timestamp)
    requires WellFormed(db)
    ensures WellFormed(PunchOutStep(db, userId, workSummary, location, photo, now).0)
  {
    var db' := PunchOutStep(db, userId, workSummary, location, photo, now).0;
    if db' != db {
      var id := TodayAttendance(db, userId, now).value;
      assert forall k | k in db'.rows :: db'.rows[k].userId == db.rows[k].userId && db'.rows[k].Date() == db.rows[k].Date();
    }
  }

  // ----- convert_to_site_visit -----

  /** convert_to_site_visit: switch today's row to the site-visit slot. The
      punch-out column is not consulted. */
  function ConvertStep(db: Db, userId: nat, location: Location, photo: Option<string>, now: Timestamp)
    : (Db, Result<nat, AttendanceError>)
  {
    match TodayAttendance(db, userId, now)
    case None => (db, Err(NoPunchInFound))
    case Some(id) =>
      var r := db.rows[id];
      if r.slot == SiteVisit then (db, Err(AlreadyOnSiteVisit))
      else (db.(rows := db.rows[id := r.(slot := SiteVisit, siteVisit := Some(Conversion(now, location, photo)))]), Ok(id))
  }

  /** The outcomes of a conversion: no row or a row already on site visit
      fail without change; otherwise only the slot and the site-visit columns
      of today's row change, whether or not it was already punched out. */
  lemma ConvertOutcome(db: Db, userId: nat, location: Location, photo: Option<string>, now: Timestamp)
    requires WellFormed(db)
    ensures var (db', res) := ConvertStep(db, userId, location, photo, now);
      && (res.Err? ==> db' == db)
      && (res == Err(NoPunchInFound) <==> forall id | id in db.rows :: !Matches(db.rows[id], userId, Day(now)))
      && forall id | id in db.rows && Matches(db.rows[id], userId, Day(now)) ::
           && (res == Err(AlreadyOnSiteVisit) <==> db.rows[id].slot == SiteVisit)
           && (res.Ok? ==>
                 && res.value == id
                 && db' == db.(rows := db.rows[id := db.rows[id].(slot := SiteVisit,
                                                                 siteVisit := Some(Conversion(now, location, photo)))]))
  {
    TodayAttendanceExact(db, userId, now);
  }

  lemma ConvertKeepsWellFormed(db: Db, userId: nat, location: Location, photo: Option<string>, now: Timestamp)
    requires WellFormed(db)
    ensures WellFormed(ConvertStep(db, userId, location, photo, now).0)
  {
    var db' := ConvertStep(db, userId, location, photo, now).0;
    assert forall k | k in db'.rows :: db'.rows[k].userId == db.rows[k].userId && db'.rows[k].Date() == db.rows[k].Date();
  }

  /** A second conversion on the same date always fails and changes nothing. */
  lemma SecondConversionFails(db: Db, userId: nat, location: Location, photo: Option<string>, now: Timestamp,
                              location2: Location, photo2: Option<string>, later: Timestamp)
    requires WellFormed(db)
    requires Day(later) == Day(now)
    ensures var db1 := ConvertStep(db, userId, location, photo, now).0;
      ConvertStep(db1, userId, location2, photo2, later).1.Err? &&
      ConvertStep(db1, userId, location2, photo2, later).0 == db1
  {
    var (db1, res) := ConvertStep(db, userId, location, photo, now);
    if res.Ok? {
      ConvertKeepsWellFormed(db, userId, location, photo, now);
      var id := res.value;
      assert db1.rows[id].slot == SiteVisit;
      assert Matches(db1.rows[id], userId, Day(later));
      TodayAttendanceExact(db1, userId, later);
    }
  }

  /** Converting an already closed row makes it a site visit but leaves the
      day count it was closed with, so a site-visit row can carry 0. */
  lemma ConvertAfterPunchOut(db: Db, userId: nat, location: Location, photo: Option<string>, now: Timestamp, id: nat)
    requires WellFormed(db)
    requires id in db.rows && Matches(db.rows[id], userId, Day(now))
    requires db.rows[id].slot != SiteVisit && !db.rows[id].IsOpen()
    ensures var db' := ConvertStep(db, userId, location, photo, now).0;
      && db'.rows[id].slot == SiteVisit
      && db'.rows[id].dayCount == db.rows[id].dayCount
      && db'.rows[id].punchOutTime == db.rows[id].punchOutTime
  {
    TodayAttendanceExact(db, userId, now);
  }

  // ----- auto_punch_out_system -----

  /** The rows the sweep selects: punched in on `day` and still open. */
  predicate OpenOn(r: AttendanceRecord, day: nat) {
    r.Date() == day && r.IsOpen()
  }

  /** The row after the sweep closes it: punch-out stamped with the sweep's
      own clock reading, 1 day for a site visit and 0 otherwise, the flag set
      and the fixed summary written. */
  function AutoClose(r: AttendanceRecord, now: Timestamp): AttendanceRecord {
    r.(punchOutTime := Some(now), dayCount := Some(if r.slot == SiteVisit then 1 else 0),
       isAutoPunchOut := true, workSummary := Some(AUTO_SUMMARY))
  }

  /** auto_punch_out_system on the whole table. */
  function SweepStep(db: Db, now: Timestamp): Db {
    db.(rows := map id | id in db.rows :: if OpenOn(db.rows[id], Day(now)) then AutoClose(db.rows[id], now) else db.rows[id])
  }

  /** The sweep touches only today's open rows, and in those only the
      punch-out time, the day count, the flag and the work summary; every
      other row is unchanged, and no row of today is left open. */
  lemma SweepFrame(db: Db, now: Timestamp)
    ensures var db' := SweepStep(db, now);
      && db'.nextId == db.nextId && db'.rows.Keys == db.rows.Keys
      && (forall id | id in db.rows && !OpenOn(db.rows[id], Day(now)) :: db'.rows[id] == db.rows[id])
      && (forall id | id in db.rows && OpenOn(db.rows[id], Day(now)) ::
            db'.rows[id] == db.rows[id].(punchOutTime := Some(now),
                                         dayCount := Some(if db.rows[id].slot == SiteVisit then 1 else 0),
                                         isAutoPunchOut := true, workSummary := Some(AUTO_SUMMARY)))
      && (forall id | id in db'.rows :: !OpenOn(db'.rows[id], Day(now)))
  {
  }

  /** Running the sweep again on the same date, at any time of that date,
      changes nothing. */
  lemma {:induction false} SweepIdempotent(db: Db, now: Timestamp, later: Timestamp)
    requires Day(later) == Day(now)
    ensures SweepStep(SweepStep(db, now), later) == SweepStep(db, now)
  {
    var once := SweepStep(db, now);
    var twice := SweepStep(once, later);
    assert twice.rows.Keys == once.rows.Keys;
    forall id | id in once.rows
      ensures twice.rows[id] == once.rows[id]
    {
      assert !OpenOn(once.rows[id], Day(later));
    }
  }

  /** Once the sweep has set the flag, the engine's auto-punch-out rule
      yields the 0/1 the sweep stored, at any clock reading. */
  lemma SweepAgreesWithEngine(db: Db, now: Timestamp, id: nat, clock: Timestamp)
    requires id in db.rows && OpenOn(db.rows[id], Day(now))
    ensures var r := SweepStep(db, now).rows[id];
      r.dayCount == Some(BindInt(CalculateDayCount(r, clock)))
  {
  }

  /** The sweep never consults the engine: the copy of the selected row it
      builds is made from a three-column SELECT (id, user, slot) and is never
      used, and office/wfh rows are stored as 0 outright. Had the engine been
      run on the full stored row, closed at the sweep's clock with the flag
      still unset, it would credit a full day to a row open eight hours or
      more, and at least half a day from four hours, where the sweep stores 0. */
  lemma {:induction false} SweepOverridesEngine(db: Db, now: Timestamp, id: nat)
    requires id in db.rows && OpenOn(db.rows[id], Day(now))
    requires db.rows[id].slot != SiteVisit && !db.rows[id].isAutoPunchOut
    ensures var r := db.rows[id];
      var prepared := r.(punchOutTime := Some(now));
      && SweepStep(db, now).rows[id].dayCount == Some(0)
      && (now >= r.punchInTime + 8 * 3600 ==> CalculateDayCount(prepared, now) == 1.0)
      && (now >= r.punchInTime + 4 * 3600 ==> CalculateDayCount(prepared, now) >= 0.5)
  {
    var r := db.rows[id];
    if 600 <= MinuteOfDay(r.punchInTime) <= 615 && 1140 <= MinuteOfDay(now) {
      LateRecoveryFullDay(r.slot, r.punchInTime, now);
    } else {
      HourThresholds(r.slot, r.punchInTime, now);
    }
  }

  /** The example: an office row punched in at 09:00 and swept at 23:59 is a
      full day for the engine on the stored row, and 0 in the table. */
  lemma SweepOverridesEngineExample(location: Location)
    ensures var r := OpenRecord(7, Office, location, None, 9 * 3600);
      var db := Db(map[1 := r], 2);
      var now := 23 * 3600 + 59 * 60;
      && CalculateDayCount(r, now) == 1.0
      && SweepStep(db, now).rows[1].dayCount == Some(0)
  {
    var r := OpenRecord(7, Office, location, None, 9 * 3600);
    SweepOverridesEngine(Db(map[1 := r], 2), 23 * 3600 + 59 * 60, 1);
  }

  lemma SweepKeepsWellFormed(db: Db, now: Timestamp)
    requires WellFormed(db)
    ensures WellFormed(SweepStep(db, now))
  {
    var db' := SweepStep(db, now);
    assert forall k | k in db'.rows :: db'.rows[k].userId == db.rows[k].userId && db'.rows[k].Date() == db.rows[k].Date();
  }

  /** After the sweep, the user can neither punch in again nor punch out on
      that date. */
  lemma NoActionAfterSweep(db: Db, now: Timestamp, userId: nat, id: nat, later: Timestamp,
                           slot: Slot, location: Location, distance: Meters, photo: Option<string>, workSummary: string)
    requires WellFormed(db)
    requires id in db.rows && Matches(db.rows[id], userId, Day(now)) && Day(later) == Day(now)
    ensures var db' := SweepStep(db, now);
      && PunchInStep(db', userId, slot, location, distance, photo, later) == (db', Err(AlreadyPunchedIn))
      && PunchOutStep(db', userId, workSummary, location, photo, later) == (db', Err(AlreadyPunchedOut))
  {
    var db' := SweepStep(db, now);
    SweepKeepsWellFormed(db, now);
    assert Matches(db'.rows[id], userId, Day(later));
    TodayAttendanceExact(db', userId, later);
  }

  // ----- a whole day -----

  /** Punch in at the office, convert to a site visit, punch out three hours
      after punching in: a full day, by the site-visit override. */
  lemma ScenarioConvertedSiteVisit(db: Db, userId: nat, location: Location, photo: Option<string>,
                                   punchIn: Timestamp, convertAt: Timestamp, summary: string)
    requires WellFormed(db)
    requires TodayAttendance(db, userId, punchIn).None?
    requires Day(convertAt) == Day(punchIn) && Day(punchIn + 3 * 3600) == Day(punchIn)
    ensures var db1 := PunchInStep(db, userId, Office, location, 0.0, photo, punchIn).0;
      var db2 := ConvertStep(db1, userId, location, photo, convertAt).0;
      PunchOutStep(db2, userId, summary, location, photo, punchIn + 3 * 3600).1 == Ok(1.0)
  {
    var (db1, r1) := PunchInStep(db, userId, Office, location, 0.0, photo, punchIn);
    var id := db.nextId;
    assert r1 == Ok(id);
    PunchInKeepsWellFormed(db, userId, Office, location, 0.0, photo, punchIn);
    TodayAttendanceExact(db1, userId, convertAt);
    var db2 := ConvertStep(db1, userId, location, photo, convertAt).0;
    ConvertKeepsWellFormed(db1, userId, location, photo, convertAt);
    assert db2.rows[id].slot == SiteVisit && db2.rows[id].IsOpen();
    TodayAttendanceExact(db2, userId, punchIn + 3 * 3600);
  }
}
