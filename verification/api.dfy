/** The request handling of api.php that feeds the core: the login gate, the
    slot whitelist and photo-path defaulting of the punch actions, and the
    admin-only status updates of leaves and expenses. */
module Api {
  import opened Config
  import opened Clock
  import opened Results
  import opened Records
  import opened Attendance
  import opened AttendanceStore
  import Leaves
  import Expenses

  /** The session: user id and role, each possibly unset. */
  datatype Session = Session(userId: Option<nat>, role: Option<Role>)

  /** is_logged_in: both session keys are set. */
  predicate LoggedIn(s: Session) {
    s.userId.Some? && s.role.Some?
  }

  /** is_admin: the session role is admin. */
  predicate IsAdmin(s: Session) {
    s.role == Some(Admin)
  }

  /** An entry of $_FILES; only its size matters here. */
  datatype Upload = Upload(size: nat)

  /** What a request produces: the redirect of require_login, or the JSON
      reply with its optional attendance id and day count. */
  datatype Response =
    | Redirect
    | Reply(success: bool, message: string, id: Option<nat>, dayCount: Option<real>)

  function Failure(message: string): Response {
    Reply(false, message, None, None)
  }

  const INVALID_SLOT: string := "Invalid slot"
  const INVALID_ACTION: string := "Invalid action"
  const PHOTOS_URL: string := "/uploads/photos/"

  /** The slot's stored name. */
  function SlotName(slot: Slot): string {
    match slot
    case Office => "office"
    case Wfh => "wfh"
    case SiteVisit => "site_visit"
  }

  /** The whitelist of the punch_in action: exactly the three slot names are
      accepted. */
  function ParseSlot(text: string): (r: Option<Slot>)
    ensures r.Some? <==> text == "office" || text == "wfh" || text == "site_visit"
    ensures r.Some? ==> SlotName(r.value) == text
  {
    if text == "office" then Some(Office)
    else if text == "wfh" then Some(Wfh)
    else if text == "site_visit" then Some(SiteVisit)
    else None
  }

  /** Every slot's name passes the whitelist and reads back as that slot. */
  lemma SlotNameRoundTrip(slot: Slot)
    ensures ParseSlot(SlotName(slot)) == Some(slot)
  {
  }

  /** The photo reference a punch action stores: set only when a non-empty
      file arrived and moving it succeeded; otherwise null. */
  function PhotoPath(photo: Option<Upload>, moved: bool, fileName: string): Option<string> {
    if photo.Some? && photo.value.size > 0 && moved then Some(PHOTOS_URL + fileName) else None
  }

  /** The upload block of a punch action, statement by statement. `moved` is
      the result of move_uploaded_file and `fileName` the name built from the
      user id and the clock. The actions run this method; their contracts,
      which cannot call a method, name the path by `PhotoPath`. */
  method StorePhoto(photo: Option<Upload>, moved: bool, fileName: string) returns (path: Option<string>)
    ensures path.Some? <==> photo.Some? && photo.value.size > 0 && moved
    ensures path.Some? ==> path.value == PHOTOS_URL + fileName
    ensures path == PhotoPath(photo, moved, fileName)
  {
    path := None;
    if photo.Some? && photo.value.size > 0 {
      if moved {
        path := Some(PHOTOS_URL + fileName);
      }
    }
  }

  /** The reply of each attendance outcome. */
  function PunchInReply(res: Result<nat, AttendanceError>): Response {
    match res
    case Ok(id) => Reply(true, "Punched in successfully", Some(id), None)
    case Err(e) => Failure(e.Message())
  }

  function PunchOutReply(res: Result<real, AttendanceError>): Response {
    match res
    case Ok(d) => Reply(true, "Punched out successfully", None, Some(d))
    case Err(e) => Failure(e.Message())
  }

  function ConvertReply(res: Result<nat, AttendanceError>): Response {
    match res
    case Ok(id) => Reply(true, "Converted to site visit", Some(id), None)
    case Err(e) => Failure(e.Message())
  }

  /** The punch_in action. `distanceToOffice` stands for the Haversine
      distance from the configured office coordinates. */
  method PunchInAction(session: Session, table: AttendanceTable, slotText: string, latitude: real, longitude: real,
                       photo: Option<Upload>, moved: bool, fileName: string,
                       distanceToOffice: Location -> Meters, now: Timestamp) returns (resp: Response)
    requires table.Valid()
    modifies table
    ensures table.Valid()
    ensures !LoggedIn(session) ==> resp == Redirect && table.Snapshot() == old(table.Snapshot())
    ensures LoggedIn(session) && ParseSlot(slotText).None? ==>
      resp == Failure(INVALID_SLOT) && table.Snapshot() == old(table.Snapshot())
    ensures LoggedIn(session) && ParseSlot(slotText).Some? ==>
      var location := Location(latitude, longitude);
      var (db', res) := PunchInStep(old(table.Snapshot()), session.userId.value, ParseSlot(slotText).value,
                                    location, distanceToOffice(location), PhotoPath(photo, moved, fileName), now);
      table.Snapshot() == db' && resp == PunchInReply(res)
  {
    if !LoggedIn(session) {
      return Redirect;
    }
    var slot := ParseSlot(slotText);
    if slot.None? {
      return Failure(INVALID_SLOT);
    }
    var photoPath := StorePhoto(photo, moved, fileName);
    var location := Location(latitude, longitude);
    var res := table.PunchIn(session.userId.value, slot.value, location, distanceToOffice(location), photoPath, now);
    resp := PunchInReply(res);
  }

  /** The punch_out action; the summary is passed on untrimmed. */
  method PunchOutAction(session: Session, table: AttendanceTable, workSummary: string, latitude: real, longitude: real,
                        photo: Option<Upload>, moved: bool, fileName: string, now: Timestamp) returns (resp: Response)
    requires table.Valid()
    modifies table
    ensures table.Valid()
    ensures !LoggedIn(session) ==> resp == Redirect && table.Snapshot() == old(table.Snapshot())
    ensures LoggedIn(session) ==>
      var (db', res) := PunchOutStep(old(table.Snapshot()), session.userId.value, workSummary,
                                     Location(latitude, longitude), PhotoPath(photo, moved, fileName), now);
      table.Snapshot() == db' && resp == PunchOutReply(res)
  {
    if !LoggedIn(session) {
      return Redirect;
    }
    var photoPath := StorePhoto(photo, moved, fileName);
    var res := table.PunchOut(session.userId.value, workSummary, Location(latitude, longitude), photoPath, now);
    resp := PunchOutReply(res);
  }

  /** The convert_site_visit action. */
  method ConvertSiteVisitAction(session: Session, table: AttendanceTable, latitude: real, longitude: real,
                                photo: Option<Upload>, moved: bool, fileName: string, now: Timestamp) returns (resp: Response)
    requires table.Valid()
    modifies table
    ensures table.Valid()
    ensures !LoggedIn(session) ==> resp == Redirect && table.Snapshot() == old(table.Snapshot())
    ensures LoggedIn(session) ==>
      var (db', res) := ConvertStep(old(table.Snapshot()), session.userId.value,
                                    Location(latitude, longitude), PhotoPath(photo, moved, fileName), now);
      table.Snapshot() == db' && resp == ConvertReply(res)
  {
    if !LoggedIn(session) {
      return Redirect;
    }
    var photoPath := StorePhoto(photo, moved, fileName);
    var res := table.ConvertToSiteVisit(session.userId.value, Location(latitude, longitude), photoPath, now);
    resp := ConvertReply(res);
  }

  /** The gate in front of every status-changing action: not logged in means
      the login redirect; logged in but not admin falls through to
      "Invalid action". None means the admin branch runs. */
  function AdminGate(session: Session): (r: Option<Response>)
    ensures r.None? <==> LoggedIn(session) && IsAdmin(session)
  {
    if !LoggedIn(session) then Some(Redirect)
    else if !IsAdmin(session) then Some(Failure(INVALID_ACTION))
    else None
  }

  /** approve_leave / reject_leave: overwrite the status of the leave with
      that id, with no check of its previous status. The UPDATE succeeds even
      when no row has that id. */
  method SetLeaveStatusAction(session: Session, leaves: Leaves.LeaveTable, leaveId: nat, status: Status,
                              now: Timestamp) returns (resp: Response)
    requires leaves.Valid() && (status == Approved || status == Rejected)
    modifies leaves
    ensures leaves.Valid()
    ensures AdminGate(session).Some? ==>
      resp == AdminGate(session).value && leaves.Snapshot() == old(leaves.Snapshot())
    ensures AdminGate(session).None? ==>
      && leaves.Snapshot() == Leaves.SetStatusStep(old(leaves.Snapshot()), leaveId, status, now)
      && resp == Reply(true, if status == Approved then "Leave approved" else "Leave rejected", None, None)
  {
    var gate := AdminGate(session);
    if gate.Some? {
      return gate.value;
    }
    leaves.SetStatus(leaveId, status, now);
    resp := Reply(true, if status == Approved then "Leave approved" else "Leave rejected", None, None);
  }

  /** approve_expense / reject_expense, likewise for claims. */
  method SetExpenseStatusAction(session: Session, expenses: Expenses.ExpenseTable, expenseId: nat, status: Status,
                                now: Timestamp) returns (resp: Response)
    requires expenses.Valid() && (status == Approved || status == Rejected)
    modifies expenses
    ensures expenses.Valid()
    ensures AdminGate(session).Some? ==>
      resp == AdminGate(session).value && expenses.Snapshot() == old(expenses.Snapshot())
    ensures AdminGate(session).None? ==>
      && expenses.Snapshot() == Expenses.SetStatusStep(old(expenses.Snapshot()), expenseId, status, now)
      && resp == Reply(true, if status == Approved then "Expense approved" else "Expense rejected", None, None)
  {
    var gate := AdminGate(session);
    if gate.Some? {
      return gate.value;
    }
    expenses.SetStatus(expenseId, status, now);
    resp := Reply(true, if status == Approved then "Expense approved" else "Expense rejected", None, None);
  }

  /** Status updates by an admin are unconditional overwrites: approving
      after a rejection, and rejecting after an approval, both take effect. */
  lemma StatusFlipsAllowed(db: Leaves.LeaveDb, id: nat, t1: Timestamp, t2: Timestamp)
    requires id in db.rows
    ensures Leaves.SetStatusStep(Leaves.SetStatusStep(db, id, Rejected, t1), id, Approved, t2).rows[id].status == Approved
    ensures Leaves.SetStatusStep(Leaves.SetStatusStep(db, id, Approved, t1), id, Rejected, t2).rows[id].status == Rejected
  {
  }
}
