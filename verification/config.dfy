/** The business constants and enumerations of config.php. */
module Config {

  /** Attendance slots (SLOT_OFFICE, SLOT_WFH, SLOT_SITE_VISIT). */
  datatype Slot = Office | Wfh | SiteVisit

  /** User roles (ROLE_ADMIN, ROLE_EMPLOYEE, ROLE_INTERN). */
  datatype Role = Admin | Employee | Intern

  /** Stipend kinds of an intern. Any stored value other than 'hourly'
      takes the fixed-stipend branch of the salary calculation. */
  datatype StipendType = Hourly | Fixed

  /** Status of a leave request or an expense claim. */
  datatype Status = Pending | Approved | Rejected

  /** Geofence radius around the office, in metres. */
  const OFFICE_RADIUS: real := 100.0

  /** Late window and recovery time, as the 'H:i' strings config.php defines. */
  const LATE_START: string := "10:00"
  const LATE_END: string := "10:15"
  const RECOVERY_TIME: string := "19:00"

  /** Hour thresholds of the hour-based fallback. */
  const HALF_DAY_MIN_HOURS: nat := 4
  const FULL_DAY_MIN_HOURS: nat := 8

  /** The two leave types the application offers. */
  const LEAVE_SICK: string := "sick"
  const LEAVE_CASUAL: string := "casual"

  /** Text the sweep writes into work_summary. */
  const AUTO_SUMMARY: string := "Punch out automatically done by system"
}
