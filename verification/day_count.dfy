/** The day-count engine of db.php: a strict priority chain that maps an
    attendance record to a credit of 0, 0.5 or 1 day. */
module DayCountEngine {
  import opened Config
  import opened Clock
  import opened Results
  import opened Records

  /** Rule 3's first test: the punch-in 'H:i' lies in [LATE_START, LATE_END],
      compared as strings. */
  predicate InLateWindow(punchIn: Timestamp) {
    var s := FormatHi(punchIn);
    LexLe(LATE_START, s) && LexLe(s, LATE_END)
  }

  /** Rule 3's second test: the punch-out 'H:i' is at or after RECOVERY_TIME. */
  predicate Recovered(punchOut: Timestamp) {
    LexLe(RECOVERY_TIME, FormatHi(punchOut))
  }

  /** (punch_out - punch_in) / 3600 as an exact quotient. */
  function HoursWorked(punchIn: Timestamp, punchOut: Timestamp): real {
    (punchOut as int - punchIn as int) as real / 3600.0
  }

  /** Rule 4: the hour thresholds. */
  function HourFallback(hours: real): (d: real)
    ensures d == 0.0 || d == 0.5 || d == 1.0
  {
    if hours < HALF_DAY_MIN_HOURS as real then 0.0
    else if hours < FULL_DAY_MIN_HOURS as real then 0.5
    else 1.0
  }

  /** The priority chain, first matching rule wins. */
  function DayCount(slot: Slot, punchIn: Timestamp, punchOut: Timestamp, autoPunchOut: bool): (d: real)
    ensures d == 0.0 || d == 0.5 || d == 1.0
  {
    if slot == SiteVisit then 1.0
    else if autoPunchOut && slot != SiteVisit then 0.0
    else if InLateWindow(punchIn) && Recovered(punchOut) then 1.0
    else HourFallback(HoursWorked(punchIn, punchOut))
  }

  /** calculate_day_count on a row: a null punch_out_time is read as the
      current time, and the auto-punch-out flag is the row's stored flag. */
  function CalculateDayCount(r: AttendanceRecord, now: Timestamp): (d: real)
    ensures d == 0.0 || d == 0.5 || d == 1.0
    ensures r.slot == SiteVisit ==> d == 1.0
    ensures r.slot != SiteVisit && r.isAutoPunchOut ==> d == 0.0
  {
    DayCount(r.slot, r.punchInTime, r.punchOutTime.GetOr(now), r.isAutoPunchOut)
  }

  /** An independent statement of the rules on minutes of the day and
      elapsed seconds, with no strings and no division. */
  function DayCountByMinutes(slot: Slot, punchIn: Timestamp, punchOut: Timestamp, autoPunchOut: bool): real {
    var elapsed := punchOut as int - punchIn as int;
    if slot == SiteVisit then 1.0
    else if autoPunchOut then 0.0
    else if 600 <= MinuteOfDay(punchIn) <= 615 && 1140 <= MinuteOfDay(punchOut) then 1.0
    else if elapsed < 4 * 3600 then 0.0
    else if elapsed < 8 * 3600 then 0.5
    else 1.0
  }

  /** The string comparisons of rule 3 are the minute comparisons of the
      reference rules. */
  lemma LateWindowByMinutes(punchIn: Timestamp, punchOut: Timestamp)
    ensures InLateWindow(punchIn) <==> 600 <= MinuteOfDay(punchIn) <= 615
    ensures Recovered(punchOut) <==> 1140 <= MinuteOfDay(punchOut)
  {
    HiConstants();
    HiOrder(600, MinuteOfDay(punchIn));
    HiOrder(MinuteOfDay(punchIn), 615);
    HiOrder(1140, MinuteOfDay(punchOut));
  }

  /** The engine as written agrees with the reference rules on every input. */
  lemma DayCountMatchesMinutes(slot: Slot, punchIn: Timestamp, punchOut: Timestamp, autoPunchOut: bool)
    ensures DayCount(slot, punchIn, punchOut, autoPunchOut) == DayCountByMinutes(slot, punchIn, punchOut, autoPunchOut)
  {
    LateWindowByMinutes(punchIn, punchOut);
  }

  /** Rule 1: a site visit is a full day whatever the times and the flag. */
  lemma SiteVisitOverride(punchIn: Timestamp, punchOut: Timestamp, autoPunchOut: bool)
    ensures DayCount(SiteVisit, punchIn, punchOut, autoPunchOut) == 1.0
  {
  }

  /** Rule 2: an auto-punched-out office/wfh record earns nothing, even when
      the late recovery or eight hours would otherwise apply. */
  lemma AutoPunchOutPenalty(slot: Slot, punchIn: Timestamp, punchOut: Timestamp)
    requires slot != SiteVisit
    ensures DayCount(slot, punchIn, punchOut, true) == 0.0
  {
  }

  /** Rule 3: a punch-in from 10:00 to 10:15 (seconds ignored, so 10:15:59
      qualifies) with a punch-out at or after 19:00 is a full day. */
  lemma LateRecoveryFullDay(slot: Slot, punchIn: Timestamp, punchOut: Timestamp)
    requires slot != SiteVisit
    requires 600 <= MinuteOfDay(punchIn) <= 615 && 1140 <= MinuteOfDay(punchOut)
    ensures DayCount(slot, punchIn, punchOut, false) == 1.0
  {
    LateWindowByMinutes(punchIn, punchOut);
  }

  /** Rule 4: when no earlier rule fires the result is decided by the elapsed
      seconds alone: under 4 h nothing, under 8 h half a day, else a full day. */
  lemma HourThresholds(slot: Slot, punchIn: Timestamp, punchOut: Timestamp)
    requires slot != SiteVisit
    requires !(600 <= MinuteOfDay(punchIn) <= 615 && 1140 <= MinuteOfDay(punchOut))
    ensures var d, e := DayCount(slot, punchIn, punchOut, false), punchOut as int - punchIn as int;
      && (d == 0.0 <==> e < 4 * 3600)
      && (d == 0.5 <==> 4 * 3600 <= e < 8 * 3600)
      && (d == 1.0 <==> 8 * 3600 <= e)
  {
    DayCountMatchesMinutes(slot, punchIn, punchOut, false);
  }

  /** More hours never lower the fallback's credit. */
  lemma HourFallbackMonotone(h1: real, h2: real)
    requires h1 <= h2
    ensures HourFallback(h1) <= HourFallback(h2)
  {
  }

  /** The seconds of day of a timestamp inside the late window and of one at
      or after the recovery time are at least 8 h 44 min 1 s apart. */
  lemma RecoveryGap(punchIn: Timestamp, punchOut: Timestamp)
    requires punchIn <= punchOut
    requires MinuteOfDay(punchIn) <= 615 && 1140 <= MinuteOfDay(punchOut)
    ensures punchOut - punchIn >= 8 * 3600
  {
    var di, si := punchIn / SECONDS_PER_DAY, punchIn % SECONDS_PER_DAY;
    var dout, so := punchOut / SECONDS_PER_DAY, punchOut % SECONDS_PER_DAY;
    assert punchIn == di * SECONDS_PER_DAY + si;
    assert punchOut == dout * SECONDS_PER_DAY + so;
    assert si < 616 * 60;
    assert so >= 1140 * 60;
    if dout == di {
    } else {
      assert dout >= di + 1;
      assert dout * SECONDS_PER_DAY >= di * SECONDS_PER_DAY + SECONDS_PER_DAY;
    }
  }

  /** When the punch-out is not before the punch-in, rule 3 never changes the
      outcome: whenever it fires, at least 8 hours have elapsed, so rule 4
      would also give a full day. */
  lemma RecoveryNeverDecides(slot: Slot, punchIn: Timestamp, punchOut: Timestamp, autoPunchOut: bool)
    requires punchIn <= punchOut
    ensures DayCount(slot, punchIn, punchOut, autoPunchOut) ==
      if slot == SiteVisit then 1.0
      else if autoPunchOut then 0.0
      else HourFallback(HoursWorked(punchIn, punchOut))
  {
    LateWindowByMinutes(punchIn, punchOut);
    if slot != SiteVisit && !autoPunchOut && InLateWindow(punchIn) && Recovered(punchOut) {
      RecoveryGap(punchIn, punchOut);
      assert HoursWorked(punchIn, punchOut) >= 8.0;
    }
  }

  /** For a fixed punch-in, slot and flag, a later punch-out never lowers the
      day count. */
  lemma DayCountMonotone(slot: Slot, punchIn: Timestamp, out1: Timestamp, out2: Timestamp, autoPunchOut: bool)
    requires punchIn <= out1 <= out2
    ensures DayCount(slot, punchIn, out1, autoPunchOut) <= DayCount(slot, punchIn, out2, autoPunchOut)
  {
    RecoveryNeverDecides(slot, punchIn, out1, autoPunchOut);
    RecoveryNeverDecides(slot, punchIn, out2, autoPunchOut);
    HourFallbackMonotone(HoursWorked(punchIn, out1), HoursWorked(punchIn, out2));
  }

  /** Office punch-in 10:05, punch-out 19:05 on the same day: a full day. */
  lemma ScenarioLateRecovery()
    ensures DayCount(Office, 10 * 3600 + 5 * 60, 19 * 3600 + 5 * 60, false) == 1.0
  {
    LateRecoveryFullDay(Office, 10 * 3600 + 5 * 60, 19 * 3600 + 5 * 60);
  }

  /** Punch-in 09:00, punch-out 16:30 (7.5 hours): half a day. */
  lemma ScenarioHalfDay()
    ensures DayCount(Office, 9 * 3600, 16 * 3600 + 30 * 60, false) == 0.5
  {
    HourThresholds(Office, 9 * 3600, 16 * 3600 + 30 * 60);
  }

  /** Punch-in 09:00, punch-out 12:00 (3 hours): nothing. */
  lemma ScenarioShortDay()
    ensures DayCount(Wfh, 9 * 3600, 12 * 3600, false) == 0.0
  {
    HourThresholds(Wfh, 9 * 3600, 12 * 3600);
  }
}
