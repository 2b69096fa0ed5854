/** The row of the attendance table. */
module Records {
  import opened Config
  import opened Clock
  import opened Results

  /** A latitude/longitude pair as the client reports it. */
  datatype Location = Location(lat: real, lng: real)

  /** A great-circle distance in metres (the Haversine result, never negative). */
  type Meters = r: real | r >= 0.0

  /** The site_visit_* columns written by a conversion. */
  datatype Conversion = Conversion(time: Timestamp, location: Location, photo: Option<string>)

  /** One attendance row. Nullable columns are Options; `dayCount` holds the
      integer that was bound into the day_count column. */
  datatype AttendanceRecord = AttendanceRecord(
    userId: nat,
    slot: Slot,
    punchInTime: Timestamp,
    punchInLocation: Location,
    punchInPhoto: Option<string>,
    punchOutTime: Option<Timestamp>,
    punchOutLocation: Option<Location>,
    punchOutPhoto: Option<string>,
    workSummary: Option<string>,
    dayCount: Option<int>,
    isAutoPunchOut: bool,
    siteVisit: Option<Conversion>)
  {
    /** The attendance date: DATE(punch_in_time). */
    function Date(): nat {
      Day(punchInTime)
    }

    predicate IsOpen() {
      punchOutTime.None?
    }
  }

  /** PHP's conversion of a number to int when it is bound with type 'i':
      truncation toward zero. */
  function BindInt(x: real): (n: int)
    ensures -1.0 < x - n as real < 1.0
    ensures x >= 0.0 ==> 0 <= n && n as real <= x
    ensures x <= 0.0 ==> n <= 0 && x <= n as real
  {
    if x >= 0.0 then x.Floor else -((-x).Floor)
  }

  /** The failure of a prepared statement whose parameters do not bind. */
  datatype SqlError = BindMismatch

  /** mysqli_stmt::bind_param accepts the call only when the type string
      names one type per bound variable. */
  function BindParams(types: string, variables: nat): Result<(), SqlError> {
    if |types| == variables then Ok(()) else Err(BindMismatch)
  }

  /** The decimal text of a natural number, as PHP prints an integer. */
  function Decimal(n: nat): (s: string)
    ensures |s| >= 1
  {
    if n < 10 then [Digit(n)] else Decimal(n / 10) + [Digit(n % 10)]
  }

  /** PHP's round() of a non-negative number: halves go away from zero. */
  function Round(x: Meters): nat {
    (x + 0.5).Floor
  }
}
