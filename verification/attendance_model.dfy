/** One row of the `attendance_records` table: a user's attendance on one date, with the derived
    flags the API reports. Hours are kept in microseconds instead of rounded float hours. */
module AttendanceModel {
  import opened Wrappers
  import opened Calendar

  datatype Status = Present | Absent | Late | EarlyLeave | HalfDay

  /** The enum's stored string value. */
  function StatusCode(s: Status): (code: string)
    ensures code in StatusCodes
  {
    match s
    case Present => "present"
    case Absent => "absent"
    case Late => "late"
    case EarlyLeave => "early_leave"
    case HalfDay => "half_day"
  }

  const StatusCodes: set<string> := {"present", "absent", "late", "early_leave", "half_day"}

  /** Every status has its own code and every code names a status: the enum has exactly five values. */
  lemma StatusCodesExact()
    ensures forall a: Status, b: Status :: StatusCode(a) == StatusCode(b) ==> a == b
    ensures forall c :: c in StatusCodes <==> exists s: Status :: StatusCode(s) == c
    ensures |StatusCodes| == 5
  {
    assert StatusCode(Present) == "present";
    assert StatusCode(Absent) == "absent";
    assert StatusCode(Late) == "late";
    assert StatusCode(EarlyLeave) == "early_leave";
    assert StatusCode(HalfDay) == "half_day";
  }

  datatype Record = Record(
    userId: int,
    date: CivilDate,
    clockIn: Option<DateTime>,
    clockOut: Option<DateTime>,
    totalWork: int,   // microseconds; the `total_hours` column
    overtime: int,    // microseconds; the `overtime_hours` column
    status: Status,
    notes: Option<string>)
  {
    predicate IsClockedIn() { clockIn.Some? }
    predicate IsClockedOut() { clockOut.Some? }
    predicate IsWorking() { IsClockedIn() && !IsClockedOut() }
  }

  /** A row as `create_today_record` inserts it: only user, date and status given, the rest defaults. */
  function NewRecord(userId: int, date: CivilDate): (r: Record)
    ensures r.userId == userId && r.date == date
    ensures r.totalWork == 0 && r.overtime == 0 && r.status == Present
    ensures !r.IsClockedIn() && !r.IsClockedOut() && !r.IsWorking() && r.notes.None?
  {
    Record(userId, date, None, None, 0, 0, Present, None)
  }

  /** A record that is working has not clocked out, and one that has clocked out is not working. */
  lemma WorkingExcludesClockedOut(r: Record)
    ensures r.IsWorking() ==> r.IsClockedIn() && !r.IsClockedOut()
    ensures r.IsClockedOut() ==> !r.IsWorking()
    ensures r.IsClockedIn() && !r.IsClockedOut() ==> r.IsWorking()
  {
  }
}
