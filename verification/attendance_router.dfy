/** The `/attendance` endpoints. Each one depends on the active-user guard, passed in as the
    `Result` it produced: a refusal of the guard is the endpoint's answer. Past the guard, service
    errors become 400 responses, a missing row today is a 404, and the status endpoint derives its
    flags and message from today's row. */
module AttendanceRouter {
  import opened Wrappers
  import opened Calendar
  import opened Users
  import opened Security
  import opened AuthDependencies
  import opened AttendanceModel
  import opened AttendanceService
  import opened Sequences

  /** `POST /attendance/clock-in`: a `ValueError` from the service becomes 400 with its text. */
  function ClockInEndpoint(guard: Result<User, HttpError>, table: Table, now: DateTime, notes: Option<string>): (r: Result<Updated, HttpError>)
    ensures guard.Err? ==> r == Err(guard.error)
    ensures guard.Ok? ==>
      && (r.Ok? <==> ClockIn(table, guard.value.id, now, notes).Ok?)
      && (r.Ok? ==> r.value == ClockIn(table, guard.value.id, now, notes).value)
      && (r.Err? ==> r.error == HttpError(BadRequest, "既に出勤済みです"))
  {
    match guard
    case Err(e) => Err(e)
    case Ok(user) =>
      match ClockIn(table, user.id, now, notes)
      case Ok(u) => Ok(u)
      case Err(e) => Err(HttpError(BadRequest, ErrorMessage(e)))
  }

  /** `POST /attendance/clock-out`, mapped the same way. */
  function ClockOutEndpoint(guard: Result<User, HttpError>, table: Table, now: DateTime, notes: Option<string>): (r: Result<Updated, HttpError>)
    ensures guard.Err? ==> r == Err(guard.error)
    ensures guard.Ok? ==>
      && (r.Ok? <==> ClockOut(table, guard.value.id, now, notes).Ok?)
      && (r.Ok? ==> r.value == ClockOut(table, guard.value.id, now, notes).value)
      && (r.Err? ==> r.error.status == BadRequest)
      && (r.Err? ==> (r.error.detail == "出勤記録が見つかりません" <==> FindRecord(table, guard.value.id, now.date).None?))
  {
    match guard
    case Err(e) => Err(e)
    case Ok(user) =>
      match ClockOut(table, user.id, now, notes)
      case Ok(u) => Ok(u)
      case Err(e) => Err(HttpError(BadRequest, ErrorMessage(e)))
  }

  const NoRecordTodayMessage := "今日の勤怠記録が見つかりません"

  /** `GET /attendance/today`: 404 exactly when the user has no row for today. */
  function TodayRecord(guard: Result<User, HttpError>, table: Table, today: CivilDate): (r: Result<Record, HttpError>)
    ensures guard.Err? ==> r == Err(guard.error)
    ensures guard.Ok? ==>
      && (r.Err? <==> forall j :: 0 <= j < |table| ==> !IsDay(table[j], guard.value.id, today))
      && (r.Err? ==> r.error == HttpError(NotFound, NoRecordTodayMessage))
      && (r.Ok? ==> r.value in table && IsDay(r.value, guard.value.id, today))
  {
    match guard
    case Err(e) => Err(e)
    case Ok(user) =>
      match FindRecord(table, user.id, today)
      case None => Err(HttpError(NotFound, NoRecordTodayMessage))
      case Some(i) => Ok(table[i])
  }

  /** `GET /attendance/records`: the user's rows in the inclusive range, newest first. */
  function RecordsEndpoint(guard: Result<User, HttpError>, table: Table, start: CivilDate, end: CivilDate): (r: Result<seq<Record>, HttpError>)
    ensures guard.Err? ==> r == Err(guard.error)
    ensures r.Ok? <==> guard.Ok?
    ensures r.Ok? ==> SortedByDateDesc(r.value)
    ensures r.Ok? ==> forall x :: multiset(r.value)[x] == if InRange(x, guard.value.id, start, end) then multiset(table)[x] else 0
  {
    match guard
    case Err(e) => Err(e)
    case Ok(user) =>
      FilterMultiplicity(table, (x: Record) => InRange(x, user.id, start, end));
      Ok(UserRecords(table, user.id, start, end))
  }

  /** The keys of the dictionary `get_monthly_summary` returns. */
  const SummaryKeys: seq<string> :=
    ["year", "month", "total_work_days", "total_work_hours", "total_overtime_hours", "average_daily_hours", "records"]

  /** The fields `MonthlyAttendanceSummary`, the route's response model, requires. */
  const SummaryFields: seq<string> :=
    ["year", "month", "total_work_days", "total_work_hours", "total_overtime_hours", "average_daily_hours", "attendance_records"]

  /** FastAPI's response validation: every required field of the response model must be present. */
  predicate ResponseHasFields(keys: seq<string>, fields: seq<string>) {
    forall f :: f in fields ==> f in keys
  }

  /** The service names the list `records` while the response model requires
      `attendance_records`, so the response never validates. */
  lemma SummaryResponseInvalid()
    ensures "attendance_records" in SummaryFields && "attendance_records" !in SummaryKeys
    ensures !ResponseHasFields(SummaryKeys, SummaryFields)
  {
    assert SummaryFields[6] == "attendance_records";
  }

  /** `GET /attendance/summary/monthly`: the service's summary, checked against the response
      model. The `ValueError` that `date(year, month, 1)` raises for an invalid year or month is not
      caught, and a summary that fails response validation is a server error too; both are 500.
      Since the service's dictionary lacks a required field, the route never succeeds. */
  function MonthlySummaryEndpoint(guard: Result<User, HttpError>, table: Table, year: int, month: int): (r: Result<Summary, HttpError>)
    ensures guard.Err? ==> r == Err(guard.error)
    ensures guard.Ok? ==> r == Err(HttpError(ServerError, ServerErrorMessage))
    ensures r.Err?
  {
    match guard
    case Err(e) => Err(e)
    case Ok(user) =>
      match MonthlySummary(table, user.id, year, month)
      case Err(_) => Err(HttpError(ServerError, ServerErrorMessage))
      case Ok(s) =>
        SummaryResponseInvalid();
        if ResponseHasFields(SummaryKeys, SummaryFields) then Ok(s)
        else Err(HttpError(ServerError, ServerErrorMessage))
  }

  datatype StatusReport = StatusReport(
    isWorking: bool,
    isClockedIn: bool,
    isClockedOut: bool,
    record: Option<Record>,
    message: string)

  const NotYetMessage := "今日はまだ出勤していません"
  const WorkingMessage := "勤務中"
  const ClockedOutMessage := "退勤済み"
  const ClockedInMessage := "出勤済み"

  /** The body of `GET /attendance/status` once the guard has passed. */
  function StatusOf(table: Table, userId: int, today: CivilDate): (s: StatusReport)
    ensures s.record.None? <==> FindRecord(table, userId, today).None?
    ensures s.record.None? ==> !s.isWorking && !s.isClockedIn && !s.isClockedOut && s.message == NotYetMessage
    ensures s.record.Some? ==>
      && s.record.value == table[FindRecord(table, userId, today).value]
      && s.isWorking == s.record.value.IsWorking()
      && s.isClockedIn == s.record.value.IsClockedIn()
      && s.isClockedOut == s.record.value.IsClockedOut()
  {
    match FindRecord(table, userId, today)
    case None => StatusReport(false, false, false, None, NotYetMessage)
    case Some(i) =>
      var rec := table[i];
      StatusReport(rec.IsWorking(), rec.IsClockedIn(), rec.IsClockedOut(), Some(rec),
        if rec.IsWorking() then WorkingMessage else if rec.IsClockedOut() then ClockedOutMessage else ClockedInMessage)
  }

  /** `GET /attendance/status`. */
  function AttendanceStatus(guard: Result<User, HttpError>, table: Table, today: CivilDate): (r: Result<StatusReport, HttpError>)
    ensures guard.Err? ==> r == Err(guard.error)
    ensures r.Ok? <==> guard.Ok?
    ensures r.Ok? ==> r.value == StatusOf(table, guard.value.id, today)
  {
    match guard
    case Err(e) => Err(e)
    case Ok(user) => Ok(StatusOf(table, user.id, today))
  }

  /** The four messages and when each one is given: "出勤済み" also covers a row with no clock-in. */
  lemma StatusMessageCases(table: Table, userId: int, today: CivilDate)
    ensures var s := StatusOf(table, userId, today);
      && (s.message == NotYetMessage <==> s.record.None?)
      && (s.message == WorkingMessage <==> s.isWorking)
      && (s.message == ClockedOutMessage <==> s.isClockedOut)
      && (s.message == ClockedInMessage <==> s.record.Some? && !s.isWorking && !s.isClockedOut)
    ensures var s := StatusOf(table, userId, today);
      !(s.isWorking && s.isClockedOut)
  {
  }

  /** The status after a successful clock-in reports working unless the row was already clocked out. */
  lemma StatusAfterClockIn(user: User, table: Table, now: DateTime, notes: Option<string>)
    requires ClockInEndpoint(Ok(user), table, now, notes).Ok?
    ensures var r := AttendanceStatus(Ok(user), ClockInEndpoint(Ok(user), table, now, notes).value.table, now.date);
      && r.Ok? && r.value.isClockedIn
      && r.value.isWorking == !FindRecordOrNew(table, user.id, now.date).IsClockedOut()
  {
    ClockInThenFind(table, user.id, now, notes);
  }

  /** Every endpoint answers a token that fails to verify, has been logged out or names no user
      with the guard's 401, and an inactive user with its 400, before touching the table. A missing
      header is refused earlier, by the bearer-credential parsing, which is not modelled. */
  lemma GuardRefusalsReachEndpoints(b: Blacklist, dir: Directory, token: string, decode: string -> Option<Payload>,
                                    table: Table, now: DateTime, notes: Option<string>, start: CivilDate, end: CivilDate,
                                    year: int, month: int)
    requires CurrentActiveUser(b, dir, token, decode).Err?
    ensures var guard := CurrentActiveUser(b, dir, token, decode);
      var e := guard.error;
      && (e.status == Unauthorized || e == HttpError(BadRequest, InactiveMessage))
      && ClockInEndpoint(guard, table, now, notes) == Err(e)
      && ClockOutEndpoint(guard, table, now, notes) == Err(e)
      && TodayRecord(guard, table, now.date) == Err(e)
      && RecordsEndpoint(guard, table, start, end) == Err(e)
      && MonthlySummaryEndpoint(guard, table, year, month) == Err(e)
      && AttendanceStatus(guard, table, now.date) == Err(e)
  {
  }

  /** A user whose row has been deactivated is refused by every endpoint with the 400 of the guard. */
  lemma InactiveUserRefused(b: Blacklist, dir: Directory, token: string, decode: string -> Option<Payload>,
                            table: Table, now: DateTime, notes: Option<string>)
    requires CurrentUser(b, dir, token, decode).Ok? && !CurrentUser(b, dir, token, decode).value.isActive
    ensures var guard := CurrentActiveUser(b, dir, token, decode);
      && ClockInEndpoint(guard, table, now, notes) == Err(HttpError(BadRequest, InactiveMessage))
      && AttendanceStatus(guard, table, now.date) == Err(HttpError(BadRequest, InactiveMessage))
  {
  }
}
