/** `AttendanceService`: clock-in and clock-out on the (user, today) row, date-range queries and the
    monthly summary. The table is a sequence of rows; a lookup takes the first matching row, as
    `.first()` does. "Now" is a parameter and today's date is the date of "now". */
module AttendanceService {
  import opened Wrappers
  import opened Calendar
  import opened AttendanceModel
  import opened Sequences

  /** 09:00: clocking in strictly after this is late. */
  const WorkStart: TimeOfDay := TimeOfDayAt(9, 0)
  /** 18:00: clocking out strictly before this is leaving early. */
  const WorkEnd: TimeOfDay := TimeOfDayAt(18, 0)
  /** The one-hour break deducted from a span longer than an hour. */
  const BreakMicros := HourMicros
  /** Eight regular hours; worked time above this is overtime. */
  const RegularMicros := 8 * HourMicros

  type Table = seq<Record>

  predicate IsDay(r: Record, userId: int, day: Date) {
    r.userId == userId && r.date == day
  }

  /** `get_today_record`: the index of the first row for this user and date. */
  function FindRecord(table: Table, userId: int, day: Date): (r: Option<nat>)
    ensures r.Some? ==> r.value < |table| && IsDay(table[r.value], userId, day)
    ensures r.Some? ==> forall j :: 0 <= j < r.value ==> !IsDay(table[j], userId, day)
    ensures r.None? <==> forall j :: 0 <= j < |table| ==> !IsDay(table[j], userId, day)
  {
    if |table| == 0 then None
    else if IsDay(table[0], userId, day) then Some(0)
    else match FindRecord(table[1..], userId, day)
      case None => None
      case Some(k) => Some(k + 1)
  }

  /** At most one row per user and date. */
  predicate UniquePerDay(table: Table) {
    forall i, j :: 0 <= i < j < |table| ==> !(table[i].userId == table[j].userId && table[i].date == table[j].date)
  }

  datatype ClockError = AlreadyClockedIn | NoRecordToday | AlreadyClockedOut

  /** The `ValueError` text each error carries. */
  function ErrorMessage(e: ClockError): (msg: string)
    ensures |msg| > 0
  {
    match e
    case AlreadyClockedIn => "既に出勤済みです"
    case NoRecordToday => "出勤記録が見つかりません"
    case AlreadyClockedOut => "既に退勤済みです"
  }

  lemma ErrorMessagesDistinct(a: ClockError, b: ClockError)
    requires a != b
    ensures ErrorMessage(a) != ErrorMessage(b)
  {
  }

  /** The table after an operation and the index of the row it wrote. */
  datatype Updated = Updated(table: Table, index: nat)

  /** Rows other than `i` are the same in both tables. */
  predicate OthersUnchanged(before: Table, after: Table, i: nat) {
    |before| <= |after| && forall j :: 0 <= j < |before| && j != i ==> after[j] == before[j]
  }

  /** `clock_in`: get or create today's row, refuse a second clock-in, stamp the time and the notes,
      and mark the row late when the time of day is after 09:00. */
  function ClockIn(table: Table, userId: int, now: DateTime, notes: Option<string>): (r: Result<Updated, ClockError>)
    ensures var found := FindRecord(table, userId, now.date);
      && (r.Err? <==> found.Some? && table[found.value].IsClockedIn())
      && (r.Err? ==> r.error == AlreadyClockedIn)
    ensures r.Ok? ==>
      var found := FindRecord(table, userId, now.date);
      var before := if found.Some? then table[found.value] else NewRecord(userId, now.date);
      var t := r.value.table;
      var i := r.value.index;
      && i < |t|
      && IsDay(t[i], userId, now.date)
      && OthersUnchanged(table, t, i)
      && (found.Some? ==> |t| == |table| && i == found.value)
      && (found.None? ==> |t| == |table| + 1 && i == |table|)
      && t[i].clockIn == Some(now)
      && t[i].notes == notes
      && (now.time > WorkStart ==> t[i].status == Late)
      && (now.time <= WorkStart ==> t[i].status == before.status)
      && t[i].clockOut == before.clockOut
      && t[i].totalWork == before.totalWork
      && t[i].overtime == before.overtime
  {
    var found := FindRecord(table, userId, now.date);
    var t := if found.Some? then table else table + [NewRecord(userId, now.date)];
    var i := if found.Some? then found.value else |table|;
    var rec := t[i];
    if rec.IsClockedIn() then Err(AlreadyClockedIn)
    else
      var stamped := rec.(clockIn := Some(now), notes := notes);
      var rec' := if now.time > WorkStart then stamped.(status := Late) else stamped;
      Ok(Updated(t[i := rec'], i))
  }

  /** Python truthiness of an optional string: present and non-empty. */
  predicate Truthy(s: Option<string>) {
    s.Some? && |s.value| > 0
  }

  /** Worked time for a span between clock-in and clock-out: the hour of break is deducted only
      from a span longer than one hour. */
  function WorkedMicros(span: int): (w: int)
    ensures w <= span && span - BreakMicros <= w
    ensures span >= 0 ==> w >= 0
    ensures span > BreakMicros <==> w != span
    ensures span > BreakMicros ==> w + BreakMicros == span
  {
    if span > BreakMicros then span - BreakMicros else span
  }

  /** The overtime column after clock-out: worked time above eight hours, or the prior value. */
  function OvertimeAfter(worked: int, prior: int): (o: int)
    ensures worked > RegularMicros ==> o > 0 && o + RegularMicros == worked
    ensures worked <= RegularMicros ==> o == prior
  {
    if worked > RegularMicros then worked - RegularMicros else prior
  }

  /** The status after clock-out at time of day `t`. */
  function StatusAfterClockOut(s: Status, t: TimeOfDay): (s': Status)
    ensures t >= WorkEnd ==> s' == s
    ensures t < WorkEnd ==> (s' == HalfDay <==> s == Late) && (s' == EarlyLeave <==> s != Late)
  {
    if t < WorkEnd then (if s == Late then HalfDay else EarlyLeave) else s
  }

  /** `clock_out`: refuse when there is no row today or it is already clocked out; stamp the time,
      replace the notes only with non-empty ones, and when a clock-in exists compute worked time,
      overtime and the early-leave status. */
  function ClockOut(table: Table, userId: int, now: DateTime, notes: Option<string>): (r: Result<Updated, ClockError>)
    ensures var found := FindRecord(table, userId, now.date);
      && (found.None? <==> r.Err? && r.error == NoRecordToday)
      && (found.Some? && table[found.value].IsClockedOut() <==> r.Err? && r.error == AlreadyClockedOut)
      && (r.Ok? <==> found.Some? && !table[found.value].IsClockedOut())
    ensures r.Ok? ==>
      var before := table[FindRecord(table, userId, now.date).value];
      var t := r.value.table;
      var i := r.value.index;
      && |t| == |table|
      && i == FindRecord(table, userId, now.date).value
      && OthersUnchanged(table, t, i)
      && t[i].userId == before.userId && t[i].date == before.date
      && t[i].clockIn == before.clockIn
      && t[i].clockOut == Some(now)
      && t[i].notes == (if Truthy(notes) then notes else before.notes)
      && (before.clockIn.None? ==> t[i] == before.(clockOut := Some(now), notes := t[i].notes))
      && (before.clockIn.Some? ==>
            var span := DurationMicros(before.clockIn.value, now);
            && t[i].totalWork == WorkedMicros(span)
            && t[i].overtime == OvertimeAfter(t[i].totalWork, before.overtime)
            && t[i].status == StatusAfterClockOut(before.status, now.time))
  {
    var found := FindRecord(table, userId, now.date);
    if found.None? then Err(NoRecordToday)
    else
      var rec := table[found.value];
      if rec.IsClockedOut() then Err(AlreadyClockedOut)
      else
        var stamped := rec.(clockOut := Some(now), notes := if Truthy(notes) then notes else rec.notes);
        var rec' := match rec.clockIn
          case None => stamped
          case Some(start) =>
            var worked := WorkedMicros(DurationMicros(start, now));
            stamped.(totalWork := worked,
                     overtime := OvertimeAfter(worked, rec.overtime),
                     status := StatusAfterClockOut(rec.status, now.time));
        Ok(Updated(table[found.value := rec'], found.value))
  }

  /** Clock-in keeps at most one row per user and date. */
  lemma ClockInPreservesUnique(table: Table, userId: int, now: DateTime, notes: Option<string>)
    requires UniquePerDay(table)
    requires ClockIn(table, userId, now, notes).Ok?
    ensures UniquePerDay(ClockIn(table, userId, now, notes).value.table)
  {
    var u := ClockIn(table, userId, now, notes).value;
    var t, i := u.table, u.index;
    forall a, b | 0 <= a < b < |t|
      ensures !(t[a].userId == t[b].userId && t[a].date == t[b].date)
    {
      if a != i && b != i {
        assert t[a] == table[a] && t[b] == table[b];
      } else if a == i {
        assert t[b] == table[b];
        assert table[i].userId == t[i].userId && table[i].date == t[i].date;
      } else {
        assert t[a] == table[a];
        if i < |table| {
          assert table[i].userId == t[i].userId && table[i].date == t[i].date;
        }
      }
    }
  }

  /** Clock-out keeps at most one row per user and date. */
  lemma ClockOutPreservesUnique(table: Table, userId: int, now: DateTime, notes: Option<string>)
    requires UniquePerDay(table)
    requires ClockOut(table, userId, now, notes).Ok?
    ensures UniquePerDay(ClockOut(table, userId, now, notes).value.table)
  {
    var u := ClockOut(table, userId, now, notes).value;
    var t, i := u.table, u.index;
    forall a, b | 0 <= a < b < |t|
      ensures !(t[a].userId == t[b].userId && t[a].date == t[b].date)
    {
      assert t[a].userId == table[a].userId && t[a].date == table[a].date;
      assert t[b].userId == table[b].userId && t[b].date == table[b].date;
    }
  }

  /** After a successful clock-in, today's row is the one written and it is working. */
  lemma ClockInThenFind(table: Table, userId: int, now: DateTime, notes: Option<string>)
    requires ClockIn(table, userId, now, notes).Ok?
    ensures var u := ClockIn(table, userId, now, notes).value;
      && FindRecord(u.table, userId, now.date) == Some(u.index)
      && u.table[u.index].IsClockedIn()
      && u.table[u.index].IsWorking() == !FindRecordOrNew(table, userId, now.date).IsClockedOut()
  {
    var u := ClockIn(table, userId, now, notes).value;
    var f := FindRecord(u.table, userId, now.date);
  }

  /** Today's row, or the fresh row clock-in would create. */
  function FindRecordOrNew(table: Table, userId: int, day: CivilDate): (r: Record)
    ensures IsDay(r, userId, day)
  {
    match FindRecord(table, userId, day)
    case Some(i) => table[i]
    case None => NewRecord(userId, day)
  }

  /** A second clock-in on the same day fails and leaves the table as it was. */
  lemma SecondClockInFails(table: Table, userId: int, now: DateTime, later: DateTime, notes: Option<string>, notes': Option<string>)
    requires ClockIn(table, userId, now, notes).Ok?
    requires later.date == now.date
    ensures ClockIn(ClockIn(table, userId, now, notes).value.table, userId, later, notes') == Err(AlreadyClockedIn)
  {
    ClockInThenFind(table, userId, now, notes);
  }

  /** A second clock-out on the same day fails with "already clocked out". */
  lemma SecondClockOutFails(table: Table, userId: int, now: DateTime, later: DateTime, notes: Option<string>, notes': Option<string>)
    requires ClockOut(table, userId, now, notes).Ok?
    requires later.date == now.date
    ensures ClockOut(ClockOut(table, userId, now, notes).value.table, userId, later, notes') == Err(AlreadyClockedOut)
  {
    var u := ClockOut(table, userId, now, notes).value;
    var f := FindRecord(u.table, userId, now.date);
    assert IsDay(u.table[u.index], userId, now.date);
  }

  /** Clocking in and then out later the same day records a non-negative worked time, never more
      than the span, and the row is no longer working. */
  lemma ClockInThenOut(table: Table, userId: int, start: DateTime, stop: DateTime, notes: Option<string>, notes': Option<string>)
    requires ClockIn(table, userId, start, notes).Ok?
    requires stop.date == start.date && start.time <= stop.time
    ensures var t := ClockIn(table, userId, start, notes).value.table;
      && ClockOut(t, userId, stop, notes').Ok? <==> !FindRecordOrNew(table, userId, start.date).IsClockedOut()
    ensures var t := ClockIn(table, userId, start, notes).value.table;
      ClockOut(t, userId, stop, notes').Ok? ==>
        var u := ClockOut(t, userId, stop, notes').value;
        && 0 <= u.table[u.index].totalWork <= stop.time - start.time
        && u.table[u.index].IsClockedOut() && !u.table[u.index].IsWorking()
  {
    ClockInThenFind(table, userId, start, notes);
    DurationSign(start, stop);
  }

  /** Worked time is not monotone in the span: 60 minutes count fully, 61 minutes count as one. */
  lemma WorkedNotMonotone()
    ensures WorkedMicros(60 * MinuteMicros) == 60 * MinuteMicros
    ensures WorkedMicros(61 * MinuteMicros) == MinuteMicros
    ensures WorkedMicros(61 * MinuteMicros) < WorkedMicros(60 * MinuteMicros)
  {
  }

  // ---------------------------------------------------------------- range queries and summary

  predicate InRange(r: Record, userId: int, start: Date, end: Date) {
    r.userId == userId && DateLe(start, r.date) && DateLe(r.date, end)
  }

  /** Newest date first. */
  predicate SortedByDateDesc(rs: seq<Record>) {
    forall i, j :: 0 <= i < j < |rs| ==> DateLe(rs[j].date, rs[i].date)
  }

  function InsertByDate(x: Record, rs: seq<Record>): (r: seq<Record>)
    requires SortedByDateDesc(rs)
    ensures SortedByDateDesc(r)
    ensures multiset(r) == multiset(rs) + multiset{x}
  {
    if |rs| == 0 then [x]
    else if DateLe(rs[0].date, x.date) then [x] + rs
    else
      var rest := InsertByDate(x, rs[1..]);
      InsertBehindHead(x, rs, rest);
      [rs[0]] + rest
  }

  /** When the new row is older than the head, the head stays first in front of the rest with the
      row inserted. */
  lemma InsertBehindHead(x: Record, rs: seq<Record>, rest: seq<Record>)
    requires |rs| > 0 && SortedByDateDesc(rs) && !DateLe(rs[0].date, x.date)
    requires SortedByDateDesc(rest) && multiset(rest) == multiset(rs[1..]) + multiset{x}
    ensures SortedByDateDesc([rs[0]] + rest)
    ensures multiset([rs[0]] + rest) == multiset(rs) + multiset{x}
  {
    assert rs == [rs[0]] + rs[1..];
    DateLeTotal(rs[0].date, x.date);
    forall k | 0 <= k < |rest|
      ensures DateLe(rest[k].date, rs[0].date)
    {
      assert rest[k] in multiset(rest);
      if rest[k] != x {
        assert rest[k] in multiset(rs[1..]);
        var j :| 0 <= j < |rs[1..]| && rs[1..][j] == rest[k];
        assert rs[j + 1] == rest[k];
      }
    }
    var r := [rs[0]] + rest;
    forall i, j | 0 <= i < j < |r|
      ensures DateLe(r[j].date, r[i].date)
    {
      assert r[j] == rest[j - 1];
      if i > 0 {
        assert r[i] == rest[i - 1];
      }
    }
  }

  function SortByDateDesc(rs: seq<Record>): (r: seq<Record>)
    ensures SortedByDateDesc(r)
    ensures multiset(r) == multiset(rs)
  {
    if |rs| == 0 then []
    else
      assert rs == [rs[0]] + rs[1..];
      InsertByDate(rs[0], SortByDateDesc(rs[1..]))
  }

  /** `get_user_records`: the user's rows dated from `start` to `end` inclusive, newest first. */
  function UserRecords(table: Table, userId: int, start: Date, end: Date): (rs: seq<Record>)
    ensures SortedByDateDesc(rs)
    ensures multiset(rs) == multiset(Filter(table, (r: Record) => InRange(r, userId, start, end)))
  {
    SortByDateDesc(Filter(table, (r: Record) => InRange(r, userId, start, end)))
  }

  /** A row is returned iff it belongs to the user and its date lies in the inclusive range. */
  lemma UserRecordsExact(table: Table, userId: int, start: Date, end: Date, x: Record)
    ensures x in UserRecords(table, userId, start, end) <==> x in table && InRange(x, userId, start, end)
  {
    var p := (r: Record) => InRange(r, userId, start, end);
    FilterMembership(table, p, x);
    var rs := UserRecords(table, userId, start, end);
    assert x in rs <==> x in multiset(rs);
  }

  datatype Summary = Summary(
    year: int,
    month: int,
    workDays: nat,
    totalWork: int,       // microseconds
    totalOvertime: int,   // microseconds
    averageDaily: int,    // microseconds
    records: seq<Record>)

  datatype SummaryError = YearOutOfRange | MonthOutOfRange

  function TotalWork(rs: seq<Record>): int {
    if |rs| == 0 then 0 else rs[0].totalWork + TotalWork(rs[1..])
  }

  function TotalOvertime(rs: seq<Record>): int {
    if |rs| == 0 then 0 else rs[0].overtime + TotalOvertime(rs[1..])
  }

  /** The totals add up over a concatenation. */
  lemma {:induction false} TotalsAdditive(a: seq<Record>, b: seq<Record>)
    ensures TotalWork(a + b) == TotalWork(a) + TotalWork(b)
    ensures TotalOvertime(a + b) == TotalOvertime(a) + TotalOvertime(b)
    decreases |a|
  {
    if |a| > 0 {
      assert (a + b)[1..] == a[1..] + b;
      TotalsAdditive(a[1..], b);
    } else {
      assert a + b == b;
    }
  }

  /** The totals do not depend on the order of the rows, so the summary's newest-first list sums
      to what the rows in storage order sum to. */
  lemma {:induction false} TotalsIgnoreOrder(a: seq<Record>, b: seq<Record>)
    requires multiset(a) == multiset(b)
    ensures TotalWork(a) == TotalWork(b) && TotalOvertime(a) == TotalOvertime(b)
    decreases |a|
  {
    if |a| == 0 {
      assert |multiset(b)| == 0;
    } else {
      var x := a[0];
      assert x in multiset(b);
      var k :| 0 <= k < |b| && b[k] == x;
      var before, after := b[..k], b[k + 1..];
      assert b == before + ([x] + after);
      TotalsAdditive(before, [x] + after);
      assert ([x] + after)[1..] == after;
      TotalsAdditive(before, after);
      RemoveMatchingHead(a, b, k);
      TotalsIgnoreOrder(a[1..], before + after);
    }
  }

  /** The per-day average: floor division of the total by the number of work days, 0 with none. */
  function AverageDaily(total: int, days: nat): (a: int)
    ensures days == 0 ==> a == 0
    ensures days > 0 ==> a * days <= total < (a + 1) * days
  {
    if days > 0 then
      var q := total / days;
      assert total == days * q + total % days;
      q
    else 0
  }

  /** A row of the user dated in the given year and month. */
  predicate InMonth(x: Record, userId: int, year: int, month: int) {
    x.userId == userId && x.date.year == year && x.date.month == month
  }

  /** The range from the 1st to the last day of a month holds exactly the valid dates of that
      month, so the month's rows keep their multiplicity in the table. */
  lemma MonthRecordsMultiplicity(table: Table, userId: int, year: int, month: int)
    requires 1 <= month <= 12
    ensures var rs := UserRecords(table, userId, Date(year, month, 1), Date(year, month, DaysInMonth(year, month)));
      forall x :: multiset(rs)[x] == if InMonth(x, userId, year, month) then multiset(table)[x] else 0
  {
    var start, end := Date(year, month, 1), Date(year, month, DaysInMonth(year, month));
    var p := (r: Record) => InRange(r, userId, start, end);
    FilterMultiplicity(table, p);
    forall x: Record ensures p(x) <==> InMonth(x, userId, year, month) {
      assert ValidDate(x.date);
    }
  }

  /** `get_monthly_summary`: the records from the 1st to the last day of the month, the number of
      clocked-in days, the totals, and the average per work day (0 with no work days). An invalid
      year or month raises in `date(year, month, 1)`. */
  function MonthlySummary(table: Table, userId: int, year: int, month: int): (r: Result<Summary, SummaryError>)
    ensures r.Err? <==> !(1 <= year <= 9999 && 1 <= month <= 12)
    ensures r.Err? ==> (r.error == YearOutOfRange <==> !(1 <= year <= 9999))
    ensures r.Ok? ==>
      var s := r.value;
      && s.year == year && s.month == month
      && SortedByDateDesc(s.records)
      && s.workDays == Count(s.records, (x: Record) => x.IsClockedIn())
      && s.workDays <= |s.records|
      && s.totalWork == TotalWork(s.records)
      && s.totalOvertime == TotalOvertime(s.records)
      && s.averageDaily == AverageDaily(s.totalWork, s.workDays)
    ensures r.Ok? ==> forall x :: multiset(r.value.records)[x] == if InMonth(x, userId, year, month) then multiset(table)[x] else 0
  {
    if !(1 <= year <= 9999) then Err(YearOutOfRange)
    else if !(1 <= month <= 12) then Err(MonthOutOfRange)
    else
      var rs := UserRecords(table, userId, Date(year, month, 1), Date(year, month, DaysInMonth(year, month)));
      MonthRecordsMultiplicity(table, userId, year, month);
      var days := Count(rs, (x: Record) => x.IsClockedIn());
      var total := TotalWork(rs);
      Ok(Summary(year, month, days, total, TotalOvertime(rs), AverageDaily(total, days), rs))
  }

  /** The summary lists exactly the user's rows dated in that year and month, each as many times
      as the table holds it. */
  lemma MonthlySummaryRecords(table: Table, userId: int, year: int, month: int, x: Record)
    requires MonthlySummary(table, userId, year, month).Ok?
    ensures x in MonthlySummary(table, userId, year, month).value.records <==>
      x in table && x.userId == userId && x.date.year == year && x.date.month == month
    ensures multiset(MonthlySummary(table, userId, year, month).value.records)[x] ==
      if x.userId == userId && x.date.year == year && x.date.month == month then multiset(table)[x] else 0
  {
    var last := DaysInMonth(year, month);
    UserRecordsExact(table, userId, Date(year, month, 1), Date(year, month, last), x);
    assert InMonth(x, userId, year, month) <==> x.userId == userId && x.date.year == year && x.date.month == month;
  }
}
