/** The client-side clock panels: the attendance page's local toggle with its break selector, the
    home page's toggle and running work time, and the dashboard's buttons and status panel, which
    follow today's record from the backend. Times are epoch milliseconds. */
module ClockPanels {
  import opened Wrappers
  import opened Text
  import opened JsNumber
  import opened AttendanceModel
  import opened AttendanceDisplay

  // ---------------------------------------------------------------- attendance page

  datatype PageState = PageState(isWorking: bool, start: Option<int>, end: Option<int>, breakMinutes: int)

  /** Initial state: not working, no times, a 60-minute break selected. */
  const InitialPage := PageState(false, None, None, 60)

  /** `handleClockIn`: working from now, any previous end time cleared. */
  function PageClockIn(s: PageState, now: int): (s': PageState)
    ensures s'.isWorking && s'.start == Some(now) && s'.end.None? && s'.breakMinutes == s.breakMinutes
  {
    s.(isWorking := true, start := Some(now), end := None)
  }

  /** `handleClockOut`: not working, ended now, start kept. */
  function PageClockOut(s: PageState, now: int): (s': PageState)
    ensures !s'.isWorking && s'.end == Some(now) && s'.start == s.start && s'.breakMinutes == s.breakMinutes
  {
    s.(isWorking := false, end := Some(now))
  }

  predicate ClockInButtonEnabled(s: PageState) { !s.isWorking }
  predicate ClockOutButtonEnabled(s: PageState) { s.isWorking }
  /** The break selector is disabled until the first clock-in. */
  predicate BreakSelectEnabled(s: PageState) { s.isWorking || s.end.Some? }

  datatype PageEvent = ClickClockIn(at: int) | ClickClockOut(at: int) | SelectBreak(minutes: int)

  /** A click on a disabled control does nothing. */
  function PageStep(s: PageState, e: PageEvent): PageState {
    match e
    case ClickClockIn(t) => if ClockInButtonEnabled(s) then PageClockIn(s, t) else s
    case ClickClockOut(t) => if ClockOutButtonEnabled(s) then PageClockOut(s, t) else s
    case SelectBreak(m) => if BreakSelectEnabled(s) then s.(breakMinutes := m) else s
  }

  function PageRun(s: PageState, es: seq<PageEvent>): PageState
    decreases |es|
  {
    if |es| == 0 then s else PageRun(PageStep(s, es[0]), es[1..])
  }

  /** What holds in every state the page can reach: working means started and not ended, an end
      time means a start time, and before the first clock-in nothing is set. */
  predicate PageInvariant(s: PageState) {
    && (s.isWorking ==> s.start.Some? && s.end.None?)
    && (s.end.Some? ==> s.start.Some? && !s.isWorking)
    && (!BreakSelectEnabled(s) ==> s.start.None? && s.breakMinutes == 60)
  }

  lemma {:induction false} PageRunInvariant(s: PageState, es: seq<PageEvent>)
    requires PageInvariant(s)
    ensures PageInvariant(PageRun(s, es))
    decreases |es|
  {
    if |es| > 0 {
      PageRunInvariant(PageStep(s, es[0]), es[1..]);
    }
  }

  /** In every reachable state exactly one of the two buttons is enabled, and the duration is shown
      exactly after a clock-out. */
  lemma PageReachable(es: seq<PageEvent>)
    ensures var s := PageRun(InitialPage, es);
      && ClockInButtonEnabled(s) != ClockOutButtonEnabled(s)
      && (WorkDuration(s.start, s.end, s.breakMinutes) != Placeholder <==> s.end.Some?)
  {
    PageRunInvariant(InitialPage, es);
  }

  // ---------------------------------------------------------------- home page

  datatype HomeState = HomeState(currentTime: int, isWorking: bool, start: Option<int>)

  function HomeClockIn(s: HomeState, now: int): (s': HomeState)
    ensures s'.isWorking && s'.start == Some(now) && s'.currentTime == s.currentTime
  {
    s.(start := Some(now), isWorking := true)
  }

  /** Clock-out stops work but keeps the start time. */
  function HomeClockOut(s: HomeState): (s': HomeState)
    ensures !s'.isWorking && s'.start == s.start && s'.currentTime == s.currentTime
  {
    s.(isWorking := false)
  }

  predicate HomeClockInEnabled(s: HomeState) { !s.isWorking }
  predicate HomeClockOutEnabled(s: HomeState) { s.isWorking }

  lemma HomeButtonsExclusive(s: HomeState)
    ensures HomeClockInEnabled(s) != HomeClockOutEnabled(s)
    ensures HomeClockOutEnabled(HomeClockIn(s, s.currentTime)) && HomeClockInEnabled(HomeClockOut(s))
  {
  }

  /** `${h}時間${m}分` with `h = Math.floor(d / 3600000)` and `m = Math.floor((d % 3600000) / 60000)`.
      A non-negative duration shows its whole minutes split into hours and the minutes below 60; a
      duration less than a minute below zero, as right after a clock-in stamped later than the last
      clock tick, shows minus one of each. */
  function HourMinuteLabel(d: int): (shown: string)
    ensures d >= 0 ==> shown == NatToString(d / MinuteMs / 60) + "時間" + NatToString(d / MinuteMs % 60) + "分"
    ensures -MinuteMs < d < 0 ==> shown == "-1時間-1分"
  {
    var h := FloorDiv(d, HourMs);
    var m := FloorDiv(JsRem(d, HourMs), MinuteMs);
    LabelParts(d);
    IntToString(h) + "時間" + IntToString(m) + "分"
  }

  /** The two numbers the label prints, for a non-negative duration and for one just below zero. */
  lemma LabelParts(d: int)
    ensures d >= 0 ==>
      && FloorDiv(d, HourMs) == d / MinuteMs / 60
      && FloorDiv(JsRem(d, HourMs), MinuteMs) == d / MinuteMs % 60
      && IntToString(FloorDiv(d, HourMs)) == NatToString(d / MinuteMs / 60)
      && IntToString(FloorDiv(JsRem(d, HourMs), MinuteMs)) == NatToString(d / MinuteMs % 60)
    ensures -MinuteMs < d < 0 ==>
      IntToString(FloorDiv(d, HourMs)) == "-1" && IntToString(FloorDiv(JsRem(d, HourMs), MinuteMs)) == "-1"
  {
    if d >= 0 {
      JsHourMinute(d);
    } else if -MinuteMs < d {
      assert FloorDiv(d, HourMs) == -1;
      assert JsRem(d, HourMs) == d;
      assert FloorDiv(d, MinuteMs) == -1;
      assert NatToString(1) == "1";
    }
  }

  /** `calculateWorkTime`: `0時間0分` unless working with a start time; otherwise the elapsed whole
      minutes as hours and minutes, or `-1時間-1分` while the clock still shows a time before the
      start. */
  function CalculateWorkTime(s: HomeState): (shown: string)
    ensures !s.isWorking || s.start.None? ==> shown == "0時間0分"
    ensures s.isWorking && s.start.Some? && s.start.value <= s.currentTime ==>
      var minutes := (s.currentTime - s.start.value) / MinuteMs;
      shown == NatToString(minutes / 60) + "時間" + NatToString(minutes % 60) + "分"
    ensures s.isWorking && s.start.Some? && s.currentTime < s.start.value < s.currentTime + MinuteMs ==>
      shown == "-1時間-1分"
  {
    if !s.isWorking || s.start.None? then "0時間0分"
    else HourMinuteLabel(s.currentTime - s.start.value)
  }

  /** Right after a clock-in stamped later than the displayed clock, the running time reads
      `-1時間-1分` until the next tick, not `0時間0分`. */
  lemma ClockInBeforeTick(s: HomeState, now: int)
    requires s.currentTime < now < s.currentTime + MinuteMs
    ensures CalculateWorkTime(HomeClockIn(s, now)) == "-1時間-1分"
    ensures CalculateWorkTime(HomeClockIn(s, s.currentTime)) == "0時間0分"
  {
    var late, onTick := HomeClockIn(s, now), HomeClockIn(s, s.currentTime);
    assert late.currentTime < late.start.value < late.currentTime + MinuteMs;
    assert onTick.start.value == onTick.currentTime;
    assert (onTick.currentTime - onTick.start.value) / MinuteMs == 0;
    assert NatToString(0) == "0";
  }

  /** For a non-negative duration the label shows the whole hours and the minutes below 60, which
      together count the whole minutes elapsed. */
  lemma HourMinuteLabelShape(d: int)
    requires d >= 0
    ensures var h, m := d / HourMs, (d % HourMs) / MinuteMs;
      && HourMinuteLabel(d) == NatToString(h) + "時間" + NatToString(m) + "分"
      && 0 <= m < 60
      && h * 60 + m == d / MinuteMs
  {
    var h, m := d / HourMs, (d % HourMs) / MinuteMs;
    HourMinuteSplit(d);
    DivUnique(d / MinuteMs, 60, h, m);
  }

  /** Two non-negative durations get the same label iff they have the same whole minutes. */
  lemma HourMinuteLabelInjective(d1: int, d2: int)
    requires d1 >= 0 && d2 >= 0
    ensures HourMinuteLabel(d1) == HourMinuteLabel(d2) <==> d1 / MinuteMs == d2 / MinuteMs
  {
    HourMinuteLabelShape(d1);
    HourMinuteLabelShape(d2);
    if HourMinuteLabel(d1) == HourMinuteLabel(d2) {
      HourMinuteTextInjective(d1 / HourMs, (d1 % HourMs) / MinuteMs, d2 / HourMs, (d2 % HourMs) / MinuteMs);
    } else if d1 / MinuteMs == d2 / MinuteMs {
      MinutesDetermineParts(d1, d2);
    }
  }

  lemma HourMinuteTextInjective(h1: nat, m1: nat, h2: nat, m2: nat)
    requires NatToString(h1) + "時間" + NatToString(m1) + "分" == NatToString(h2) + "時間" + NatToString(m2) + "分"
    ensures h1 == h2 && m1 == m2
  {
    var a1, a2 := NatToString(h1), NatToString(h2);
    assert a1 == a2 && NatToString(m1) == NatToString(m2) by {
      NatToStringDigits(h1);
      NatToStringDigits(h2);
      DigitsFree(a1, '時');
      DigitsFree(a2, '時');
      assert "時間" == ['時', '間'] && "分" == ['分'];
      MarkedPairInjective(a1, NatToString(m1), a2, NatToString(m2), '時', '間', '分');
    }
    NatToStringInjective(h1, h2);
    NatToStringInjective(m1, m2);
  }

  lemma MinutesDetermineParts(d1: int, d2: int)
    requires d1 >= 0 && d2 >= 0 && d1 / MinuteMs == d2 / MinuteMs
    ensures d1 / HourMs == d2 / HourMs && (d1 % HourMs) / MinuteMs == (d2 % HourMs) / MinuteMs
  {
    HourMinuteSplit(d1);
    HourMinuteSplit(d2);
    var k := d1 / MinuteMs;
    var h1, m1 := d1 / HourMs, (d1 % HourMs) / MinuteMs;
    var h2, m2 := d2 / HourMs, (d2 % HourMs) / MinuteMs;
    DivUnique(k, 60, h1, m1);
    DivUnique(k, 60, h2, m2);
  }

  // ---------------------------------------------------------------- dashboard

  /** `Boolean(todayAttendance && !todayAttendance.clock_out)`. */
  predicate DashboardWorking(today: Option<Record>) {
    today.Some? && today.value.clockOut.None?
  }

  /** Clock-in needs no record today, not working and no request in flight. */
  predicate DashboardClockInEnabled(today: Option<Record>, submitting: bool) {
    !(DashboardWorking(today) || submitting || today.Some?)
  }

  predicate DashboardClockOutEnabled(today: Option<Record>, submitting: bool) {
    !(!DashboardWorking(today) || submitting)
  }

  /** The two buttons are never enabled together, and once today has a record clock-in stays off. */
  lemma DashboardButtonsExclusive(today: Option<Record>, submitting: bool)
    ensures !(DashboardClockInEnabled(today, submitting) && DashboardClockOutEnabled(today, submitting))
    ensures today.Some? ==> !DashboardClockInEnabled(today, submitting)
    ensures submitting ==> !DashboardClockInEnabled(today, submitting) && !DashboardClockOutEnabled(today, submitting)
  {
  }

  datatype Panel = Spinner | WorkingPanel | ClockedOutPanel | OffDutyPanel

  /** The status panel, chosen in order: loading, working, a record exists, nothing. */
  function DashboardPanel(loading: bool, today: Option<Record>): (p: Panel)
    ensures p == Spinner <==> loading
    ensures p == WorkingPanel <==> !loading && DashboardWorking(today)
    ensures p == ClockedOutPanel <==> !loading && today.Some? && today.value.clockOut.Some?
    ensures p == OffDutyPanel <==> !loading && today.None?
  {
    if loading then Spinner
    else if DashboardWorking(today) then WorkingPanel
    else if today.Some? then ClockedOutPanel
    else OffDutyPanel
  }

  function PanelTitle(p: Panel): string {
    match p
    case Spinner => ""
    case WorkingPanel => "勤務中"
    case ClockedOutPanel => "本日は退勤済み"
    case OffDutyPanel => "勤務外"
  }

  /** Each panel has its own title, and only the spinner has none. */
  lemma PanelTitlesDistinct(p: Panel, q: Panel)
    ensures PanelTitle(p) == "" <==> p == Spinner
    ensures PanelTitle(p) == PanelTitle(q) ==> p == q
  {
  }

  /** The dashboard's notion of working agrees with the record's `is_working` whenever the record
      has a clock-in, which every record written by clock-in has. */
  lemma DashboardAgreesWithRecord(r: Record)
    ensures r.IsClockedIn() ==> (DashboardWorking(Some(r)) <==> r.IsWorking())
    ensures !r.IsClockedIn() && !r.IsClockedOut() ==> DashboardWorking(Some(r)) && !r.IsWorking()
  {
  }
}
