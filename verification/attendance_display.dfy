/** Display arithmetic of the attendance pages: the worked-duration label `h:mm`, the break-time
    labels, the break options, the year and month selectors and the status badge. Times are epoch
    milliseconds, as `Date.getTime()` returns them. */
module AttendanceDisplay {
  import opened Wrappers
  import opened Text
  import opened JsNumber
  import opened AttendanceModel

  const MinuteMs := 60 * 1000
  const HourMs := 60 * MinuteMs

  /** Shown while a duration cannot be computed. */
  const Placeholder := "--:--"

  /** The whole minutes a span shows: none for a span that is not positive. */
  function WholeMinutes(ms: int): nat {
    if ms <= 0 then 0 else ms / MinuteMs
  }

  /** `${h}:${m.toString().padStart(2, '0')}` for a positive number of milliseconds, `0:00`
      otherwise: JavaScript's floored hours and truncated remainder give the `h:mm` form of the
      span's whole minutes, which never looks like the placeholder. */
  function DurationLabel(ms: int): (s: string)
    ensures s == MinutesLabel(WholeMinutes(ms))
    ensures ms <= 0 ==> s == "0:00"
    ensures s != Placeholder
  {
    if ms <= 0 then
      assert MinutesLabel(0) == "0:00";
      "0:00"
    else
      var h := FloorDiv(ms, HourMs);
      var m := FloorDiv(JsRem(ms, HourMs), MinuteMs);
      JsHourMinute(ms);
      NatToStringDigits(h);
      assert IsDigit((NatToString(h) + ":" + PadTwo(m))[0]);
      NatToString(h) + ":" + PadTwo(m)
  }

  /** For a non-negative span, the floored hours and the minutes of the truncated remainder are
      the hours and the minutes below 60 of its whole minutes. */
  lemma JsHourMinute(ms: int)
    requires ms >= 0
    ensures FloorDiv(ms, HourMs) == ms / MinuteMs / 60
    ensures FloorDiv(JsRem(ms, HourMs), MinuteMs) == ms / MinuteMs % 60
  {
    HourMinuteSplit(ms);
    DivUnique(ms / MinuteMs, 60, ms / HourMs, (ms % HourMs) / MinuteMs);
  }

  /** The `h:mm` form of a number of whole minutes: the hours without leading zeros, a colon, and
      the minutes below 60 on two digits. */
  function MinutesLabel(n: nat): string {
    NatToString(n / 60) + ":" + PadTwo(n % 60)
  }

  /** Reads an `h:mm` label back as a number of minutes; only the form `MinutesLabel` writes is
      read. */
  function ParseDurationLabel(s: string): Option<int> {
    ParseDurationParts(Split(s, ':'))
  }

  /** The hours piece, without leading zeros, and the two-digit minutes piece below 60, as a number
      of minutes. */
  function ParseDurationParts(parts: seq<string>): Option<int> {
    if && |parts| == 2 && |parts[0]| > 0 && |parts[1]| == 2 && AllDigits(parts[0]) && AllDigits(parts[1])
       && parts[0] == NatToString(ParseNat(parts[0])) && ParseNat(parts[1]) < 60
    then Some(ParseNat(parts[0]) * 60 + ParseNat(parts[1]))
    else None
  }

  /** The parser and the `h:mm` form are inverse: every count of minutes reads back, and whatever
      is read is exactly the form of what it reads as. */
  lemma MinutesLabelRoundTrip(n: nat)
    ensures ParseDurationLabel(MinutesLabel(n)) == Some(n)
  {
    ParseHourMinute(n / 60, n % 60);
  }

  lemma ParsedLabelIsCanonical(s: string, n: int)
    requires ParseDurationLabel(s) == Some(n)
    ensures n >= 0 && s == MinutesLabel(n)
  {
    var parts := Split(s, ':');
    var a, b := parts[0], parts[1];
    assert s == a + ":" + b by {
      SplitJoin(s, ':');
      assert parts == [a] + [b];
      JoinCons(a, [b], ':');
    }
    DivUnique(n, 60, ParseNat(a), ParseNat(b));
    TwoDigitsPadded(b);
  }

  /** Two digits are the padded rendering of their value. */
  lemma TwoDigitsPadded(b: string)
    requires |b| == 2 && AllDigits(b)
    ensures b == PadTwo(ParseNat(b))
  {
    var d0, d1 := DigitValue(b[0]), DigitValue(b[1]);
    assert b[..1][..0] == [];
    assert ParseNat(b[..1]) == d0;
    var n := ParseNat(b);
    assert n == 10 * d0 + d1;
    if d0 == 0 {
      assert PadTwo(n) == "0" + [DigitChar(d1)];
    } else {
      assert n / 10 == d0 && n % 10 == d1;
      assert NatToString(n) == NatToString(d0) + [DigitChar(d1)];
    }
  }

  /** The label reads back as the whole minutes of a positive duration, and zero otherwise. */
  lemma DurationLabelRoundTrip(ms: int)
    ensures ParseDurationLabel(DurationLabel(ms)) == Some(WholeMinutes(ms))
  {
    MinutesLabelRoundTrip(WholeMinutes(ms));
  }

  /** Hours and the minutes of the remainder together count the whole minutes. */
  lemma HourMinuteSplit(ms: int)
    requires ms >= 0
    ensures (ms % HourMs) / MinuteMs < 60
    ensures (ms / HourMs) * 60 + (ms % HourMs) / MinuteMs == ms / MinuteMs
  {
    var h := ms / HourMs;
    var rest := ms % HourMs;
    var m := rest / MinuteMs;
    assert ms == HourMs * h + rest;
    assert rest == MinuteMs * m + rest % MinuteMs;
    assert ms == MinuteMs * (h * 60 + m) + rest % MinuteMs;
    DivUnique(ms, MinuteMs, h * 60 + m, rest % MinuteMs);
  }

  lemma ParseHourMinute(h: nat, m: nat)
    requires m < 60
    ensures ParseDurationLabel(NatToString(h) + ":" + PadTwo(m)) == Some(h * 60 + m)
  {
    RenderedParts(h, m);
    ParseLabelParts(NatToString(h), PadTwo(m));
  }

  /** The hours and the padded minutes are digit strings that read back as the numbers. */
  lemma RenderedParts(h: nat, m: nat)
    requires m < 60
    ensures |NatToString(h)| > 0 && AllDigits(NatToString(h)) && ParseNat(NatToString(h)) == h
    ensures |PadTwo(m)| == 2 && AllDigits(PadTwo(m)) && ParseNat(PadTwo(m)) == m
  {
    NatToStringDigits(h);
    ParseNatToString(h);
    PadTwoShape(m);
  }

  /** A label made of a non-empty digit string, a colon and two digits reads back as hours and
      minutes. */
  lemma ParseLabelParts(a: string, b: string)
    requires |a| > 0 && AllDigits(a) && |b| == 2 && AllDigits(b)
    requires a == NatToString(ParseNat(a)) && ParseNat(b) < 60
    ensures ParseDurationLabel(a + ":" + b) == Some(ParseNat(a) * 60 + ParseNat(b))
  {
    SplitAtColon(a, b);
    PartsValue(a, b);
  }

  lemma SplitAtColon(a: string, b: string)
    requires AllDigits(a) && AllDigits(b)
    ensures Split(a + ":" + b, ':') == [a, b]
  {
    DigitsFree(a, ':');
    DigitsFree(b, ':');
    SplitTwo(a, b, ':');
  }

  lemma PartsValue(a: string, b: string)
    requires |a| > 0 && AllDigits(a) && |b| == 2 && AllDigits(b)
    requires a == NatToString(ParseNat(a)) && ParseNat(b) < 60
    ensures ParseDurationParts([a, b]) == Some(ParseNat(a) * 60 + ParseNat(b))
  {
  }

  /** `getWorkDuration` of the attendance page: needs both a start and an end time; the selected
      break is deducted from the span. */
  function WorkDuration(start: Option<int>, end: Option<int>, breakMinutes: int): (s: string)
    ensures s == Placeholder <==> start.None? || end.None?
    ensures start.Some? && end.Some? ==>
      s == MinutesLabel(WholeMinutes(end.value - start.value - breakMinutes * MinuteMs))
  {
    if start.None? || end.None? then Placeholder
    else DurationLabel(end.value - start.value - breakMinutes * MinuteMs)
  }

  /** `getWorkDuration` of the history page: needs only a clock-out; a missing clock-in is read as
      `new Date(null)`, the epoch. */
  function HistoryWorkDuration(clockIn: Option<int>, clockOut: Option<int>, breakMinutes: int): (s: string)
    ensures s == Placeholder <==> clockOut.None?
    ensures clockOut.Some? ==>
      s == MinutesLabel(WholeMinutes(clockOut.value - clockIn.GetOr(0) - breakMinutes * MinuteMs))
  {
    if clockOut.None? then Placeholder
    else DurationLabel(clockOut.value - clockIn.GetOr(0) - breakMinutes * MinuteMs)
  }

  /** What the attendance page shows for a finished day reads back as the net span's whole
      minutes. */
  lemma WorkDurationReadsBack(start: int, end: int, breakMinutes: int)
    ensures ParseDurationLabel(WorkDuration(Some(start), Some(end), breakMinutes))
      == Some(WholeMinutes(end - start - breakMinutes * MinuteMs))
  {
    var k := WholeMinutes(end - start - breakMinutes * MinuteMs);
    assert WorkDuration(Some(start), Some(end), breakMinutes) == MinutesLabel(k);
    MinutesLabelRoundTrip(k);
  }

  /** What the history page shows for a clocked-out day reads back as the net span's whole
      minutes, the clock-in defaulting to the epoch. */
  lemma HistoryWorkDurationReadsBack(clockIn: Option<int>, clockOut: int, breakMinutes: int)
    ensures ParseDurationLabel(HistoryWorkDuration(clockIn, Some(clockOut), breakMinutes))
      == Some(WholeMinutes(clockOut - clockIn.GetOr(0) - breakMinutes * MinuteMs))
  {
    var k := WholeMinutes(clockOut - clockIn.GetOr(0) - breakMinutes * MinuteMs);
    assert HistoryWorkDuration(clockIn, Some(clockOut), breakMinutes) == MinutesLabel(k);
    MinutesLabelRoundTrip(k);
  }

  /** With both times present the two pages show the same label. */
  lemma DurationPagesAgree(start: int, end: int, breakMinutes: int)
    ensures WorkDuration(Some(start), Some(end), breakMinutes) == HistoryWorkDuration(Some(start), Some(end), breakMinutes)
  {
    assert Some(start).GetOr(0) == start;
  }

  /** `formatBreakTime` of the history page: for a non-negative count, the label built from the
      whole hours and the remaining minutes. */
  function FormatBreakTime(minutes: int): (s: string)
    ensures minutes >= 0 ==> s == BreakLabelOf(minutes / 60, minutes % 60)
  {
    if minutes == 0 then "0分"
    else
      var hours := FloorDiv(minutes, 60);
      var mins := JsRem(minutes, 60);
      if hours > 0 then IntToString(hours) + "時間" + (if mins > 0 then IntToString(mins) + "分" else "")
      else IntToString(mins) + "分"
  }

  /** The break label in the summary of the attendance page: from an hour on, the label built from
      whole hours and remaining minutes; below an hour, the minutes after a zero hour; nothing
      positive, no break. */
  function BreakSummaryLabel(b: int): (s: string)
    ensures b >= 60 ==> s == BreakLabelOf(b / 60, b % 60)
    ensures 0 < b < 60 ==> s == "0時間" + NatToString(b) + "分"
    ensures b <= 0 ==> s == "0分"
  {
    if b > 0 then
      var rem := JsRem(b, 60);
      IntToString(FloorDiv(b, 60)) + "時間" + (if rem != 0 then IntToString(rem) + "分" else "")
    else "0分"
  }

  /** A break label built from whole hours and remaining minutes: minutes alone below an hour, and
      the minutes part dropped when it is zero. */
  function BreakLabelOf(h: nat, m: nat): string {
    if h == 0 then NatToString(m) + "分"
    else NatToString(h) + "時間" + (if m > 0 then NatToString(m) + "分" else "")
  }

  /** Distinct non-negative minute counts get distinct labels. */
  lemma FormatBreakTimeInjective(a: int, b: int)
    requires a >= 0 && b >= 0
    requires FormatBreakTime(a) == FormatBreakTime(b)
    ensures a == b
  {
    BreakLabelOfInjective(a / 60, a % 60, b / 60, b % 60);
  }

  lemma BreakLabelOfInjective(h1: nat, m1: nat, h2: nat, m2: nat)
    requires BreakLabelOf(h1, m1) == BreakLabelOf(h2, m2)
    ensures h1 == h2 && m1 == m2
  {
    if h1 == 0 && h2 == 0 {
      var l := BreakLabelOf(h1, m1);
      assert NatToString(m1) == l[..|l| - 1] == NatToString(m2);
      NatToStringInjective(m1, m2);
    } else if h1 == 0 {
      MinutesOnlyHasNoHour(m1, h2, m2);
    } else if h2 == 0 {
      MinutesOnlyHasNoHour(m2, h1, m1);
    } else {
      HoursLabelInjective(h1, m1, h2, m2);
    }
  }

  lemma MinutesOnlyHasNoHour(m: nat, h': nat, m': nat)
    requires h' > 0
    ensures BreakLabelOf(0, m) != BreakLabelOf(h', m')
  {
    NatToStringDigits(m);
    NatToStringDigits(h');
    var l := BreakLabelOf(0, m);
    var l' := BreakLabelOf(h', m');
    var k := |NatToString(h')|;
    assert l'[k] == '時';
    assert forall j :: 0 <= j < |l| ==> l[j] != '時' by {
      forall j | 0 <= j < |l| ensures l[j] != '時' {
        if j < |l| - 1 {
          assert l[j] == NatToString(m)[j];
        }
      }
    }
  }

  lemma HoursLabelInjective(h1: nat, m1: nat, h2: nat, m2: nat)
    requires h1 > 0 && h2 > 0
    requires BreakLabelOf(h1, m1) == BreakLabelOf(h2, m2)
    ensures h1 == h2 && m1 == m2
  {
    var t1 := "間" + (if m1 > 0 then NatToString(m1) + "分" else "");
    var t2 := "間" + (if m2 > 0 then NatToString(m2) + "分" else "");
    assert NatToString(h1) == NatToString(h2) && t1 == t2 && (m1 > 0 <==> m2 > 0) by {
      NatToStringDigits(h1);
      NatToStringDigits(h2);
      NatToStringDigits(m1);
      NatToStringDigits(m2);
      DigitsFree(NatToString(h1), '時');
      DigitsFree(NatToString(h2), '時');
      assert BreakLabelOf(h1, m1) == NatToString(h1) + ['時'] + t1;
      assert BreakLabelOf(h2, m2) == NatToString(h2) + ['時'] + t2;
      PrefixBeforeSeparator(NatToString(h1), NatToString(h2), '時', t1, t2);
    }
    NatToStringInjective(h1, h2);
    if m1 > 0 && m2 > 0 {
      assert NatToString(m1) == t1[1..|t1| - 1] == NatToString(m2);
      NatToStringInjective(m1, m2);
    } else if m1 > 0 || m2 > 0 {
      assert false;
    }
  }

  /** The two pages label a break alike except below one hour, where the summary writes `0時間`. */
  lemma BreakLabelsAgree(b: int)
    requires b >= 0
    ensures FormatBreakTime(b) == BreakSummaryLabel(b) <==> !(0 < b < 60)
  {
    if 0 < b < 60 {
      assert |BreakSummaryLabel(b)| == 4 + |IntToString(b)|;
    }
  }

  datatype BreakOption = BreakOption(caption: string, value: int)

  /** `BREAK_OPTIONS`. */
  const BreakOptions: seq<BreakOption> := [
    BreakOption("0分", 0),
    BreakOption("15分", 15),
    BreakOption("30分", 30),
    BreakOption("45分", 45),
    BreakOption("1時間", 60),
    BreakOption("1時間15分", 75),
    BreakOption("1時間30分", 90),
    BreakOption("1時間45分", 105),
    BreakOption("2時間", 120)
  ]

  /** The options are the multiples of 15 from 0 to 120, ascending, each labelled as
      `formatBreakTime` labels it. */
  lemma BreakOptionsValues()
    ensures |BreakOptions| == 9
    ensures forall i :: 0 <= i < |BreakOptions| ==> BreakOptions[i].value == 15 * i
    ensures forall i :: 0 <= i < |BreakOptions| ==> BreakOptions[i].caption == FormatBreakTime(BreakOptions[i].value)
  {
    forall i | 0 <= i < |BreakOptions|
      ensures BreakOptions[i].caption == FormatBreakTime(BreakOptions[i].value)
    {
      OptionCaption(i);
    }
  }

  lemma OptionCaption(i: nat)
    requires i < |BreakOptions|
    ensures BreakOptions[i].caption == FormatBreakTime(BreakOptions[i].value)
  {
    var v := BreakOptions[i].value;
    assert FormatBreakTime(v) == BreakLabelOf(v / 60, v % 60);
    var m := v % 60;
    assert NatToString(1) == "1" && NatToString(2) == "2";
    if m == 15 {
      assert NatToString(15) == "15";
    } else if m == 30 {
      assert NatToString(30) == "30";
    } else if m == 45 {
      assert NatToString(45) == "45";
    }
  }

  /** The five years offered, newest first: exactly the current year and the four before it. */
  function YearOptions(currentYear: int): (ys: seq<int>)
    ensures |ys| == 5
    ensures forall y :: y in ys <==> currentYear - 4 <= y <= currentYear
  {
    var ys := seq(5, i => currentYear - i);
    assert forall k :: 0 <= k < 5 ==> ys[k] == currentYear - k;
    assert ys[0] == currentYear && ys[1] == currentYear - 1 && ys[2] == currentYear - 2 && ys[3] == currentYear - 3 && ys[4] == currentYear - 4;
    ys
  }

  /** The list runs from the current year down, one year at a time. */
  lemma YearOptionsDescending(currentYear: int)
    ensures YearOptions(currentYear)[0] == currentYear
    ensures forall i :: 0 < i < 5 ==> YearOptions(currentYear)[i] == YearOptions(currentYear)[i - 1] - 1
  {
  }

  /** The twelve months, in order: exactly 1 to 12. */
  function MonthOptions(): (ms: seq<int>)
    ensures |ms| == 12
    ensures forall m :: m in ms <==> 1 <= m <= 12
    ensures forall i :: 0 <= i < 12 ==> ms[i] == i + 1
  {
    var ms := seq(12, i => i + 1);
    CountingMembers(ms);
    ms
  }

  /** A list counting up from 1 holds exactly the numbers from 1 to its length. */
  lemma CountingMembers(ms: seq<int>)
    requires forall i :: 0 <= i < |ms| ==> ms[i] == i + 1
    ensures forall m :: m in ms <==> 1 <= m <= |ms|
  {
    forall m | 1 <= m <= |ms|
      ensures m in ms
    {
      assert ms[m - 1] == m;
    }
  }

  /** The status badge's label per status code; any other code has no entry. */
  const StatusBadges: map<string, string> := map[
    "present" := "正常",
    "late" := "遅刻",
    "early_leave" := "早退",
    "absent" := "欠勤",
    "half_day" := "半休"
  ]

  function StatusBadgeLabel(code: string): (badge: Option<string>)
    ensures badge.Some? <==> code in StatusCodes
  {
    if code in StatusBadges then Some(StatusBadges[code]) else None
  }

  /** The badge covers exactly the five statuses the backend stores. */
  lemma StatusBadgeKeys()
    ensures StatusBadges.Keys == StatusCodes
    ensures forall s: Status :: StatusBadgeLabel(StatusCode(s)).Some?
  {
  }
}
