/** Proleptic Gregorian dates and naive date-times with microsecond resolution, as Python's
    `datetime.date` and `datetime.datetime` represent them. Comparison is field by field, and the
    difference of two date-times is computed through day ordinals, as `datetime.__sub__` does. */
module Calendar {

  datatype Date = Date(year: int, month: int, day: int)

  predicate IsLeap(y: int) {
    y % 4 == 0 && (y % 100 != 0 || y % 400 == 0)
  }

  function DaysInMonth(y: int, m: int): (n: int)
    requires 1 <= m <= 12
    ensures 28 <= n <= 31
    ensures m == 2 ==> (n == 29 <==> IsLeap(y))
  {
    if m == 2 then (if IsLeap(y) then 29 else 28)
    else if m == 4 || m == 6 || m == 9 || m == 11 then 30
    else 31
  }

  /** The dates `datetime.date` can hold: years 1 to 9999, months 1 to 12, days within the month. */
  predicate ValidDate(d: Date) {
    1 <= d.year <= 9999 && 1 <= d.month <= 12 && 1 <= d.day <= DaysInMonth(d.year, d.month)
  }

  type CivilDate = d: Date | ValidDate(d) witness Date(1, 1, 1)

  /** Python's `date <= date`: year, then month, then day. */
  predicate DateLe(a: Date, b: Date) {
    a.year < b.year || (a.year == b.year && (a.month < b.month || (a.month == b.month && a.day <= b.day)))
  }

  predicate DateLt(a: Date, b: Date) {
    DateLe(a, b) && a != b
  }

  lemma DateLeTotal(a: Date, b: Date)
    ensures DateLe(a, b) || DateLe(b, a)
    ensures DateLe(a, b) && DateLe(b, a) ==> a == b
  {
  }

  /** Days in the years before `y` (CPython's `_days_before_year`). */
  function DaysBeforeYear(y: int): int {
    var p := y - 1;
    p * 365 + p / 4 - p / 100 + p / 400
  }

  function DaysInYear(y: int): (n: int)
    ensures n == 365 || n == 366
  {
    if IsLeap(y) then 366 else 365
  }

  /** Days in the months of year `y` before month `m` (CPython's `_days_before_month`). */
  function DaysBeforeMonth(y: int, m: int): (n: int)
    requires 1 <= m <= 13
    ensures 28 * (m - 1) <= n <= 31 * (m - 1)
    decreases m
  {
    if m == 1 then 0 else DaysBeforeMonth(y, m - 1) + DaysInMonth(y, m - 1)
  }

  /** `date.toordinal()`: 1 January of year 1 is day 1. */
  function Ordinal(d: CivilDate): int {
    DaysBeforeYear(d.year) + DaysBeforeMonth(d.year, d.month) + d.day
  }

  lemma DaysBeforeYearStep(y: int)
    requires y >= 1
    ensures DaysBeforeYear(y + 1) == DaysBeforeYear(y) + DaysInYear(y)
  {
    var p := y - 1;
    assert (p + 1) / 4 == p / 4 + (if y % 4 == 0 then 1 else 0);
    assert (p + 1) / 100 == p / 100 + (if y % 100 == 0 then 1 else 0);
    assert (p + 1) / 400 == p / 400 + (if y % 400 == 0 then 1 else 0);
  }

  lemma {:induction false} DaysBeforeYearMonotone(a: int, b: int)
    requires 1 <= a <= b
    ensures DaysBeforeYear(a) + DaysInYear(a) * (if a < b then 1 else 0) <= DaysBeforeYear(b)
    decreases b - a
  {
    if a < b {
      DaysBeforeYearStep(a);
      if a + 1 < b {
        DaysBeforeYearMonotone(a + 1, b);
      }
    }
  }

  lemma DaysBeforeMonthFullYear(y: int)
    ensures DaysBeforeMonth(y, 13) == DaysInYear(y)
  {
  }

  lemma {:induction false} DaysBeforeMonthMonotone(y: int, a: int, b: int)
    requires 1 <= a < b <= 13
    ensures DaysBeforeMonth(y, a) + DaysInMonth(y, a) <= DaysBeforeMonth(y, b)
    decreases b - a
  {
    if a + 1 < b {
      DaysBeforeMonthMonotone(y, a + 1, b);
    }
  }

  /** Field-wise order and ordinal order agree, so `toordinal` is a faithful day count. */
  lemma OrdinalOrder(a: CivilDate, b: CivilDate)
    ensures DateLt(a, b) <==> Ordinal(a) < Ordinal(b)
    ensures a == b <==> Ordinal(a) == Ordinal(b)
  {
    if DateLt(a, b) {
      OrdinalStrict(a, b);
    } else if DateLt(b, a) {
      OrdinalStrict(b, a);
    }
  }

  lemma OrdinalStrict(a: CivilDate, b: CivilDate)
    requires DateLt(a, b)
    ensures Ordinal(a) < Ordinal(b)
  {
    if a.year < b.year {
      DaysBeforeMonthMonotone(a.year, a.month, 13);
      assert Ordinal(a) <= DaysBeforeYear(a.year) + DaysInYear(a.year);
      DaysBeforeMonthFullYear(a.year);
      DaysBeforeYearMonotone(a.year, b.year);
    } else if a.month < b.month {
      DaysBeforeMonthMonotone(a.year, a.month, b.month);
    }
  }

  const SecondMicros := 1_000_000
  const MinuteMicros := 60 * SecondMicros
  const HourMicros := 60 * MinuteMicros
  const DayMicros := 24 * HourMicros

  /** Microseconds since midnight: `datetime.time` down to its `microsecond` field. */
  type TimeOfDay = t: int | 0 <= t < DayMicros

  function TimeOfDayAt(hour: int, minute: int): (t: TimeOfDay)
    requires 0 <= hour < 24 && 0 <= minute < 60
  {
    hour * HourMicros + minute * MinuteMicros
  }

  /** A naive `datetime.datetime`. */
  datatype DateTime = DateTime(date: CivilDate, time: TimeOfDay)

  /** Python's `datetime <= datetime`: the date, then the time of day. */
  predicate DateTimeLe(a: DateTime, b: DateTime) {
    DateLt(a.date, b.date) || (a.date == b.date && a.time <= b.time)
  }

  /** Microseconds since the start of 1 January of year 1. */
  function Instant(t: DateTime): int {
    (Ordinal(t.date) - 1) * DayMicros + t.time
  }

  /** `(b - a)` as a `timedelta`, in microseconds: whole days through the ordinals plus the time difference. */
  function DurationMicros(a: DateTime, b: DateTime): (d: int)
    ensures d == Instant(b) - Instant(a)
  {
    DaysScale(Ordinal(b.date), Ordinal(a.date), DayMicros);
    (Ordinal(b.date) - Ordinal(a.date)) * DayMicros + (b.time - a.time)
  }

  /** Scaling a day difference is the difference of the scaled day offsets. */
  lemma DaysScale(x: int, y: int, c: int)
    ensures (x - y) * c == (x - 1) * c - (y - 1) * c
  {
  }

  /** A whole number `k` of days of `c` microseconds plus a difference of two times of day is
      non-negative exactly when `k` is positive or `k` is zero and the times are ordered. */
  lemma ScaledSign(k: int, c: int, ta: int, tb: int)
    requires 0 <= ta < c && 0 <= tb < c
    ensures k * c + (tb - ta) >= 0 <==> k > 0 || (k == 0 && ta <= tb)
    ensures k * c + (tb - ta) == 0 <==> k == 0 && ta == tb
  {
    if k > 0 {
      AtLeastOnce(k, c);
    } else if k < 0 {
      AtLeastOnce(-k, c);
      assert k * c == -((-k) * c);
    }
  }

  lemma {:induction false} AtLeastOnce(k: int, c: int)
    requires k >= 1 && c >= 0
    ensures k * c >= c
    decreases k
  {
    if k > 1 {
      AtLeastOnce(k - 1, c);
      assert k * c == (k - 1) * c + c;
    }
  }

  /** The difference is non-negative exactly when the first date-time is not after the second. */
  lemma DurationSign(a: DateTime, b: DateTime)
    ensures DurationMicros(a, b) >= 0 <==> DateTimeLe(a, b)
    ensures DurationMicros(a, b) == 0 <==> a == b
  {
    OrdinalOrder(a.date, b.date);
    ScaledSign(Ordinal(b.date) - Ordinal(a.date), DayMicros, a.time, b.time);
  }
}
