/** The pay slip screen: the allowance and deduction totals, the gross pay, the period heading and
    the month selector. Amounts are whole yen. */
module Payslip {
  import opened Text
  import opened Sequences

  datatype Allowances = Allowances(overtime: int, transportation: int, housing: int, other: int)

  datatype Deductions = Deductions(
    healthInsurance: int,
    pension: int,
    employmentInsurance: int,
    incomeTax: int,
    residenceTax: int,
    other: int)

  datatype Status = Available | Pending | Unavailable

  datatype PayslipItem = PayslipItem(
    id: string,
    year: int,
    month: int,
    basicSalary: int,
    allowances: Allowances,
    deductions: Deductions,
    netSalary: int,
    workingDays: int,
    overtimeHours: int,
    status: Status)

  /** `Object.values(allowances)`: the values in declaration order. */
  function AllowanceValues(a: Allowances): seq<int> {
    [a.overtime, a.transportation, a.housing, a.other]
  }

  function DeductionValues(d: Deductions): seq<int> {
    [d.healthInsurance, d.pension, d.employmentInsurance, d.incomeTax, d.residenceTax, d.other]
  }

  /** `totalAllowances`: the `reduce` over the values is the sum of the four fields. */
  function TotalAllowances(p: PayslipItem): (total: int)
    ensures total == p.allowances.overtime + p.allowances.transportation + p.allowances.housing + p.allowances.other
  {
    var a := p.allowances;
    SumFour(a.overtime, a.transportation, a.housing, a.other);
    Sum(AllowanceValues(a))
  }

  /** `totalDeductions`: the sum of the six deduction fields. */
  function TotalDeductions(p: PayslipItem): (total: int)
    ensures total == p.deductions.healthInsurance + p.deductions.pension + p.deductions.employmentInsurance
                   + p.deductions.incomeTax + p.deductions.residenceTax + p.deductions.other
  {
    var d := p.deductions;
    SumSix(d.healthInsurance, d.pension, d.employmentInsurance, d.incomeTax, d.residenceTax, d.other);
    Sum(DeductionValues(d))
  }

  /** Summing a short list adds its entries one by one. */
  lemma SumFour(a: int, b: int, c: int, d: int)
    ensures Sum([a, b, c, d]) == a + b + c + d
  {
    assert [a, b, c, d][1..] == [b, c, d];
    assert [b, c, d][1..] == [c, d];
    assert [c, d][1..] == [d];
    assert [d][1..] == [];
    assert Sum([d]) == d;
    assert Sum([c, d]) == c + d;
    assert Sum([b, c, d]) == b + c + d;
  }

  lemma SumSix(a: int, b: int, c: int, d: int, e: int, f: int)
    ensures Sum([a, b, c, d, e, f]) == a + b + c + d + e + f
  {
    assert [a, b, c, d, e, f][1..] == [b, c, d, e, f];
    assert [b, c, d, e, f][1..] == [c, d, e, f];
    SumFour(c, d, e, f);
    assert Sum([b, c, d, e, f]) == b + c + d + e + f;
  }

  /** `grossSalary`. */
  function GrossSalary(p: PayslipItem): (gross: int)
    ensures gross - p.basicSalary == TotalAllowances(p)
  {
    p.basicSalary + TotalAllowances(p)
  }

  predicate NoNegativeAmounts(p: PayslipItem) {
    && p.basicSalary >= 0
    && (forall k :: 0 <= k < 4 ==> AllowanceValues(p.allowances)[k] >= 0)
    && (forall k :: 0 <= k < 6 ==> DeductionValues(p.deductions)[k] >= 0)
  }

  /** With no negative amount, the gross pay is at least the basic salary and each allowance, and
      the deduction total at least each deduction. */
  lemma TotalsBoundParts(p: PayslipItem)
    requires NoNegativeAmounts(p)
    ensures GrossSalary(p) >= p.basicSalary
    ensures forall k :: 0 <= k < 4 ==> AllowanceValues(p.allowances)[k] <= TotalAllowances(p)
    ensures forall k :: 0 <= k < 6 ==> DeductionValues(p.deductions)[k] <= TotalDeductions(p)
  {
    var a := AllowanceValues(p.allowances);
    var d := DeductionValues(p.deductions);
    assert a[0] >= 0 && a[1] >= 0 && a[2] >= 0 && a[3] >= 0;
    assert d[0] >= 0 && d[1] >= 0 && d[2] >= 0 && d[3] >= 0 && d[4] >= 0 && d[5] >= 0;
  }

  /** The net pay shown is the stored `netSalary`. */
  function ShownNetSalary(p: PayslipItem): (net: int)
    ensures net == p.netSalary
  {
    p.netSalary
  }

  /** The net pay shown agrees with gross pay minus deductions exactly when the stored figure
      equals the basic salary plus the allowance fields minus the deduction fields; and two slips
      with the same stored figure show the same net pay, whatever their other amounts. */
  lemma ShownNetAgainstComputed(p: PayslipItem, q: PayslipItem)
    ensures ShownNetSalary(p) == GrossSalary(p) - TotalDeductions(p) <==>
      p.netSalary == p.basicSalary
        + p.allowances.overtime + p.allowances.transportation + p.allowances.housing + p.allowances.other
        - p.deductions.healthInsurance - p.deductions.pension - p.deductions.employmentInsurance
        - p.deductions.incomeTax - p.deductions.residenceTax - p.deductions.other
    ensures p.netSalary == q.netSalary ==> ShownNetSalary(p) == ShownNetSalary(q)
  {
  }

  /** The screen's own sample data. */
  const Sample := PayslipItem("1", 2024, 12, 300000,
    Allowances(25000, 15000, 20000, 5000),
    Deductions(15000, 27000, 1800, 12000, 10000, 2000),
    240000, 22, 20, Available)

  /** On the sample, the stored net pay is not gross pay minus deductions, so the two must not be
      assumed equal. */
  lemma SampleNetNotRecomputed()
    ensures GrossSalary(Sample) == 365000 && TotalDeductions(Sample) == 67800
    ensures ShownNetSalary(Sample) != GrossSalary(Sample) - TotalDeductions(Sample)
  {
  }

  /** `formatDate(year, month)`: "2024年12月". */
  function FormatDate(year: int, month: int): (s: string)
    ensures year >= 0 && month >= 0 ==>
      s == NatToString(year) + ['年'] + (NatToString(month) + ['月'])
  {
    IntToString(year) + "年" + IntToString(month) + "月"
  }

  /** The heading tells periods apart: reading the digits before 年 and between 年 and 月 gives
      the year and the month back. */
  lemma FormatDateInjective(y1: nat, m1: nat, y2: nat, m2: nat)
    requires FormatDate(y1, m1) == FormatDate(y2, m2)
    ensures y1 == y2 && m1 == m2
  {
    var a1, a2 := NatToString(y1), NatToString(y2);
    var b1, b2 := NatToString(m1), NatToString(m2);
    NatToStringDigits(y1);
    NatToStringDigits(y2);
    DigitsFree(a1, '年');
    DigitsFree(a2, '年');
    PrefixBeforeSeparator(a1, a2, '年', b1 + ['月'], b2 + ['月']);
    assert b1 == (b1 + ['月'])[..|b1|];
    assert b2 == (b2 + ['月'])[..|b2|];
    NatToStringInjective(y1, y2);
    NatToStringInjective(m1, m2);
  }

  /** An instance of the heading: December 2024. */
  lemma FormatDateExample()
    ensures FormatDate(2024, 12) == "2024年12月"
  {
  }

  /** `availableMonths`: `Array.from({ length: 12 }, (_, i) => i + 1)`. */
  function AvailableMonths(): (months: seq<int>) {
    seq(12, i => i + 1)
  }

  /** The month selector offers each calendar month once, in order. */
  lemma AvailableMonthsAreCalendar()
    ensures |AvailableMonths()| == 12
    ensures forall m :: m in AvailableMonths() <==> 1 <= m <= 12
    ensures forall i, j :: 0 <= i < j < 12 ==> AvailableMonths()[i] < AvailableMonths()[j]
  {
    var ms := AvailableMonths();
    forall m | 1 <= m <= 12 ensures m in ms {
      assert ms[m - 1] == m;
    }
  }

  /** The status badge's label. */
  function StatusLabel(s: Status): (shown: string)
    ensures shown in {"確認可能", "準備中", "未公開"}
  {
    match s
    case Available => "確認可能"
    case Pending => "準備中"
    case Unavailable => "未公開"
  }

  lemma StatusLabelInjective(a: Status, b: Status)
    ensures StatusLabel(a) == StatusLabel(b) <==> a == b
  {
  }
}
