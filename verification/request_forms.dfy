/** The request forms' schemas: paid leave (required fields, a start no earlier than today and an
    end no earlier than the start, and the inclusive day count), expenses (amount and evidence
    file rules) and allowances. Dates are parsed by a parameter standing for the browser's
    `new Date(text)`, giving epoch milliseconds or `None` for an invalid date; numbers typed into
    an amount field are `None` when the field holds no number. */
module RequestForms {
  import opened Wrappers
  import opened Forms

  const DayMs := 86400000

  // ---------------------------------------------------------------- paid leave

  datatype PaidLeaveForm = PaidLeaveForm(startDate: string, endDate: string, reason: string, leaveType: string)

  const DateRuleMessage := "日付の設定が正しくありません。開始日は今日以降、終了日は開始日以降に設定してください。"

  /** The object-level refinement. A comparison with an invalid date is false, so it never
      rejects on account of one. */
  predicate DatesInOrder(start: Option<int>, end: Option<int>, todayMidnight: int) {
    if start.Some? && start.value < todayMidnight then false
    else if end.Some? && start.Some? && end.value < start.value then false
    else true
  }

  /** For two valid dates the refinement accepts exactly `today <= start <= end`; a single day
      (start = end) is allowed. */
  lemma DatesInOrderValid(start: int, end: int, todayMidnight: int)
    ensures DatesInOrder(Some(start), Some(end), todayMidnight) <==> todayMidnight <= start <= end
  {
  }

  /** An unparsable start date passes the refinement whatever the end date. */
  lemma DatesInOrderInvalidStart(end: Option<int>, todayMidnight: int)
    ensures DatesInOrder(None, end, todayMidnight)
  {
  }

  /** `paidLeaveSchema`: four required fields, then the refinement on the whole form, whose
      issue has the empty path. */
  function PaidLeaveIssues(f: PaidLeaveForm, todayMidnight: int, parseDate: string -> Option<int>): seq<Issue> {
    Required(f.startDate, "startDate", "開始日を選択してください")
    + Required(f.endDate, "endDate", "終了日を選択してください")
    + Required(f.reason, "reason", "理由を入力してください")
    + Required(f.leaveType, "leaveType", "有給種別を選択してください")
    + Check(DatesInOrder(parseDate(f.startDate), parseDate(f.endDate), todayMidnight), "", DateRuleMessage)
  }

  /** A request is accepted iff every field is filled in and, where both dates parse, the start
      is not before today and the end not before the start. */
  lemma PaidLeaveAcceptedIff(f: PaidLeaveForm, todayMidnight: int, parseDate: string -> Option<int>)
    ensures Accepted(PaidLeaveIssues(f, todayMidnight, parseDate)) <==>
      && f.startDate != "" && f.endDate != "" && f.reason != "" && f.leaveType != ""
      && (parseDate(f.startDate).Some? ==> todayMidnight <= parseDate(f.startDate).value)
      && (parseDate(f.startDate).Some? && parseDate(f.endDate).Some? ==> parseDate(f.startDate).value <= parseDate(f.endDate).value)
  {
  }

  /** The refinement runs even when a field is empty, so an empty reason and a start in the past
      are both reported. */
  lemma PaidLeaveReportsBoth(f: PaidLeaveForm, todayMidnight: int, parseDate: string -> Option<int>)
    requires f.reason == "" && parseDate(f.startDate).Some? && parseDate(f.startDate).value < todayMidnight
    ensures Issue("reason", "理由を入力してください") in PaidLeaveIssues(f, todayMidnight, parseDate)
    ensures Issue("", DateRuleMessage) in PaidLeaveIssues(f, todayMidnight, parseDate)
  {
  }

  /** `Math.ceil(a / d)` for `a >= 0`. */
  function CeilDiv(a: nat, d: nat): (q: nat)
    requires d > 0
    ensures (q - 1) * d < a <= q * d
  {
    var q := (a + d - 1) / d;
    assert a + d - 1 == d * q + (a + d - 1) % d;
    q
  }

  function Abs(x: int): nat {
    if x < 0 then -x else x
  }

  /** `calculateDays`: 0 while either field is empty, `None` (NaN) when a date does not parse,
      and otherwise the whole days between the dates, rounded up, plus one for the start day. */
  function CalculateDays(startDate: string, endDate: string, parseDate: string -> Option<int>): (days: Option<int>)
    ensures startDate == "" || endDate == "" ==> days == Some(0)
    ensures startDate != "" && endDate != "" ==> (days.None? <==> parseDate(startDate).None? || parseDate(endDate).None?)
    ensures startDate != "" && endDate != "" && days.Some? ==>
      var span := Abs(parseDate(endDate).value - parseDate(startDate).value);
      && days.value >= 1
      && (days.value - 2) * DayMs < span <= (days.value - 1) * DayMs
  {
    if startDate == "" || endDate == "" then Some(0)
    else match (parseDate(startDate), parseDate(endDate))
      case (Some(s), Some(e)) => Some(CeilDiv(Abs(e - s), DayMs) + 1)
      case _ => None
  }

  /** Swapping the two dates does not change the count. */
  lemma CalculateDaysSymmetric(a: string, b: string, parseDate: string -> Option<int>)
    ensures CalculateDays(a, b, parseDate) == CalculateDays(b, a, parseDate)
  {
  }

  /** Dates a whole number `n` of days apart give `n + 1` days: both ends are counted. */
  lemma CalculateDaysWholeDays(startDate: string, endDate: string, parseDate: string -> Option<int>, n: nat)
    requires startDate != "" && endDate != ""
    requires parseDate(startDate).Some? && parseDate(endDate) == Some(parseDate(startDate).value + n * DayMs)
    ensures CalculateDays(startDate, endDate, parseDate) == Some(n + 1)
  {
    var q := CeilDiv(n * DayMs, DayMs);
    assert (q - 1) * DayMs < n * DayMs <= q * DayMs;
  }

  // ---------------------------------------------------------------- expenses

  datatype File = File(size: int, mimeType: string)

  datatype ExpenseForm = ExpenseForm(expenseName: string, purpose: string, amount: Option<real>, evidence: Option<seq<File>>)

  const AcceptedTypes: seq<string> := ["image/jpeg", "image/png", "application/pdf"]

  const NotANumberMessage := "金額を数字で入力してください"
  const AmountMessage := "金額は1円以上で入力してください"
  const NoFileMessage := "証拠となるファイルをアップロードしてください"
  const SizeMessage := "ファイルサイズは5MBまでです"
  const TypeMessage := "対応ファイルはJPEG, PNG, PDFのみです"

  /** `z.number(…).min(1, …)`: a missing number fails the type check and the minimum is not
      examined. */
  function AmountIssues(amount: Option<real>): (issues: seq<Issue>)
    ensures issues == [] <==> amount.Some? && amount.value >= 1.0
    ensures amount.None? ==> issues == [Issue("amount", NotANumberMessage)]
  {
    match amount
    case None => [Issue("amount", NotANumberMessage)]
    case Some(v) => Check(v >= 1.0, "amount", AmountMessage)
  }

  /** `files?.[0]?.size <= 5000000`: false when there is no first file. */
  predicate FirstFileSmall(files: Option<seq<File>>) {
    files.Some? && |files.value| > 0 && files.value[0].size <= 5000000
  }

  predicate FirstFileTyped(files: Option<seq<File>>) {
    files.Some? && |files.value| > 0 && files.value[0].mimeType in AcceptedTypes
  }

  /** The three independent refinements on the evidence field, in order. */
  function EvidenceIssues(files: Option<seq<File>>): seq<Issue> {
    Check(files.Some? && |files.value| > 0, "evidence", NoFileMessage)
    + Check(FirstFileSmall(files), "evidence", SizeMessage)
    + Check(FirstFileTyped(files), "evidence", TypeMessage)
  }

  function ExpenseIssues(f: ExpenseForm): seq<Issue> {
    Required(f.expenseName, "expenseName", "経費の名称は必須です")
    + Required(f.purpose, "purpose", "用途を選択してください")
    + AmountIssues(f.amount)
    + EvidenceIssues(f.evidence)
  }

  /** An expense is accepted iff name and purpose are filled in, the amount is at least 1, and
      there is a first file of at most 5,000,000 bytes and of an accepted type. */
  lemma ExpenseAcceptedIff(f: ExpenseForm)
    ensures Accepted(ExpenseIssues(f)) <==>
      && f.expenseName != "" && f.purpose != ""
      && f.amount.Some? && f.amount.value >= 1.0
      && f.evidence.Some? && |f.evidence.value| > 0
      && f.evidence.value[0].size <= 5000000
      && f.evidence.value[0].mimeType in {"image/jpeg", "image/png", "application/pdf"}
  {
    if f.evidence.Some? && |f.evidence.value| > 0 {
      var t := f.evidence.value[0].mimeType;
      assert t in AcceptedTypes <==> t in {"image/jpeg", "image/png", "application/pdf"};
    }
  }

  /** With no file, all three evidence checks fail and the upload message is the one shown. */
  lemma NoEvidenceMessage(files: Option<seq<File>>)
    requires files.None? || files.value == []
    ensures EvidenceIssues(files) == [Issue("evidence", NoFileMessage), Issue("evidence", SizeMessage), Issue("evidence", TypeMessage)]
    ensures ShownMessage(EvidenceIssues(files), "evidence") == Some(NoFileMessage)
  {
  }

  /** With a file, the message shown is the size one when the first file is too large, and the
      type one only when its size is acceptable. */
  lemma EvidenceMessageShown(files: seq<File>)
    requires |files| > 0
    ensures files[0].size > 5000000 ==> ShownMessage(EvidenceIssues(Some(files)), "evidence") == Some(SizeMessage)
    ensures files[0].size <= 5000000 && files[0].mimeType !in AcceptedTypes ==>
      ShownMessage(EvidenceIssues(Some(files)), "evidence") == Some(TypeMessage)
    ensures files[0].size <= 5000000 && files[0].mimeType in AcceptedTypes ==> EvidenceIssues(Some(files)) == []
  {
  }

  /** Only the first file is examined: the files after it never change the outcome. */
  lemma OnlyFirstFileChecked(first: File, rest1: seq<File>, rest2: seq<File>)
    ensures EvidenceIssues(Some([first] + rest1)) == EvidenceIssues(Some([first] + rest2))
  {
  }

  // ---------------------------------------------------------------- allowances

  datatype AllowanceForm = AllowanceForm(allowanceName: string, allowanceType: string, amount: Option<real>, reason: string)

  function AllowanceIssues(f: AllowanceForm): seq<Issue> {
    Required(f.allowanceName, "allowanceName", "手当ての名称は必須です")
    + Required(f.allowanceType, "allowanceType", "手当種別を選択してください")
    + AmountIssues(f.amount)
    + Required(f.reason, "reason", "理由を入力してください")
  }

  lemma AllowanceAcceptedIff(f: AllowanceForm)
    ensures Accepted(AllowanceIssues(f)) <==>
      f.allowanceName != "" && f.allowanceType != "" && f.amount.Some? && f.amount.value >= 1.0 && f.reason != ""
  {
  }

  const AllowanceTypes: seq<string> := ["出張手当", "残業手当", "深夜手当", "休日出勤手当", "通勤手当", "住宅手当", "家族手当", "その他"]

  /** Eight distinct options, the last being "other"; every option passes the type field's rule. */
  lemma AllowanceTypesShape()
    ensures |AllowanceTypes| == 8 && AllowanceTypes[7] == "その他"
    ensures forall i, j :: 0 <= i < j < |AllowanceTypes| ==> AllowanceTypes[i] != AllowanceTypes[j]
    ensures forall i :: 0 <= i < |AllowanceTypes| ==> Required(AllowanceTypes[i], "allowanceType", "手当種別を選択してください") == []
  {
  }
}
