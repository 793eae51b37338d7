/** The profile edit form's schema: required fields, the phone-number pattern, the bank account,
    health-insurance and pension number formats, and a birth date in the past. Regular expressions
    are given twice: as the pattern read position by position, and as the check the model runs
    (splitting on '-'), with a lemma that the two agree. */
module ProfileValidation {
  import opened Wrappers
  import opened Text
  import opened Forms

  // ---------------------------------------------------------------- phone numbers

  /** `^0\d{1,4}-\d{1,4}-\d{4}$` read by positions: dashes at `i` and `j`, a leading '0', a digit
      everywhere else, and 1–4, 1–4 and 4 digits in the three groups. */
  predicate DashedPhoneAt(s: string, i: int, j: int) {
    && 2 <= i <= 5 && i + 2 <= j <= i + 5 && |s| == j + 5
    && s[0] == '0' && s[i] == '-' && s[j] == '-'
    && (forall k :: 0 <= k < |s| && k != i && k != j ==> IsDigit(s[k]))
  }

  /** `^0\d{9,10}$`. */
  predicate CompactPhone(s: string) {
    10 <= |s| <= 11 && s[0] == '0' && AllDigits(s)
  }

  /** The phone pattern: either alternative of the regular expression. */
  predicate PhonePattern(s: string) {
    (exists i, j :: 0 <= i < j < |s| && DashedPhoneAt(s, i, j)) || CompactPhone(s)
  }

  predicate DashedGroups(a: string, b: string, c: string) {
    && 2 <= |a| <= 5 && a[0] == '0' && AllDigits(a)
    && 1 <= |b| <= 4 && AllDigits(b)
    && |c| == 4 && AllDigits(c)
  }

  /** The phone check as the model runs it: three groups between dashes, or the compact form. */
  predicate IsPhone(s: string) {
    var groups := Split(s, '-');
    (|groups| == 3 && DashedGroups(groups[0], groups[1], groups[2])) || CompactPhone(s)
  }

  /** The check accepts exactly the strings the pattern matches. */
  lemma PhoneCheckMatchesPattern(s: string)
    ensures IsPhone(s) <==> PhonePattern(s)
  {
    var groups := Split(s, '-');
    if |groups| == 3 && DashedGroups(groups[0], groups[1], groups[2]) {
      DashedGroupsMatch(s);
    }
    if i, j :| 0 <= i < j < |s| && DashedPhoneAt(s, i, j) {
      DashedPatternSplits(s, i, j);
    }
  }

  lemma DashedGroupsMatch(s: string)
    requires |Split(s, '-')| == 3
    requires DashedGroups(Split(s, '-')[0], Split(s, '-')[1], Split(s, '-')[2])
    ensures DashedPhoneAt(s, |Split(s, '-')[0]|, |Split(s, '-')[0]| + 1 + |Split(s, '-')[1]|)
  {
    var groups := Split(s, '-');
    var a, b, c := groups[0], groups[1], groups[2];
    SplitJoin(s, '-');
    assert groups == [a, b, c];
    assert [a, b, c][1..] == [b, c];
    assert [b, c][1..] == [c];
    assert Join([b, c], '-') == b + ['-'] + c;
    assert s == a + ['-'] + (b + ['-'] + c);
    var i, j := |a|, |a| + 1 + |b|;
    forall k | 0 <= k < |s| && k != i && k != j
      ensures IsDigit(s[k])
    {
      if k < i {
        assert s[k] == a[k];
      } else if k < j {
        assert s[k] == b[k - i - 1];
      } else {
        assert s[k] == c[k - j - 1];
      }
    }
  }

  lemma DashedPatternSplits(s: string, i: int, j: int)
    requires DashedPhoneAt(s, i, j)
    ensures IsPhone(s)
  {
    var a, b, c := s[..i], s[i + 1..j], s[j + 1..];
    SliceDigits(s, 0, i);
    SliceDigits(s, i + 1, j);
    SliceDigits(s, j + 1, |s|);
    assert s[0..i] == a && s[j + 1..|s|] == c;
    assert s == a + ['-'] + (b + ['-'] + c);
    GroupsSplit(a, b, c);
    assert a[0] == s[0];
  }

  /** A run of digits inside a string is a digit string of its own. */
  lemma SliceDigits(s: string, lo: int, hi: int)
    requires 0 <= lo <= hi <= |s|
    requires forall k :: lo <= k < hi ==> IsDigit(s[k])
    ensures AllDigits(s[lo..hi])
  {
    forall k | 0 <= k < hi - lo ensures IsDigit(s[lo..hi][k]) {
      assert s[lo..hi][k] == s[lo + k];
    }
  }

  /** Three digit groups joined by dashes split back into those groups. */
  lemma GroupsSplit(a: string, b: string, c: string)
    requires AllDigits(a) && AllDigits(b) && AllDigits(c)
    ensures Split(a + ['-'] + (b + ['-'] + c), '-') == [a, b, c]
  {
    DigitsFree(a, '-');
    DigitsFree(b, '-');
    DigitsFree(c, '-');
    SplitCons(a, b + ['-'] + c, '-');
    SplitTwo(b, c, '-');
  }

  /** A string the pattern accepts has at least 9 characters (`01-2-3456`), so the `.min(1)`
      before it rejects nothing the pattern would accept. */
  lemma PhonePatternNonEmpty(s: string)
    requires PhonePattern(s)
    ensures |s| >= 9
  {
  }

  /** The second emergency phone: absent and empty are accepted, anything else must be a phone. */
  predicate OptionalPhone(phone: Option<string>) {
    phone.None? || phone.value == "" || IsPhone(phone.value)
  }

  // ---------------------------------------------------------------- numbers

  /** `^\d{n}$`: exactly `n` ASCII digits. */
  predicate DigitsOfLength(s: string, n: nat) {
    |s| == n && AllDigits(s)
  }

  /** `^\d{4}-\d{6}$` read by positions. */
  predicate PensionPattern(s: string) {
    |s| == 11 && s[4] == '-' && forall k :: 0 <= k < 11 && k != 4 ==> IsDigit(s[k])
  }

  /** The pension check as the model runs it: two dash-separated groups of 4 and 6 digits. */
  predicate IsPensionNumber(s: string) {
    var groups := Split(s, '-');
    |groups| == 2 && DigitsOfLength(groups[0], 4) && DigitsOfLength(groups[1], 6)
  }

  lemma PensionCheckMatchesPattern(s: string)
    ensures IsPensionNumber(s) <==> PensionPattern(s)
  {
    var groups := Split(s, '-');
    if |groups| == 2 && DigitsOfLength(groups[0], 4) && DigitsOfLength(groups[1], 6) {
      var a, b := groups[0], groups[1];
      SplitJoin(s, '-');
      assert groups == [a, b];
      assert [a, b][1..] == [b];
      assert s == a + ['-'] + b;
      forall k | 0 <= k < 11 && k != 4 ensures IsDigit(s[k]) {
        if k < 4 { assert s[k] == a[k]; } else { assert s[k] == b[k - 5]; }
      }
    }
    if PensionPattern(s) {
      var a, b := s[..4], s[5..];
      assert AllDigits(a) by {
        forall k | 0 <= k < 4 ensures IsDigit(a[k]) { assert a[k] == s[k]; }
      }
      assert AllDigits(b) by {
        forall k | 0 <= k < 6 ensures IsDigit(b[k]) { assert b[k] == s[5 + k]; }
      }
      DigitsFree(a, '-');
      DigitsFree(b, '-');
      assert s == a + ['-'] + b;
      SplitTwo(a, b, '-');
    }
  }

  // ---------------------------------------------------------------- the form

  datatype ProfileForm = ProfileForm(
    birthDate: string,
    gender: string,
    address: string,
    contact1Name: string,
    contact1Relationship: string,
    contact1Phone: string,
    contact2Name: Option<string>,
    contact2Relationship: Option<string>,
    contact2Phone: Option<string>,
    bankName: string,
    branchName: string,
    accountNumber: string,
    accountType: string,
    healthInsuranceNumber: string,
    pensionNumber: string)

  /** `new Date(date) < new Date()`: `parsed` is the parsed time in milliseconds, `None` for an
      invalid date, whose comparison is false. */
  predicate BornBefore(parsed: Option<int>, now: int) {
    parsed.Some? && parsed.value < now
  }

  /** The issues `profileEditSchema` reports, field by field in declaration order; `parseDate` is
      the browser's date parser. The fields come in four consecutive groups. */
  function ProfileIssues(f: ProfileForm, now: int, parseDate: string -> Option<int>): seq<Issue>
  {
    PersonalIssues(f, now, parseDate) + ContactIssues(f) + BankIssues(f) + InsuranceIssues(f)
  }

  /** Birth date, gender and address. */
  function PersonalIssues(f: ProfileForm, now: int, parseDate: string -> Option<int>): seq<Issue>
  {
    Required(f.birthDate, "birthDate", "生年月日は必須です")
    + Check(BornBefore(parseDate(f.birthDate), now), "birthDate", "生年月日は過去の日付を入力してください")
    + Required(f.gender, "gender", "性別を選択してください")
    + Required(f.address, "address", "現住所は必須です")
  }

  /** The emergency contacts; the second one's name and relationship have no check. */
  function ContactIssues(f: ProfileForm): seq<Issue>
  {
    Required(f.contact1Name, "emergencyContact1Name", "緊急連絡先1のお名前は必須です")
    + Required(f.contact1Relationship, "emergencyContact1Relationship", "緊急連絡先1の続柄は必須です")
    + Required(f.contact1Phone, "emergencyContact1Phone", "緊急連絡先1の電話番号は必須です")
    + Check(IsPhone(f.contact1Phone), "emergencyContact1Phone", "正しい電話番号形式で入力してください（例：090-1234-5678）")
    + Check(OptionalPhone(f.contact2Phone), "emergencyContact2Phone", "正しい電話番号形式で入力してください")
  }

  /** The salary transfer account. */
  function BankIssues(f: ProfileForm): seq<Issue>
  {
    Required(f.bankName, "bankName", "銀行名は必須です")
    + Required(f.branchName, "branchName", "支店名は必須です")
    + Required(f.accountNumber, "accountNumber", "口座番号は必須です")
    + Check(DigitsOfLength(f.accountNumber, 7), "accountNumber", "口座番号は7桁の数字で入力してください")
    + Required(f.accountType, "accountType", "口座種別を選択してください")
  }

  /** The health-insurance and pension numbers. */
  function InsuranceIssues(f: ProfileForm): seq<Issue>
  {
    Required(f.healthInsuranceNumber, "healthInsuranceNumber", "健康保険番号は必須です")
    + Check(DigitsOfLength(f.healthInsuranceNumber, 8), "healthInsuranceNumber", "健康保険番号は8桁の数字で入力してください")
    + Required(f.pensionNumber, "pensionNumber", "基礎年金番号は必須です")
    + Check(IsPensionNumber(f.pensionNumber), "pensionNumber", "基礎年金番号は「1234-567890」形式で入力してください")
  }

  predicate PersonalValid(f: ProfileForm, now: int, parseDate: string -> Option<int>) {
    f.birthDate != "" && BornBefore(parseDate(f.birthDate), now) && f.gender != "" && f.address != ""
  }

  predicate ContactsValid(f: ProfileForm) {
    && f.contact1Name != "" && f.contact1Relationship != ""
    && PhonePattern(f.contact1Phone)
    && (f.contact2Phone.None? || f.contact2Phone.value == "" || PhonePattern(f.contact2Phone.value))
  }

  predicate BankValid(f: ProfileForm) {
    f.bankName != "" && f.branchName != "" && DigitsOfLength(f.accountNumber, 7) && f.accountType != ""
  }

  predicate InsuranceValid(f: ProfileForm) {
    DigitsOfLength(f.healthInsuranceNumber, 8) && PensionPattern(f.pensionNumber)
  }

  /** What an acceptable profile is, in terms of the patterns. */
  predicate ValidProfile(f: ProfileForm, now: int, parseDate: string -> Option<int>) {
    PersonalValid(f, now, parseDate) && ContactsValid(f) && BankValid(f) && InsuranceValid(f)
  }

  lemma ContactsAcceptedIff(f: ProfileForm)
    ensures Accepted(ContactIssues(f)) <==> ContactsValid(f)
  {
    PhoneCheckMatchesPattern(f.contact1Phone);
    if f.contact2Phone.Some? {
      PhoneCheckMatchesPattern(f.contact2Phone.value);
    }
  }

  lemma InsuranceAcceptedIff(f: ProfileForm)
    ensures Accepted(InsuranceIssues(f)) <==> InsuranceValid(f)
  {
    PensionCheckMatchesPattern(f.pensionNumber);
  }

  /** The schema accepts a profile exactly when it is valid. */
  lemma ProfileAcceptedIffValid(f: ProfileForm, now: int, parseDate: string -> Option<int>)
    ensures Accepted(ProfileIssues(f, now, parseDate)) <==> ValidProfile(f, now, parseDate)
  {
    PersonalAcceptedIff(f, now, parseDate);
    ContactsAcceptedIff(f);
    BankAcceptedIff(f);
    InsuranceAcceptedIff(f);
    var p, c, b, i := PersonalIssues(f, now, parseDate), ContactIssues(f), BankIssues(f), InsuranceIssues(f);
    AcceptedConcat(p, c);
    AcceptedConcat(p + c, b);
    AcceptedConcat(p + c + b, i);
  }

  lemma PersonalAcceptedIff(f: ProfileForm, now: int, parseDate: string -> Option<int>)
    ensures Accepted(PersonalIssues(f, now, parseDate)) <==> PersonalValid(f, now, parseDate)
  {
  }

  lemma BankAcceptedIff(f: ProfileForm)
    ensures Accepted(BankIssues(f)) <==> BankValid(f)
  {
  }

  /** Every required field left empty is reported with its own message. */
  lemma EmptyRequiredFieldsRejected(f: ProfileForm, now: int, parseDate: string -> Option<int>)
    ensures var issues := ProfileIssues(f, now, parseDate);
      && (f.birthDate == "" ==> Issue("birthDate", "生年月日は必須です") in issues)
      && (f.gender == "" ==> Issue("gender", "性別を選択してください") in issues)
      && (f.address == "" ==> Issue("address", "現住所は必須です") in issues)
      && (f.contact1Name == "" ==> Issue("emergencyContact1Name", "緊急連絡先1のお名前は必須です") in issues)
      && (f.contact1Relationship == "" ==> Issue("emergencyContact1Relationship", "緊急連絡先1の続柄は必須です") in issues)
      && (f.contact1Phone == "" ==> Issue("emergencyContact1Phone", "緊急連絡先1の電話番号は必須です") in issues)
      && (f.bankName == "" ==> Issue("bankName", "銀行名は必須です") in issues)
      && (f.branchName == "" ==> Issue("branchName", "支店名は必須です") in issues)
      && (f.accountNumber == "" ==> Issue("accountNumber", "口座番号は必須です") in issues)
      && (f.accountType == "" ==> Issue("accountType", "口座種別を選択してください") in issues)
      && (f.healthInsuranceNumber == "" ==> Issue("healthInsuranceNumber", "健康保険番号は必須です") in issues)
      && (f.pensionNumber == "" ==> Issue("pensionNumber", "基礎年金番号は必須です") in issues)
  {
    var p, c, b, n := PersonalIssues(f, now, parseDate), ContactIssues(f), BankIssues(f), InsuranceIssues(f);
    assert ProfileIssues(f, now, parseDate) == p + c + b + n;
    assert f.birthDate == "" ==> Issue("birthDate", "生年月日は必須です") in p;
    assert f.gender == "" ==> Issue("gender", "性別を選択してください") in p;
    assert f.address == "" ==> Issue("address", "現住所は必須です") in p;
    ContactsRequired(f);
    BankRequired(f);
    InsuranceRequired(f);
  }

  lemma ContactsRequired(f: ProfileForm)
    ensures var c := ContactIssues(f);
      && (f.contact1Name == "" ==> Issue("emergencyContact1Name", "緊急連絡先1のお名前は必須です") in c)
      && (f.contact1Relationship == "" ==> Issue("emergencyContact1Relationship", "緊急連絡先1の続柄は必須です") in c)
      && (f.contact1Phone == "" ==> Issue("emergencyContact1Phone", "緊急連絡先1の電話番号は必須です") in c)
  {
  }

  lemma BankRequired(f: ProfileForm)
    ensures var b := BankIssues(f);
      && (f.bankName == "" ==> Issue("bankName", "銀行名は必須です") in b)
      && (f.branchName == "" ==> Issue("branchName", "支店名は必須です") in b)
      && (f.accountNumber == "" ==> Issue("accountNumber", "口座番号は必須です") in b)
      && (f.accountType == "" ==> Issue("accountType", "口座種別を選択してください") in b)
  {
  }

  lemma InsuranceRequired(f: ProfileForm)
    ensures var n := InsuranceIssues(f);
      && (f.healthInsuranceNumber == "" ==> Issue("healthInsuranceNumber", "健康保険番号は必須です") in n)
      && (f.pensionNumber == "" ==> Issue("pensionNumber", "基礎年金番号は必須です") in n)
  {
  }

  /** The second contact's name and relationship are free: changing them never changes the result. */
  lemma SecondContactOptional(f: ProfileForm, name: Option<string>, relationship: Option<string>, now: int, parseDate: string -> Option<int>)
    ensures ProfileIssues(f.(contact2Name := name, contact2Relationship := relationship), now, parseDate) == ProfileIssues(f, now, parseDate)
  {
  }
}
