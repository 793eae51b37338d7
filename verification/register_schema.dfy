/** The registration form's schema: names of at least two characters, an e-mail address, a
    password of at least eight characters with an upper-case letter, a lower-case letter and a
    digit, a confirmation equal to it, and accepted terms. The e-mail format check is a
    parameter. */
module RegisterSchema {
  import opened Wrappers
  import opened Text
  import opened Forms

  datatype RegisterForm = RegisterForm(
    firstName: string,
    lastName: string,
    email: string,
    password: string,
    confirmPassword: string,
    termsAccepted: bool)

  const MismatchMessage := "パスワードが一致しません"

  /** The password field's checks, in order; each runs whatever the earlier ones found. */
  function PasswordIssues(password: string): (issues: seq<Issue>)
    ensures forall i :: i in issues ==> i.path == "password"
  {
    Required(password, "password", "パスワードは必須です")
    + Check(|password| >= 8, "password", "パスワードは8文字以上で入力してください")
    + Check(HasChar(password, IsUpper), "password", "パスワードには大文字を含む必要があります")
    + Check(HasChar(password, IsLower), "password", "パスワードには小文字を含む必要があります")
    + Check(HasChar(password, IsDigit), "password", "パスワードには数字を含む必要があります")
  }

  /** The password rule of the form: long enough, with an upper-case letter, a lower-case
      letter and a digit; no symbol is needed. */
  predicate StrongEnough(password: string) {
    && |password| >= 8
    && (exists i :: 0 <= i < |password| && 'A' <= password[i] <= 'Z')
    && (exists i :: 0 <= i < |password| && 'a' <= password[i] <= 'z')
    && (exists i :: 0 <= i < |password| && '0' <= password[i] <= '9')
  }

  lemma PasswordIssuesIff(password: string)
    ensures PasswordIssues(password) == [] <==> StrongEnough(password)
  {
  }

  /** `registerSchema`: the fields in order, then the refinement comparing the two passwords,
      whose issue is attached to the confirmation. */
  function RegisterIssues(f: RegisterForm, isEmail: string -> bool): seq<Issue> {
    FieldIssues(f, isEmail) + Check(f.password == f.confirmPassword, "confirmPassword", MismatchMessage)
  }

  /** The issues of the individual fields, in declaration order. A filled-in confirmation has
      none of its own. */
  function FieldIssues(f: RegisterForm, isEmail: string -> bool): (issues: seq<Issue>)
    ensures f.confirmPassword != "" ==> Avoids(issues, "confirmPassword")
  {
    var first := NameIssues(f.firstName, "firstName", "名は必須です", "名は2文字以上で入力してください");
    var last := NameIssues(f.lastName, "lastName", "姓は必須です", "姓は2文字以上で入力してください");
    var email := Required(f.email, "email", "メールアドレスは必須です")
      + Check(isEmail(f.email), "email", "正しいメールアドレス形式で入力してください");
    var password := PasswordIssues(f.password);
    var confirm := Required(f.confirmPassword, "confirmPassword", "パスワード確認は必須です");
    var terms := Check(f.termsAccepted, "termsAccepted", "利用規約に同意してください");
    if f.confirmPassword != "" then
      FieldsAvoidConfirmation(first, last, email, password, terms);
      assert confirm == [];
      first + last + email + password + confirm + terms
    else
      first + last + email + password + confirm + terms
  }

  /** Issues that all sit on one path avoid every other path. */
  lemma AvoidsOtherPath(issues: seq<Issue>, onPath: string, path: string)
    requires forall i :: i in issues ==> i.path == onPath
    requires |onPath| != |path|
    ensures Avoids(issues, path)
  {
    forall k | 0 <= k < |issues| ensures issues[k].path != path {
      assert issues[k] in issues;
    }
  }

  /** The issues of every field but the confirmation avoid the confirmation's path. */
  lemma FieldsAvoidConfirmation(first: seq<Issue>, last: seq<Issue>, email: seq<Issue>, password: seq<Issue>, terms: seq<Issue>)
    requires forall i :: i in first ==> i.path == "firstName"
    requires forall i :: i in last ==> i.path == "lastName"
    requires forall i :: i in email ==> i.path == "email"
    requires forall i :: i in password ==> i.path == "password"
    requires forall i :: i in terms ==> i.path == "termsAccepted"
    ensures Avoids(first + last + email + password + [] + terms, "confirmPassword")
  {
    var cp := "confirmPassword";
    AvoidsOtherPath(first, "firstName", cp);
    AvoidsOtherPath(last, "lastName", cp);
    AvoidsOtherPath(email, "email", cp);
    AvoidsOtherPath(password, "password", cp);
    AvoidsOtherPath(terms, "termsAccepted", cp);
    AvoidsConcat(first, last, cp);
    AvoidsConcat(first + last, email, cp);
    AvoidsConcat(first + last + email, password, cp);
    assert first + last + email + password + [] == first + last + email + password;
    AvoidsConcat(first + last + email + password, terms, cp);
  }

  /** A name: `.min(1, required).min(2, tooShort)`; both run, so the empty name gets both. */
  function NameIssues(name: string, path: string, required: string, tooShort: string): (issues: seq<Issue>)
    ensures issues == [] <==> |name| >= 2
    ensures name == "" ==> issues == [Issue(path, required), Issue(path, tooShort)]
    ensures |name| == 1 ==> issues == [Issue(path, tooShort)]
    ensures forall i :: i in issues ==> i.path == path
  {
    Required(name, path, required) + Check(|name| >= 2, path, tooShort)
  }

  /** A registration is accepted iff both names have at least two characters, the e-mail is
      non-empty and well formed, the password is strong enough, the confirmation repeats it and
      the terms are accepted. */
  lemma RegisterAcceptedIff(f: RegisterForm, isEmail: string -> bool)
    ensures Accepted(RegisterIssues(f, isEmail)) <==>
      && |f.firstName| >= 2 && |f.lastName| >= 2
      && f.email != "" && isEmail(f.email)
      && StrongEnough(f.password)
      && f.confirmPassword == f.password
      && f.termsAccepted
  {
    PasswordIssuesIff(f.password);
  }

  /** A filled-in confirmation that differs from the password shows the mismatch message, on the
      confirmation field. */
  lemma MismatchShownOnConfirmation(f: RegisterForm, isEmail: string -> bool)
    requires f.confirmPassword != "" && f.password != f.confirmPassword
    ensures ShownMessage(RegisterIssues(f, isEmail), "confirmPassword") == Some(MismatchMessage)
  {
    ShownMessageLast(FieldIssues(f, isEmail), Issue("confirmPassword", MismatchMessage));
  }

  /** An empty first name is reported first, with the "required" message. */
  lemma EmptyNameMessages(f: RegisterForm, isEmail: string -> bool)
    requires f.firstName == ""
    ensures |RegisterIssues(f, isEmail)| >= 2
    ensures RegisterIssues(f, isEmail)[0] == Issue("firstName", "名は必須です")
    ensures ShownMessage(RegisterIssues(f, isEmail), "firstName") == Some("名は必須です")
  {
    var issues := RegisterIssues(f, isEmail);
    var names := NameIssues(f.firstName, "firstName", "名は必須です", "名は2文字以上で入力してください");
    assert FieldIssues(f, isEmail)[0] == names[0];
    ShownMessageFirst(issues);
  }
}
