/** User creation behind `/auth/register`: the e-mail must be free, then the password must be
    long enough, then it must hold a letter and a digit; the stored password is its hash. Hashing
    and Python's Unicode-aware `isalpha`/`isdigit` are parameters. */
module AuthService {
  import opened Wrappers
  import opened Text
  import opened Users

  /** `settings.min_password_length`. */
  const MinPasswordLength := 8

  datatype UserCreate = UserCreate(
    email: string,
    password: string,
    firstName: string,
    lastName: string,
    role: Role,
    department: Option<string>,
    employeeId: Option<string>)

  /** The three checks of the service, and the table's unique constraint on employee ids, which
      rejects the insert itself. */
  datatype CreateError = EmailTaken | PasswordTooShort | PasswordNotAlphanumeric | EmployeeIdTaken

  /** The response each failure becomes; the constraint violation is not caught and surfaces as a
      server error. */
  function CreateErrorResponse(e: CreateError): (r: HttpError)
    ensures r.status == BadRequest <==> e != EmployeeIdTaken
  {
    match e
    case EmailTaken => HttpError(BadRequest, "このメールアドレスは既に使用されています")
    case PasswordTooShort => HttpError(BadRequest, "パスワードは" + NatToString(MinPasswordLength) + "文字以上である必要があります")
    case PasswordNotAlphanumeric => HttpError(BadRequest, "パスワードは英数字を含む必要があります")
    case EmployeeIdTaken => HttpError(ServerError, ServerErrorMessage)
  }

  lemma TooShortMessage()
    ensures CreateErrorResponse(PasswordTooShort).detail == "パスワードは8文字以上である必要があります"
  {
  }

  /** `_validate_password_strength`: some letter and some digit, as the classifiers judge them. */
  predicate PasswordStrengthOk(password: string, isAlpha: char -> bool, isDigit: char -> bool) {
    HasChar(password, isAlpha) && HasChar(password, isDigit)
  }

  /** The id the table assigns to a new row: one more than the largest in use. */
  function NextId(dir: Directory): (id: int)
    ensures forall k :: 0 <= k < |dir| ==> dir[k].id < id
  {
    if |dir| == 0 then 1
    else
      var rest := NextId(dir[1..]);
      if dir[0].id + 1 > rest then dir[0].id + 1 else rest
  }

  predicate EmployeeIdInUse(dir: Directory, employeeId: Option<string>) {
    employeeId.Some? && exists k :: 0 <= k < |dir| && dir[k].employeeId == employeeId
  }

  datatype Created = Created(dir: Directory, user: User)

  /** `AuthService.create_user`. */
  function CreateUser(dir: Directory, data: UserCreate, hash: string -> string,
                      isAlpha: char -> bool, isDigit: char -> bool): (r: Result<Created, CreateError>)
    ensures r == Err(EmailTaken) <==> FindByEmail(dir, data.email).Some?
    ensures r == Err(PasswordTooShort) <==> FindByEmail(dir, data.email).None? && |data.password| < MinPasswordLength
    ensures r == Err(PasswordNotAlphanumeric) <==>
      && FindByEmail(dir, data.email).None? && |data.password| >= MinPasswordLength
      && !PasswordStrengthOk(data.password, isAlpha, isDigit)
    ensures r.Ok? <==>
      && FindByEmail(dir, data.email).None? && |data.password| >= MinPasswordLength
      && PasswordStrengthOk(data.password, isAlpha, isDigit)
      && !EmployeeIdInUse(dir, data.employeeId)
    ensures r.Ok? ==>
      && r.value.dir == dir + [r.value.user]
      && r.value.user.hashedPassword == hash(data.password)
      && r.value.user.email == data.email && r.value.user.role == data.role
      && r.value.user.employeeId == data.employeeId
      && r.value.user.isActive
      && forall k :: 0 <= k < |dir| ==> dir[k].id != r.value.user.id
  {
    if FindByEmail(dir, data.email).Some? then Err(EmailTaken)
    else if |data.password| < MinPasswordLength then Err(PasswordTooShort)
    else if !PasswordStrengthOk(data.password, isAlpha, isDigit) then Err(PasswordNotAlphanumeric)
    else if EmployeeIdInUse(dir, data.employeeId) then Err(EmployeeIdTaken)
    else
      var u := NewUser(NextId(dir), data.email, hash(data.password), data.firstName, data.lastName,
                       data.role, data.department, data.employeeId);
      Ok(Created(dir + [u], u))
  }

  /** Creating a user keeps the table's uniqueness constraints. */
  lemma CreateUserKeepsWellFormed(dir: Directory, data: UserCreate, hash: string -> string,
                                  isAlpha: char -> bool, isDigit: char -> bool)
    requires WellFormed(dir)
    requires CreateUser(dir, data, hash, isAlpha, isDigit).Ok?
    ensures WellFormed(CreateUser(dir, data, hash, isAlpha, isDigit).value.dir)
  {
    var c := CreateUser(dir, data, hash, isAlpha, isDigit).value;
    var d := c.dir;
    forall i, j | 0 <= i < j < |d|
      ensures d[i].id != d[j].id && d[i].email != d[j].email
      ensures d[i].employeeId.Some? ==> d[i].employeeId != d[j].employeeId
    {
      if j == |dir| {
        assert d[i] == dir[i];
        assert d[i].email != data.email;
      }
    }
  }

  /** After a successful creation the new user is found by e-mail, at the end of the table. */
  lemma CreatedUserFound(dir: Directory, data: UserCreate, hash: string -> string,
                         isAlpha: char -> bool, isDigit: char -> bool)
    requires CreateUser(dir, data, hash, isAlpha, isDigit).Ok?
    ensures var c := CreateUser(dir, data, hash, isAlpha, isDigit).value;
      FindByEmail(c.dir, data.email) == Some(|dir|)
  {
    var c := CreateUser(dir, data, hash, isAlpha, isDigit).value;
    assert forall j :: 0 <= j < |dir| ==> c.dir[j].email != data.email by {
      assert forall j :: 0 <= j < |dir| ==> c.dir[j] == dir[j];
    }
    assert c.dir[|dir|].email == data.email;
  }
}
