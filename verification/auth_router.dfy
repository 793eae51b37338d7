/** The `/auth` router the application mounts: registration with only the duplicate and length
    checks, and log-in without the allow-list restriction. */
module AuthRouter {
  import opened Wrappers
  import opened Text
  import opened Users
  import opened AuthService
  import opened AuthRoutes
  import opened AuthDependencies

  /** `register`: the e-mail must be free, then the password long enough. There is no
      letter-and-digit check; a taken employee id still fails at the insert. */
  function Register(dir: Directory, data: UserCreate, hash: string -> string): (r: Result<Created, CreateError>)
    ensures r == Err(EmailTaken) <==> FindByEmail(dir, data.email).Some?
    ensures r == Err(PasswordTooShort) <==> FindByEmail(dir, data.email).None? && |data.password| < MinPasswordLength
    ensures r != Err(PasswordNotAlphanumeric)
    ensures r.Ok? <==>
      && FindByEmail(dir, data.email).None? && |data.password| >= MinPasswordLength
      && !EmployeeIdInUse(dir, data.employeeId)
    ensures r.Ok? ==>
      && r.value.dir == dir + [r.value.user]
      && r.value.user.hashedPassword == hash(data.password)
      && r.value.user.email == data.email && r.value.user.isActive
      && forall k :: 0 <= k < |dir| ==> dir[k].id != r.value.user.id
  {
    if FindByEmail(dir, data.email).Some? then Err(EmailTaken)
    else if |data.password| < MinPasswordLength then Err(PasswordTooShort)
    else if EmployeeIdInUse(dir, data.employeeId) then Err(EmployeeIdTaken)
    else
      var u := NewUser(NextId(dir), data.email, hash(data.password), data.firstName, data.lastName,
                       data.role, data.department, data.employeeId);
      Ok(Created(dir + [u], u))
  }

  /** Everything the service accepts, this route accepts too, with the same new row. */
  lemma ServiceAcceptedIsRegistered(dir: Directory, data: UserCreate, hash: string -> string,
                                    isAlpha: char -> bool, isDigit: char -> bool)
    requires CreateUser(dir, data, hash, isAlpha, isDigit).Ok?
    ensures Register(dir, data, hash) == CreateUser(dir, data, hash, isAlpha, isDigit)
  {
  }

  /** The two differ exactly on the letter-and-digit check. */
  lemma RegisterDiffersOnStrength(dir: Directory, data: UserCreate, hash: string -> string,
                                  isAlpha: char -> bool, isDigit: char -> bool)
    ensures Register(dir, data, hash) != CreateUser(dir, data, hash, isAlpha, isDigit) <==>
      && FindByEmail(dir, data.email).None? && |data.password| >= MinPasswordLength
      && !PasswordStrengthOk(data.password, isAlpha, isDigit)
  {
  }

  /** A password of eight letters is registered here and refused by the service. */
  lemma LettersOnlyPassword(hash: string -> string)
    ensures var data := UserCreate("a@example.com", "abcdefgh", "Taro", "Yamada", Employee, None, None);
      && Register([], data, hash).Ok?
      && CreateUser([], data, hash, c => IsUpper(c) || IsLower(c), IsDigit) == Err(PasswordNotAlphanumeric)
  {
    var p := "abcdefgh";
    assert !HasChar(p, IsDigit) by {
      forall k | 0 <= k < |p| ensures !IsDigit(p[k]) { }
    }
  }

  /** `login` and `login_form` of this router: no allow list, then the account, the password and
      the active flag. */
  function Authenticate(dir: Directory, email: string, password: string,
                        verify: (string, string) -> bool): (r: Result<Claims, HttpError>)
    ensures r.Ok? <==>
      && FindByEmail(dir, email).Some?
      && verify(password, dir[FindByEmail(dir, email).value].hashedPassword)
      && dir[FindByEmail(dir, email).value].isActive
    ensures r.Ok? ==> var u := dir[FindByEmail(dir, email).value];
      r.value == Claims(email, u.id, RoleValue(u.role))
    ensures r.Err? ==> r.error.status != Forbidden
  {
    match FindByEmail(dir, email)
    case None => Err(HttpError(Unauthorized, BadCredentialsMessage))
    case Some(i) =>
      var u := dir[i];
      if !verify(password, u.hashedPassword) then Err(HttpError(Unauthorized, BadCredentialsMessage))
      else if !u.isActive then Err(HttpError(BadRequest, InactiveMessage))
      else Ok(Claims(u.email, u.id, RoleValue(u.role)))
  }

  /** This log-in is the restricted one with the restriction switched off. */
  lemma UnrestrictedLogin(dir: Directory, email: string, password: string, verify: (string, string) -> bool,
                          allowed: seq<string>)
    ensures Authenticate(dir, email, password, verify)
         == AuthRoutes.Authenticate(LoginSettings(false, allowed), dir, email, password, verify)
  {
  }

  /** An inactive account with a wrong password gets the same 401 as an unknown address. */
  lemma InactiveWithWrongPassword(dir: Directory, email: string, password: string, verify: (string, string) -> bool)
    requires FindByEmail(dir, email).Some?
    requires !verify(password, dir[FindByEmail(dir, email).value].hashedPassword)
    ensures Authenticate(dir, email, password, verify) == Err(HttpError(Unauthorized, BadCredentialsMessage))
  {
  }

  /** `login`: the token is the signed claims. */
  function Login(dir: Directory, credentials: UserLogin, verify: (string, string) -> bool,
                 sign: Claims -> string): (r: Result<Token, HttpError>)
    ensures r.Err? <==> Authenticate(dir, credentials.email, credentials.password, verify).Err?
    ensures r.Ok? ==> var u := dir[FindByEmail(dir, credentials.email).value];
      r.value == Token(sign(Claims(credentials.email, u.id, RoleValue(u.role))), "bearer")
  {
    match Authenticate(dir, credentials.email, credentials.password, verify)
    case Err(e) => Err(e)
    case Ok(c) => Ok(Token(sign(c), "bearer"))
  }
}
