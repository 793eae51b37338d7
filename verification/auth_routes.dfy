/** The `/auth` routes: log-in with its allow-list restriction, log-out by blacklisting the
    presented token, and the administrator's management of the allow list. The settings object
    that holds the restriction is passed in and returned; writing it to disk is left out. */
module AuthRoutes {
  import opened Wrappers
  import opened Text
  import opened Sequences
  import opened Users
  import opened Security
  import opened AuthDependencies

  /** `settings.enable_login_restriction` and `settings.allowed_users`. */
  datatype LoginSettings = LoginSettings(enableRestriction: bool, allowedUsers: seq<string>)

  /** `check_login_restriction`. */
  predicate LoginAllowed(settings: LoginSettings, email: string) {
    !settings.enableRestriction || email in settings.allowedUsers
  }

  const NotPermittedMessage := "このアカウントでのログインは許可されていません"
  const BadCredentialsMessage := "メールアドレスまたはパスワードが正しくありません"
  const LoggedOutMessage := "ログアウトしました"

  /** The claims a fresh access token carries. */
  datatype Claims = Claims(sub: string, userId: int, role: string)

  datatype Token = Token(accessToken: string, tokenType: string)

  /** The log-in decision shared by `login` and `login_form`: the allow list first, then the
      account, then the password, then the active flag. Password checking is a parameter. */
  function Authenticate(settings: LoginSettings, dir: Directory, email: string, password: string,
                        verify: (string, string) -> bool): (r: Result<Claims, HttpError>)
    ensures r.Ok? <==>
      && LoginAllowed(settings, email)
      && FindByEmail(dir, email).Some?
      && verify(password, dir[FindByEmail(dir, email).value].hashedPassword)
      && dir[FindByEmail(dir, email).value].isActive
    ensures r.Ok? ==> var u := dir[FindByEmail(dir, email).value];
      r.value == Claims(u.email, u.id, RoleValue(u.role)) && r.value.sub == email
    ensures r.Err? ==> r.error.status in {Forbidden, Unauthorized, BadRequest}
  {
    if !LoginAllowed(settings, email) then Err(HttpError(Forbidden, NotPermittedMessage))
    else match FindByEmail(dir, email)
      case None => Err(HttpError(Unauthorized, BadCredentialsMessage))
      case Some(i) =>
        var u := dir[i];
        if !verify(password, u.hashedPassword) then Err(HttpError(Unauthorized, BadCredentialsMessage))
        else if !u.isActive then Err(HttpError(BadRequest, InactiveMessage))
        else Ok(Claims(u.email, u.id, RoleValue(u.role)))
  }

  /** Every outcome of a log-in attempt, in the order the checks run. */
  lemma AuthenticateOutcomes(settings: LoginSettings, dir: Directory, email: string, password: string,
                             verify: (string, string) -> bool)
    ensures var r := Authenticate(settings, dir, email, password, verify);
      var found := FindByEmail(dir, email);
      && (!LoginAllowed(settings, email) ==> r == Err(HttpError(Forbidden, NotPermittedMessage)))
      && (LoginAllowed(settings, email) && found.None? ==> r == Err(HttpError(Unauthorized, BadCredentialsMessage)))
      && (LoginAllowed(settings, email) && found.Some? ==>
            var u := dir[found.value];
            && (!verify(password, u.hashedPassword) ==> r == Err(HttpError(Unauthorized, BadCredentialsMessage)))
            && (verify(password, u.hashedPassword) && !u.isActive ==> r == Err(HttpError(BadRequest, InactiveMessage))))
  {
  }

  /** An unknown address and a wrong password get the same answer, so the reply does not tell
      which addresses have accounts; whether an account is inactive is told only to a caller who
      knows its password. */
  lemma CredentialsNotDisclosed(settings: LoginSettings, dir: Directory, email: string, password: string,
                                verify: (string, string) -> bool)
    ensures var r := Authenticate(settings, dir, email, password, verify);
      r.Err? && r.error.status == Unauthorized ==> r.error.detail == BadCredentialsMessage
    ensures var r := Authenticate(settings, dir, email, password, verify);
      r == Err(HttpError(BadRequest, InactiveMessage)) ==>
        FindByEmail(dir, email).Some? && verify(password, dir[FindByEmail(dir, email).value].hashedPassword)
  {
  }

  /** With the restriction switched off every address may try; with it on, exactly the listed
      ones. */
  lemma RestrictionGate(settings: LoginSettings, email: string)
    ensures !settings.enableRestriction ==> LoginAllowed(settings, email)
    ensures settings.enableRestriction ==> (LoginAllowed(settings, email) <==> email in settings.allowedUsers)
  {
  }

  datatype UserLogin = UserLogin(email: string, password: string)

  /** Pydantic's reading of the JSON body into `UserLogin`: the `EmailStr` field checks the address
      and normalises it (the domain is lower-cased). Checking and normalising are the parameter
      `normalize`; a refused address is a validation error, and no `UserLogin` is built. */
  function ParseUserLogin(email: string, password: string, normalize: string -> Option<string>): (r: Option<UserLogin>)
    ensures r.None? <==> normalize(email).None?
    ensures r.Some? ==> r.value.password == password && r.value.email == normalize(email).value
    ensures normalize(email) == Some(email) ==> r == Some(UserLogin(email, password))
  {
    match normalize(email)
    case None => None
    case Some(e) => Some(UserLogin(e, password))
  }

  /** The OAuth2 password form: the e-mail travels as `username`. */
  datatype PasswordForm = PasswordForm(username: string, password: string)

  /** `login`: the token is the signed claims; signing (with its expiry) is a parameter. */
  function Login(settings: LoginSettings, dir: Directory, credentials: UserLogin,
                 verify: (string, string) -> bool, sign: Claims -> string): (r: Result<Token, HttpError>)
    ensures r.Ok? <==> Authenticate(settings, dir, credentials.email, credentials.password, verify).Ok?
    ensures r.Ok? ==> r.value == Token(sign(Authenticate(settings, dir, credentials.email, credentials.password, verify).value), "bearer")
    ensures r.Err? ==> r.error == Authenticate(settings, dir, credentials.email, credentials.password, verify).error
  {
    match Authenticate(settings, dir, credentials.email, credentials.password, verify)
    case Err(e) => Err(e)
    case Ok(c) => Ok(Token(sign(c), "bearer"))
  }

  /** `login_form`. */
  function LoginForm(settings: LoginSettings, dir: Directory, form: PasswordForm,
                     verify: (string, string) -> bool, sign: Claims -> string): (r: Result<Token, HttpError>)
    ensures r.Ok? <==> Authenticate(settings, dir, form.username, form.password, verify).Ok?
  {
    match Authenticate(settings, dir, form.username, form.password, verify)
    case Err(e) => Err(e)
    case Ok(c) => Ok(Token(sign(c), "bearer"))
  }

  /** For an address already in `EmailStr`'s normal form, the two log-in routes answer alike:
      the JSON body reads back the same address, and both routes run the same checks on it. */
  lemma LoginRoutesAgree(settings: LoginSettings, dir: Directory, email: string, password: string,
                         normalize: string -> Option<string>, verify: (string, string) -> bool, sign: Claims -> string)
    requires normalize(email) == Some(email)
    ensures ParseUserLogin(email, password, normalize) == Some(UserLogin(email, password))
    ensures LoginForm(settings, dir, PasswordForm(email, password), verify, sign)
         == Login(settings, dir, ParseUserLogin(email, password, normalize).value, verify, sign)
  {
  }

  /** For an address that normalisation changes, the routes can differ: the form route looks up
      the raw text, so an account stored under the normalised address can log in through the JSON
      route and not through the form. */
  lemma LoginRoutesDifferOnUnnormalized(settings: LoginSettings, dir: Directory, email: string, password: string,
                                        normalize: string -> Option<string>, verify: (string, string) -> bool,
                                        sign: Claims -> string)
    requires normalize(email).Some? && FindByEmail(dir, email).None?
    requires Authenticate(settings, dir, normalize(email).value, password, verify).Ok?
    ensures Login(settings, dir, ParseUserLogin(email, password, normalize).value, verify, sign).Ok?
    ensures LoginForm(settings, dir, PasswordForm(email, password), verify, sign).Err?
  {
  }

  /** Signing and decoding agree: a signed token decodes to its claims. */
  ghost predicate SigningRoundTrips(sign: Claims -> string, decode: string -> Option<Payload>) {
    forall c: Claims :: decode(sign(c)) == Some(Payload(Some(c.sub), Some(c.userId), Some(c.role)))
  }

  /** A token just issued by log-in opens the active-user guard, and names the user who logged
      in, as long as it has not been blacklisted. */
  lemma IssuedTokenOpensGuard(settings: LoginSettings, dir: Directory, credentials: UserLogin, b: Blacklist,
                              verify: (string, string) -> bool, sign: Claims -> string,
                              decode: string -> Option<Payload>)
    requires SigningRoundTrips(sign, decode)
    requires Login(settings, dir, credentials, verify, sign).Ok?
    requires Login(settings, dir, credentials, verify, sign).value.accessToken !in b
    ensures FindByEmail(dir, credentials.email).Some?
    ensures CurrentActiveUser(b, dir, Login(settings, dir, credentials, verify, sign).value.accessToken, decode)
         == Ok(dir[FindByEmail(dir, credentials.email).value])
  {
    var c := Authenticate(settings, dir, credentials.email, credentials.password, verify).value;
    assert decode(sign(c)) == Some(Payload(Some(c.sub), Some(c.userId), Some(c.role)));
  }

  /** `logout`: the active-user guard runs on the credentials the bearer scheme extracted (passed
      in, with its own refusal), then the token read from the header is blacklisted. */
  function Logout(b: Blacklist, dir: Directory, credentials: Result<string, HttpError>, header: Option<string>,
                  decode: string -> Option<Payload>): (r: Result<Blacklist, HttpError>)
    ensures r.Ok? <==>
      && credentials.Ok?
      && CurrentActiveUser(b, dir, credentials.value, decode).Ok?
      && TokenFromHeader(header).Ok?
    ensures r.Ok? ==> r.value == AddToBlacklist(b, TokenFromHeader(header).value)
    ensures r.Ok? ==> b <= r.value
  {
    match credentials
    case Err(e) => Err(e)
    case Ok(token) =>
      match CurrentActiveUser(b, dir, token, decode)
      case Err(e) => Err(e)
      case Ok(_) =>
        match TokenFromHeader(header)
        case Err(e) => Err(e)
        case Ok(t) => Ok(AddToBlacklist(b, t))
  }

  /** After logging out with `Authorization: Bearer <token>`, that token is refused by every
      guard, whatever it decodes to. */
  lemma LogoutLocksToken(b: Blacklist, dir: Directory, token: string, decode: string -> Option<Payload>)
    requires Free(token, ' ')
    requires Logout(b, dir, Ok(token), Some(BearerPrefix + token), decode).Ok?
    ensures CurrentUser(Logout(b, dir, Ok(token), Some(BearerPrefix + token), decode).value, dir, token, decode)
         == Err(HttpError(Unauthorized, AuthFailedMessage))
  {
    var h := BearerPrefix + token;
    assert h[..|BearerPrefix|] == BearerPrefix;
    assert StartsWith(h, BearerPrefix);
    assert h[|BearerPrefix|..] == token;
    assert IndexOf(token, ' ') == |token|;
    assert token[..|token|] == token;
    assert TokenFromHeader(Some(h)) == Ok(token);
  }

  /** `logout_with_token`: no guard at all; any caller may blacklist any string. */
  function LogoutWithToken(b: Blacklist, token: string): (r: Blacklist)
    ensures IsTokenBlacklisted(r, token) && b <= r
  {
    AddToBlacklist(b, token)
  }

  datatype LogoutStatusReport = LogoutStatusReport(userEmail: string, tokenBlacklisted: bool, message: string)

  const RevokedMessage := "トークンは無効化されています"
  const StillValidMessage := "トークンは有効です"

  /** `check_logout_status`: behind the active-user guard, reports whether the header's token is
      blacklisted. */
  function LogoutStatus(b: Blacklist, dir: Directory, credentials: Result<string, HttpError>, header: Option<string>,
                        decode: string -> Option<Payload>): (r: Result<LogoutStatusReport, HttpError>)
    ensures r.Ok? <==>
      && credentials.Ok?
      && CurrentActiveUser(b, dir, credentials.value, decode).Ok?
      && TokenFromHeader(header).Ok?
    ensures r.Ok? ==> r.value.userEmail == CurrentActiveUser(b, dir, credentials.value, decode).value.email
    ensures r.Ok? ==> (r.value.tokenBlacklisted <==> TokenFromHeader(header).value in b)
    ensures r.Ok? ==> (r.value.message == RevokedMessage <==> r.value.tokenBlacklisted)
  {
    match credentials
    case Err(e) => Err(e)
    case Ok(token) =>
      match CurrentActiveUser(b, dir, token, decode)
      case Err(e) => Err(e)
      case Ok(u) =>
        match TokenFromHeader(header)
        case Err(e) => Err(e)
        case Ok(t) =>
          var listed := IsTokenBlacklisted(b, t);
          Ok(LogoutStatusReport(u.email, listed, if listed then RevokedMessage else StillValidMessage))
  }

  /** When the guard and the header read the same token, the status can never say "revoked": a
      blacklisted token is refused by the guard before the check is reached. After a logout the
      same request is a 401. */
  lemma LogoutStatusNeverRevoked(b: Blacklist, dir: Directory, token: string, header: Option<string>,
                                 decode: string -> Option<Payload>)
    requires TokenFromHeader(header) == Ok(token)
    ensures var r := LogoutStatus(b, dir, Ok(token), header, decode);
      r.Ok? ==> !r.value.tokenBlacklisted && r.value.message == StillValidMessage
    ensures LogoutStatus(AddToBlacklist(b, token), dir, Ok(token), header, decode)
         == Err(HttpError(Unauthorized, AuthFailedMessage))
  {
    LoggedOutTokenLocked(b, dir, token, decode);
  }

  /** `get_allowed_users`, behind the administrator guard. */
  function AllowedUsers(guard: Result<User, HttpError>, settings: LoginSettings): (r: Result<seq<string>, HttpError>)
    ensures guard.Err? ==> r == Err(guard.error)
    ensures guard.Ok? ==> r == Ok(settings.allowedUsers)
  {
    if guard.Err? then Err(guard.error) else Ok(settings.allowedUsers)
  }

  /** `add_allowed_user`, behind the administrator guard: appends the address unless it is
      already listed. */
  function AddAllowedUser(guard: Result<User, HttpError>, settings: LoginSettings, email: string): (r: Result<LoginSettings, HttpError>)
    ensures guard.Err? ==> r == Err(guard.error)
    ensures r.Ok? <==> guard.Ok?
    ensures r.Ok? ==> email in r.value.allowedUsers
    ensures r.Ok? ==> forall x :: x in r.value.allowedUsers <==> x in settings.allowedUsers || x == email
    ensures r.Ok? ==> r.value.enableRestriction == settings.enableRestriction
    ensures r.Ok? && email in settings.allowedUsers ==> r.value == settings
    ensures r.Ok? && email !in settings.allowedUsers ==> r.value.allowedUsers == settings.allowedUsers + [email]
  {
    if guard.Err? then Err(guard.error)
    else if email in settings.allowedUsers then Ok(settings)
    else Ok(settings.(allowedUsers := settings.allowedUsers + [email]))
  }

  function AddedMessage(email: string): string {
    "ユーザー " + email + " が許可リストに追加されました"
  }

  /** Adding is idempotent and never introduces a duplicate entry. */
  lemma AddAllowedUserIdempotent(admin: User, settings: LoginSettings, email: string)
    ensures var once := AddAllowedUser(Ok(admin), settings, email).value;
      && AddAllowedUser(Ok(admin), once, email) == Ok(once)
      && (NoDuplicates(settings.allowedUsers) ==> NoDuplicates(once.allowedUsers))
  {
  }

  /** `list.remove`: drops the first occurrence. */
  function RemoveFirst(xs: seq<string>, x: string): (r: seq<string>)
    requires x in xs
    ensures r == xs[..FirstIndex(xs, x)] + xs[FirstIndex(xs, x) + 1..]
  {
    if xs[0] == x then xs[1..]
    else
      var rest := RemoveFirst(xs[1..], x);
      assert FirstIndex(xs, x) == 1 + FirstIndex(xs[1..], x);
      assert xs[..FirstIndex(xs, x)] == [xs[0]] + xs[1..][..FirstIndex(xs[1..], x)];
      [xs[0]] + rest
  }

  /** Removing takes exactly one copy of the value away and keeps everything else. */
  lemma RemoveFirstCounts(xs: seq<string>, x: string)
    requires x in xs
    ensures |RemoveFirst(xs, x)| == |xs| - 1
    ensures multiset(RemoveFirst(xs, x)) + multiset{x} == multiset(xs)
  {
    var k := FirstIndex(xs, x);
    var a, b := xs[..k], xs[k + 1..];
    assert xs == a + [x] + b;
    DropOneCounts(a, x, b);
  }

  lemma DropOneCounts(a: seq<string>, x: string, b: seq<string>)
    ensures |a + b| == |a + [x] + b| - 1
    ensures multiset(a + b) + multiset{x} == multiset(a + [x] + b)
  {
  }

  const NotListedMessage := "指定されたユーザーは許可リストに存在しません"

  /** `remove_allowed_user`, behind the administrator guard: 404 when the address is not
      listed. */
  function RemoveAllowedUser(guard: Result<User, HttpError>, settings: LoginSettings, email: string): (r: Result<LoginSettings, HttpError>)
    ensures guard.Err? ==> r == Err(guard.error)
    ensures guard.Ok? ==> (r.Err? <==> email !in settings.allowedUsers)
    ensures guard.Ok? && r.Err? ==> r.error == HttpError(NotFound, NotListedMessage)
    ensures r.Ok? ==> r.value.enableRestriction == settings.enableRestriction
    ensures r.Ok? ==> multiset(r.value.allowedUsers) + multiset{email} == multiset(settings.allowedUsers)
  {
    if guard.Err? then Err(guard.error)
    else if email in settings.allowedUsers then
      RemoveFirstCounts(settings.allowedUsers, email);
      Ok(settings.(allowedUsers := RemoveFirst(settings.allowedUsers, email)))
    else Err(HttpError(NotFound, NotListedMessage))
  }

  function RemovedMessage(email: string): string {
    "ユーザー " + email + " が許可リストから削除されました"
  }

  /** Removing undoes adding an address that was not listed. */
  lemma RemoveUndoesAdd(admin: User, settings: LoginSettings, email: string)
    requires email !in settings.allowedUsers
    ensures RemoveAllowedUser(Ok(admin), AddAllowedUser(Ok(admin), settings, email).value, email) == Ok(settings)
  {
    var xs := settings.allowedUsers;
    var ys := xs + [email];
    assert email in ys && ys[|xs|] == email;
    assert forall j :: 0 <= j < |xs| ==> ys[j] != email;
    assert FirstIndex(ys, email) == |xs|;
    assert ys[..|xs|] == xs && ys[|xs| + 1..] == [];
    assert RemoveFirst(ys, email) == xs;
  }

  /** On a list without duplicates, a removed address can no longer log in while the
      restriction is on. */
  lemma RemovedUserLockedOut(admin: User, settings: LoginSettings, email: string)
    requires NoDuplicates(settings.allowedUsers) && email in settings.allowedUsers
    requires settings.enableRestriction
    ensures !LoginAllowed(RemoveAllowedUser(Ok(admin), settings, email).value, email)
  {
    var xs := settings.allowedUsers;
    var r := RemoveAllowedUser(Ok(admin), settings, email).value.allowedUsers;
    assert multiset(r)[email] + 1 == multiset(xs)[email];
    NoDuplicatesCountsOnce(xs, email);
  }

  /** Each entry of a list without duplicates occurs once. */
  lemma {:induction false} NoDuplicatesCountsOnce(xs: seq<string>, x: string)
    requires NoDuplicates(xs) && x in xs
    ensures multiset(xs)[x] == 1
  {
    if xs[0] == x {
      assert x !in xs[1..];
      assert xs == [x] + xs[1..];
    } else {
      assert xs == [xs[0]] + xs[1..];
      NoDuplicatesCountsOnce(xs[1..], x);
    }
  }

  /** `toggle_login_restriction`, behind the administrator guard. */
  function ToggleLoginRestriction(guard: Result<User, HttpError>, settings: LoginSettings, enable: bool): (r: Result<(LoginSettings, string), HttpError>)
    ensures guard.Err? ==> r == Err(guard.error)
    ensures r.Ok? <==> guard.Ok?
    ensures r.Ok? ==> r.value.0.enableRestriction == enable && r.value.0.allowedUsers == settings.allowedUsers
    ensures r.Ok? ==> r.value.1 == if enable then "ログイン制限が有効になりました" else "ログイン制限が無効になりました"
  {
    if guard.Err? then Err(guard.error)
    else Ok((settings.(enableRestriction := enable), "ログイン制限が" + (if enable then "有効" else "無効") + "になりました"))
  }

  /** Switching the restriction off lets every address through; switching it on leaves exactly
      the listed ones. */
  lemma ToggleGovernsLogin(admin: User, settings: LoginSettings, enable: bool, email: string)
    ensures LoginAllowed(ToggleLoginRestriction(Ok(admin), settings, enable).value.0, email) <==> !enable || email in settings.allowedUsers
  {
  }

  /** A caller who is signed in and active but not an administrator cannot read or change the
      login restriction: every allowed-users route answers 403. */
  lemma NonAdminsCannotManageLogins(b: Blacklist, dir: Directory, token: string, decode: string -> Option<Payload>,
                                    settings: LoginSettings, email: string, enable: bool)
    requires CurrentActiveUser(b, dir, token, decode).Ok?
    requires CurrentActiveUser(b, dir, token, decode).value.role != Admin
    ensures var guard := CurrentAdminUser(b, dir, token, decode);
      && AllowedUsers(guard, settings) == Err(HttpError(Forbidden, AdminRequiredMessage))
      && AddAllowedUser(guard, settings, email) == Err(HttpError(Forbidden, AdminRequiredMessage))
      && RemoveAllowedUser(guard, settings, email) == Err(HttpError(Forbidden, AdminRequiredMessage))
      && ToggleLoginRestriction(guard, settings, enable) == Err(HttpError(Forbidden, AdminRequiredMessage))
  {
  }
}
