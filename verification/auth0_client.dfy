/** The client helpers around the hosted log-in: the log-in and log-out links with their optional
    return address, and the user summary read from the session. The session lookup is a
    parameter, and so is the form encoding `URLSearchParams` applies to the return address. */
module Auth0Client {
  import opened Wrappers
  import opened Text

  const LoginBase := "/api/auth/login"
  const LogoutBase := "/api/auth/logout"
  const ReturnToKey := "returnTo="

  /** `params.toString()`: empty unless a non-empty return address was given. */
  function Query(returnTo: Option<string>, encode: string -> string): (q: string)
    ensures returnTo.None? || returnTo.value == "" ==> q == ""
    ensures returnTo.Some? && returnTo.value != "" ==> q == ReturnToKey + encode(returnTo.value)
  {
    if returnTo.Some? && returnTo.value != "" then ReturnToKey + encode(returnTo.value) else ""
  }

  /** The base path, followed by `?` and the query when the query is not empty. */
  function WithQuery(base: string, query: string): (url: string)
    ensures query == "" ==> url == base
    ensures query != "" ==> url == base + "?" + query
  {
    if query != "" then base + "?" + query else base
  }

  /** `getLoginUrl`. */
  function LoginUrl(returnTo: Option<string>, encode: string -> string): (url: string)
    ensures returnTo.None? || returnTo.value == "" ==> url == LoginBase
    ensures returnTo.Some? && returnTo.value != "" ==> url == LoginBase + "?" + ReturnToKey + encode(returnTo.value)
  {
    WithQuery(LoginBase, Query(returnTo, encode))
  }

  /** `getLogoutUrl`. */
  function LogoutUrl(returnTo: Option<string>, encode: string -> string): (url: string)
    ensures returnTo.None? || returnTo.value == "" ==> url == LogoutBase
    ensures returnTo.Some? && returnTo.value != "" ==> url == LogoutBase + "?" + ReturnToKey + encode(returnTo.value)
  {
    WithQuery(LogoutBase, Query(returnTo, encode))
  }

  /** Reading a link back: it starts with its base, and whatever follows `?returnTo=` is the
      encoded return address, so distinct encodings give distinct links. */
  lemma LinksReadBack(returnTo: string, encode: string -> string)
    requires returnTo != ""
    ensures var url := LoginUrl(Some(returnTo), encode);
      StartsWith(url, LoginBase) && url[|LoginBase| + 1 + |ReturnToKey|..] == encode(returnTo)
    ensures var url := LogoutUrl(Some(returnTo), encode);
      StartsWith(url, LogoutBase) && url[|LogoutBase| + 1 + |ReturnToKey|..] == encode(returnTo)
  {
    var e := encode(returnTo);
    var a := LoginBase + "?" + ReturnToKey + e;
    assert a[..|LoginBase|] == LoginBase;
    assert a[|LoginBase| + 1 + |ReturnToKey|..] == e;
    var b := LogoutBase + "?" + ReturnToKey + e;
    assert b[..|LogoutBase|] == LogoutBase;
    assert b[|LogoutBase| + 1 + |ReturnToKey|..] == e;
  }

  /** The two links never coincide: they differ in the base path. */
  lemma LoginAndLogoutDiffer(a: Option<string>, b: Option<string>, encode: string -> string)
    ensures LoginUrl(a, encode) != LogoutUrl(b, encode)
  {
    var l := LoginUrl(a, encode);
    var o := LogoutUrl(b, encode);
    assert l[..|LoginBase|] == LoginBase;
    assert o[..|LogoutBase|] == LogoutBase;
    assert l[13] == LoginBase[13] == 'i';
    assert o[13] == LogoutBase[13] == 'o';
  }

  /** The session user: `sub` and `email` may be missing at run time. */
  datatype SessionUser = SessionUser(sub: Option<string>, email: Option<string>, name: Option<string>, picture: Option<string>)

  datatype UserInfo = UserInfo(id: string, email: string, name: string, picture: Option<string>)

  /** A JavaScript string is truthy when present and not empty. */
  predicate Truthy(s: Option<string>) {
    s.Some? && s.value != ""
  }

  /** `getUserInfo`. */
  function GetUserInfo(user: Option<SessionUser>): (info: Option<UserInfo>)
    ensures info.None? <==> user.None? || !Truthy(user.value.sub) || !Truthy(user.value.email)
    ensures info.Some? ==> info.value.id == user.value.sub.value && info.value.email == user.value.email.value
    ensures info.Some? ==> info.value.name == (if Truthy(user.value.name) then user.value.name.value else user.value.email.value)
    ensures info.Some? ==> info.value.picture == user.value.picture
  {
    match user
    case None => None
    case Some(u) =>
      if !Truthy(u.sub) || !Truthy(u.email) then None
      else Some(UserInfo(u.sub.value, u.email.value, if Truthy(u.name) then u.name.value else u.email.value, u.picture))
  }

  /** A session as the session store returns it. */
  datatype Session = Session(user: Option<SessionUser>)

  /** `getUser`: the session's user; no session, no user in it, or a failing lookup all read as
      nobody logged in. The lookup's outcome is a parameter. */
  function GetUser(session: Result<Option<Session>, string>): (user: Option<SessionUser>)
    ensures user.Some? <==> session.Ok? && session.value.Some? && session.value.value.user.Some?
    ensures user.Some? ==> user == session.value.value.user
  {
    match session
    case Err(_) => None
    case Ok(None) => None
    case Ok(Some(s)) => s.user
  }

  /** `getAccessToken`: the token is asked for only when a session exists; an empty token, or
      either lookup failing, gives none. */
  function GetAccessToken(session: Result<Option<Session>, string>, token: Result<Option<string>, string>): (t: Option<string>)
    ensures t.Some? <==> session.Ok? && session.value.Some? && token.Ok? && Truthy(token.value)
    ensures t.Some? ==> t == token.value
  {
    match session
    case Err(_) => None
    case Ok(None) => None
    case Ok(Some(_)) =>
      match token
      case Err(_) => None
      case Ok(v) => if Truthy(v) then v else None
  }

  /** `isAuthenticated`: a session user is present. */
  predicate IsAuthenticated(user: Option<SessionUser>) {
    user.Some?
  }

  /** A summary exists only for a logged-in user, and its name is never empty. */
  lemma UserInfoOnlyWhenAuthenticated(user: Option<SessionUser>)
    ensures GetUserInfo(user).Some? ==> IsAuthenticated(user)
    ensures GetUserInfo(user).Some? ==> GetUserInfo(user).value.name != ""
    ensures IsAuthenticated(user) && GetUserInfo(user).None? ==> !Truthy(user.value.sub) || !Truthy(user.value.email)
  {
  }

  /** A failing or missing session reads as logged out, with no summary and no token. */
  lemma NoSessionNoUser(session: Result<Option<Session>, string>, token: Result<Option<string>, string>)
    requires session.Err? || session == Ok(None)
    ensures !IsAuthenticated(GetUser(session)) && GetUserInfo(GetUser(session)).None?
    ensures GetAccessToken(session, token).None?
  {
  }
}
