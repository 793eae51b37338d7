/** The request guards: reading the bearer token from the `Authorization` header, and resolving
    the current user, then requiring it to be active, then requiring it to be an administrator. */
module AuthDependencies {
  import opened Wrappers
  import opened Text
  import opened Users
  import opened Security

  const BearerPrefix := "Bearer "

  const MissingTokenMessage := "認証トークンが必要です"

  /** `get_token_from_request`: the header must be present, non-empty and start with
      "Bearer " (case and space included); the token is the second space-separated piece. */
  function TokenFromHeader(header: Option<string>): (r: Result<string, HttpError>)
    ensures r.Err? <==> header.None? || !StartsWith(header.value, BearerPrefix)
    ensures r.Err? ==> r.error == HttpError(Unauthorized, MissingTokenMessage)
    ensures r.Ok? ==> var rest := header.value[|BearerPrefix|..];
      r.value == rest[..IndexOf(rest, ' ')]
  {
    if header.None? || header.value == "" || !StartsWith(header.value, BearerPrefix) then
      Err(HttpError(Unauthorized, MissingTokenMessage))
    else
      TokenIsAfterPrefix(header.value);
      Ok(Split(header.value, ' ')[1])
  }

  /** The second piece of a header starting with "Bearer " is the text after the prefix, up to
      the next space. */
  lemma TokenIsAfterPrefix(h: string)
    requires StartsWith(h, BearerPrefix)
    ensures |Split(h, ' ')| >= 2
    ensures var rest := h[|BearerPrefix|..]; Split(h, ' ')[1] == rest[..IndexOf(rest, ' ')]
  {
    assert h[..6] == "Bearer";
    assert Free(h[..6], ' ');
    assert h == h[..6] + [' '] + h[7..];
    IndexOfAfterFree(h[..6], ' ', h[7..]);
    SplitHead(h, ' ');
    SplitHead(h[7..], ' ');
  }

  /** The header a client builds from a token without spaces, "Bearer " and the token, gives
      the token back. */
  lemma BearerRoundTrip(token: string)
    requires Free(token, ' ')
    ensures TokenFromHeader(Some(BearerPrefix + token)) == Ok(token)
  {
    var h := BearerPrefix + token;
    assert h[..|BearerPrefix|] == BearerPrefix;
    assert h[|BearerPrefix|..] == token;
    IndexOfFree(token, ' ');
    assert token[..|token|] == token;
    TokenUpToFirstSpace(h, token, |token|);
  }

  /** Only the first word after the prefix is kept. */
  lemma ExtraWordsDropped(token: string, more: string)
    requires Free(token, ' ')
    ensures TokenFromHeader(Some(BearerPrefix + token + " " + more)) == Ok(token)
  {
    var h := BearerPrefix + token + " " + more;
    var rest := token + [' '] + more;
    assert h[..|BearerPrefix|] == BearerPrefix;
    assert h[|BearerPrefix|..] == rest;
    IndexOfAfterFree(token, ' ', more);
    assert rest[..|token|] == token;
    TokenUpToFirstSpace(h, rest, |token|);
  }

  /** A header with the prefix yields the text after it up to the first space. */
  lemma TokenUpToFirstSpace(h: string, rest: string, space: nat)
    requires StartsWith(h, BearerPrefix) && h[7..] == rest
    requires space <= |rest| && IndexOf(rest, ' ') == space
    ensures TokenFromHeader(Some(h)) == Ok(rest[..space])
  {
  }

  /** The prefix alone gives the empty token. */
  lemma TokenExampleEmpty()
    ensures TokenFromHeader(Some("Bearer ")) == Ok("")
  {
    assert StartsWith("Bearer ", BearerPrefix);
    assert "Bearer "[7..] == "";
  }

  /** The prefix is case-sensitive and needs its space. */
  lemma TokenExampleRejected()
    ensures TokenFromHeader(Some("bearer abc")).Err?
    ensures TokenFromHeader(Some("Bearer")).Err?
  {
    assert "bearer abc"[0] != BearerPrefix[0];
  }

  const AuthFailedMessage := "認証に失敗しました"
  const UserNotFoundMessage := "ユーザーが見つかりません"
  const InactiveMessage := "無効なユーザーです"
  const AdminRequiredMessage := "管理者権限が必要です"

  /** `get_current_user`: the token must verify and its e-mail must belong to a user. */
  function CurrentUser(b: Blacklist, dir: Directory, token: string, decode: string -> Option<Payload>): (r: Result<User, HttpError>)
    ensures r.Ok? <==> VerifyToken(b, token, decode).Some? && FindByEmail(dir, VerifyToken(b, token, decode).value.email).Some?
    ensures r.Ok? ==> r.value in dir && r.value.email == VerifyToken(b, token, decode).value.email
    ensures r.Err? ==> r.error.status == Unauthorized
    ensures r.Err? ==> (r.error.detail == AuthFailedMessage <==> VerifyToken(b, token, decode).None?)
  {
    match VerifyToken(b, token, decode)
    case None => Err(HttpError(Unauthorized, AuthFailedMessage))
    case Some(data) =>
      match FindByEmail(dir, data.email)
      case None => Err(HttpError(Unauthorized, UserNotFoundMessage))
      case Some(i) => Ok(dir[i])
  }

  /** `get_current_active_user`. */
  function CurrentActiveUser(b: Blacklist, dir: Directory, token: string, decode: string -> Option<Payload>): (r: Result<User, HttpError>)
    ensures r.Ok? <==> CurrentUser(b, dir, token, decode).Ok? && CurrentUser(b, dir, token, decode).value.isActive
    ensures r.Ok? ==> r.value == CurrentUser(b, dir, token, decode).value
    ensures CurrentUser(b, dir, token, decode).Err? ==> r == CurrentUser(b, dir, token, decode)
    ensures CurrentUser(b, dir, token, decode).Ok? && r.Err? ==> r.error == HttpError(BadRequest, InactiveMessage)
  {
    match CurrentUser(b, dir, token, decode)
    case Err(e) => Err(e)
    case Ok(u) => if !u.isActive then Err(HttpError(BadRequest, InactiveMessage)) else Ok(u)
  }

  /** `get_current_admin_user`. */
  function CurrentAdminUser(b: Blacklist, dir: Directory, token: string, decode: string -> Option<Payload>): (r: Result<User, HttpError>)
    ensures r.Ok? <==> CurrentActiveUser(b, dir, token, decode).Ok? && CurrentActiveUser(b, dir, token, decode).value.role == Admin
    ensures r.Ok? ==> r.value == CurrentActiveUser(b, dir, token, decode).value
    ensures CurrentActiveUser(b, dir, token, decode).Err? ==> r == CurrentActiveUser(b, dir, token, decode)
    ensures CurrentActiveUser(b, dir, token, decode).Ok? && r.Err? ==> r.error == HttpError(Forbidden, AdminRequiredMessage)
  {
    match CurrentActiveUser(b, dir, token, decode)
    case Err(e) => Err(e)
    case Ok(u) => if u.role != Admin then Err(HttpError(Forbidden, AdminRequiredMessage)) else Ok(u)
  }

  /** The admin guard in one statement: which status each kind of caller gets. An inactive
      administrator gets 400, not 403, and a blacklisted token 401 whoever it names. */
  lemma AdminGateOrder(b: Blacklist, dir: Directory, token: string, decode: string -> Option<Payload>)
    ensures var r := CurrentAdminUser(b, dir, token, decode);
      var v := VerifyToken(b, token, decode);
      && (v.None? ==> r == Err(HttpError(Unauthorized, AuthFailedMessage)))
      && (v.Some? && FindByEmail(dir, v.value.email).None? ==> r == Err(HttpError(Unauthorized, UserNotFoundMessage)))
      && (v.Some? && FindByEmail(dir, v.value.email).Some? ==>
            var u := dir[FindByEmail(dir, v.value.email).value];
            && (!u.isActive ==> r == Err(HttpError(BadRequest, InactiveMessage)))
            && (u.isActive && u.role != Admin ==> r == Err(HttpError(Forbidden, AdminRequiredMessage)))
            && (u.isActive && u.role == Admin ==> r == Ok(u)))
  {
  }

  /** A logged-out token opens no guard. */
  lemma LoggedOutTokenLocked(b: Blacklist, dir: Directory, token: string, decode: string -> Option<Payload>)
    ensures CurrentUser(AddToBlacklist(b, token), dir, token, decode) == Err(HttpError(Unauthorized, AuthFailedMessage))
  {
  }
}
