/** The `/users` routes: the caller's own profile update, and the administrator's listing,
    lookup, activation and deactivation of users. Each route receives the outcome of its guard
    (`get_current_active_user` or `get_current_admin_user`) and passes its refusal on; the guards
    are assumed to behave like the ones of `AuthDependencies`. */
module UsersRouter {
  import opened Wrappers
  import opened Calendar
  import opened Users
  import opened Security
  import opened AuthDependencies

  /** `UserProfileUpdate` as `dict(exclude_unset=True)` sees it: the outer `None` is a field the
      request left out, `Some(None)` one it set to null. */
  datatype ProfileUpdate = ProfileUpdate(
    birthDate: Option<Option<CivilDate>>,
    gender: Option<Option<string>>,
    joinDate: Option<Option<CivilDate>>,
    address: Option<Option<string>>,
    emergencyContacts: Option<Option<seq<map<string, string>>>>,
    bankAccount: Option<Option<map<string, string>>>,
    socialInsurance: Option<Option<map<string, string>>>)

  const NoChange := ProfileUpdate(None, None, None, None, None, None, None)

  /** One field of the update: the sent value when the field was sent, the old one otherwise. */
  function SetIfSent<T>(current: T, sent: Option<T>): (v: T)
    ensures sent.Some? ==> v == sent.value
    ensures sent.None? ==> v == current
  {
    match sent
    case None => current
    case Some(x) => x
  }

  /** The `setattr` loop: writes exactly the fields present in the request. */
  function ApplyUpdate(p: Profile, u: ProfileUpdate): (q: Profile)
    ensures u.birthDate.Some? ==> q.birthDate == u.birthDate.value
    ensures u.birthDate.None? ==> q.birthDate == p.birthDate
    ensures u.gender.Some? ==> q.gender == u.gender.value
    ensures u.gender.None? ==> q.gender == p.gender
    ensures u.joinDate.Some? ==> q.joinDate == u.joinDate.value
    ensures u.joinDate.None? ==> q.joinDate == p.joinDate
    ensures u.address.Some? ==> q.address == u.address.value
    ensures u.address.None? ==> q.address == p.address
    ensures u.emergencyContacts.Some? ==> q.emergencyContacts == u.emergencyContacts.value
    ensures u.emergencyContacts.None? ==> q.emergencyContacts == p.emergencyContacts
    ensures u.bankAccount.Some? ==> q.bankAccount == u.bankAccount.value
    ensures u.bankAccount.None? ==> q.bankAccount == p.bankAccount
    ensures u.socialInsurance.Some? ==> q.socialInsurance == u.socialInsurance.value
    ensures u.socialInsurance.None? ==> q.socialInsurance == p.socialInsurance
  {
    Profile(
      SetIfSent(p.birthDate, u.birthDate),
      SetIfSent(p.gender, u.gender),
      SetIfSent(p.joinDate, u.joinDate),
      SetIfSent(p.address, u.address),
      SetIfSent(p.emergencyContacts, u.emergencyContacts),
      SetIfSent(p.bankAccount, u.bankAccount),
      SetIfSent(p.socialInsurance, u.socialInsurance))
  }

  /** Two updates in a row: the later one wins on every field it sends. */
  function Then(first: ProfileUpdate, second: ProfileUpdate): ProfileUpdate {
    ProfileUpdate(
      if second.birthDate.Some? then second.birthDate else first.birthDate,
      if second.gender.Some? then second.gender else first.gender,
      if second.joinDate.Some? then second.joinDate else first.joinDate,
      if second.address.Some? then second.address else first.address,
      if second.emergencyContacts.Some? then second.emergencyContacts else first.emergencyContacts,
      if second.bankAccount.Some? then second.bankAccount else first.bankAccount,
      if second.socialInsurance.Some? then second.socialInsurance else first.socialInsurance)
  }

  /** An empty request changes nothing, repeating a request changes nothing more, and two
      requests amount to their merge. */
  lemma UpdateAlgebra(p: Profile, a: ProfileUpdate, b: ProfileUpdate)
    ensures ApplyUpdate(p, NoChange) == p
    ensures ApplyUpdate(ApplyUpdate(p, a), a) == ApplyUpdate(p, a)
    ensures ApplyUpdate(ApplyUpdate(p, a), b) == ApplyUpdate(p, Then(a, b))
  {
  }

  /** `update_current_user_profile`: the update reaches the profile only; the e-mail, names, role,
      active flag and every other column stay as they were, since the update schema has no such
      fields. */
  function UpdateCurrentUserProfile(guard: Result<User, HttpError>, u: ProfileUpdate): (r: Result<User, HttpError>)
    ensures guard.Err? <==> r.Err?
    ensures guard.Err? ==> r == guard
    ensures r.Ok? ==> r.value.profile == ApplyUpdate(guard.value.profile, u)
    ensures r.Ok? ==> r.value.(profile := guard.value.profile) == guard.value
  {
    match guard
    case Err(e) => Err(e)
    case Ok(user) => Ok(user.(profile := ApplyUpdate(user.profile, u)))
  }

  /** The profile update cannot change who the caller is or what they may do. */
  lemma ProfileUpdateKeepsIdentity(guard: Result<User, HttpError>, u: ProfileUpdate)
    requires guard.Ok?
    ensures var r := UpdateCurrentUserProfile(guard, u).value;
      && r.id == guard.value.id && r.email == guard.value.email
      && r.firstName == guard.value.firstName && r.lastName == guard.value.lastName
      && r.role == guard.value.role && r.isActive == guard.value.isActive
      && r.hashedPassword == guard.value.hashedPassword
  {
    var r := UpdateCurrentUserProfile(guard, u).value;
    assert r.(profile := guard.value.profile) == guard.value;
  }

  /** SQLite's `OFFSET`: a negative offset counts as none. */
  function Offset(dir: Directory, skip: int): (lo: nat)
    ensures lo <= |dir|
    ensures skip <= 0 ==> lo == 0
    ensures 0 <= skip <= |dir| ==> lo == skip
  {
    if skip <= 0 then 0 else if skip > |dir| then |dir| else skip
  }

  /** SQLite's `OFFSET … LIMIT …`: the rows from `skip` on, at most `limit` of them (a negative
      limit means no limit), in storage order. */
  function Page(dir: Directory, skip: int, limit: int): (page: Directory)
    ensures limit >= 0 ==> |page| <= limit
    ensures |page| <= |dir| - Offset(dir, skip)
    ensures forall k :: 0 <= k < |page| ==> page[k] == dir[Offset(dir, skip) + k]
    ensures limit < 0 || Offset(dir, skip) + limit >= |dir| ==> |page| == |dir| - Offset(dir, skip)
    ensures limit >= 0 && Offset(dir, skip) + limit < |dir| ==> |page| == limit
  {
    var lo := Offset(dir, skip);
    if limit < 0 || lo + limit >= |dir| then dir[lo..] else dir[lo..lo + limit]
  }

  /** `get_users`, behind the administrator guard: the guard's refusal, or the page. */
  function ListUsers(guard: Result<User, HttpError>, dir: Directory, skip: int, limit: int): (r: Result<Directory, HttpError>)
    ensures guard.Err? ==> r == Err(guard.error)
    ensures r.Ok? <==> guard.Ok?
    ensures r.Ok? ==> |r.value| == if limit < 0 || Offset(dir, skip) + limit >= |dir| then |dir| - Offset(dir, skip) else limit
    ensures r.Ok? ==> forall k :: 0 <= k < |r.value| ==> r.value[k] == dir[Offset(dir, skip) + k]
  {
    if guard.Err? then Err(guard.error) else Ok(Page(dir, skip, limit))
  }

  /** Consecutive pages tile the table: a page of `n` followed by the next page of `m` is the
      page of `n + m`. */
  lemma PagesConcatenate(dir: Directory, skip: nat, n: nat, m: nat)
    ensures Page(dir, skip, n) + Page(dir, skip + n, m) == Page(dir, skip, n + m)
  {
    var a := Page(dir, skip, n);
    var b := Page(dir, skip + n, m);
    var c := Page(dir, skip, n + m);
    if skip + n <= |dir| {
      assert |a| == n;
      assert |a + b| == |c|;
      forall k | 0 <= k < |c| ensures (a + b)[k] == c[k] {
        if k >= n {
          assert (a + b)[k] == b[k - n];
        }
      }
    } else {
      assert |b| == 0;
    }
  }

  /** With the default page size, an administrator sees a table of at most 100 users whole. */
  lemma DefaultPageListsAll(admin: User, dir: Directory)
    requires |dir| <= 100
    ensures ListUsers(Ok(admin), dir, 0, 100) == Ok(dir)
  {
  }

  /** `get_user`, behind the administrator guard: 404 when no row has the id. */
  function GetUser(guard: Result<User, HttpError>, dir: Directory, id: int): (r: Result<User, HttpError>)
    ensures guard.Err? ==> r == Err(guard.error)
    ensures guard.Ok? ==> (r.Err? <==> forall j :: 0 <= j < |dir| ==> dir[j].id != id)
    ensures guard.Ok? && r.Err? ==> r.error == HttpError(NotFound, UserNotFoundMessage)
    ensures r.Ok? ==> r.value in dir && r.value.id == id
  {
    if guard.Err? then Err(guard.error)
    else
      match FindById(dir, id)
      case None => Err(HttpError(NotFound, UserNotFoundMessage))
      case Some(i) => Ok(dir[i])
  }

  /** `activate_user` and `deactivate_user`, behind the administrator guard: the first row with
      the id gets the flag, every other row is left alone. */
  function SetActive(guard: Result<User, HttpError>, dir: Directory, id: int, active: bool): (r: Result<Directory, HttpError>)
    ensures guard.Err? ==> r == Err(guard.error)
    ensures guard.Ok? ==> (r.Err? <==> forall j :: 0 <= j < |dir| ==> dir[j].id != id)
    ensures guard.Ok? && r.Err? ==> r.error == HttpError(NotFound, UserNotFoundMessage)
    ensures r.Ok? ==> |r.value| == |dir|
    ensures r.Ok? ==> var k := FindById(dir, id).value;
      && r.value[k] == dir[k].(isActive := active)
      && forall j :: 0 <= j < |dir| && j != k ==> r.value[j] == dir[j]
  {
    if guard.Err? then Err(guard.error)
    else
      match FindById(dir, id)
      case None => Err(HttpError(NotFound, UserNotFoundMessage))
      case Some(k) => Ok(dir[k := dir[k].(isActive := active)])
  }

  /** A caller who is signed in and active but not an administrator is refused with 403 by every
      administrator route, and the table is left as it was. */
  lemma NonAdminsRefused(b: Blacklist, dir: Directory, token: string, decode: string -> Option<Payload>,
                         skip: int, limit: int, id: int, active: bool)
    requires CurrentActiveUser(b, dir, token, decode).Ok?
    requires CurrentActiveUser(b, dir, token, decode).value.role != Admin
    ensures var guard := CurrentAdminUser(b, dir, token, decode);
      && ListUsers(guard, dir, skip, limit) == Err(HttpError(Forbidden, AdminRequiredMessage))
      && GetUser(guard, dir, id) == Err(HttpError(Forbidden, AdminRequiredMessage))
      && SetActive(guard, dir, id, active) == Err(HttpError(Forbidden, AdminRequiredMessage))
  {
  }

  const ActivatedMessage := "ユーザーが有効化されました"
  const DeactivatedMessage := "ユーザーが無効化されました"

  /** The message each route answers with. */
  function ActiveMessage(active: bool): string {
    if active then ActivatedMessage else DeactivatedMessage
  }

  /** Setting the flag twice is setting it once; setting it keeps the table's constraints; and the
      row then reads the flag back through `get_user`. */
  lemma SetActiveFacts(admin: User, dir: Directory, id: int, active: bool)
    requires SetActive(Ok(admin), dir, id, active).Ok?
    ensures var d := SetActive(Ok(admin), dir, id, active).value;
      && SetActive(Ok(admin), d, id, active) == Ok(d)
      && (WellFormed(dir) ==> WellFormed(d))
      && GetUser(Ok(admin), d, id).Ok?
      && GetUser(Ok(admin), d, id).value.isActive == active
  {
    var k := FindById(dir, id).value;
    var d := SetActive(Ok(admin), dir, id, active).value;
    assert d == dir[k := dir[k].(isActive := active)];
    SameIdsSameFind(dir, d, id);
    assert d[k].(isActive := active) == d[k];
    assert d[k := d[k]] == d;
    if WellFormed(dir) {
      ReplaceKeepsWellFormed(dir, k, dir[k].(isActive := active));
    }
  }

  /** Tables that agree on every row's id agree on where an id is found. */
  lemma {:induction false} SameIdsSameFind(a: Directory, b: Directory, id: int)
    requires |a| == |b| && forall j :: 0 <= j < |a| ==> a[j].id == b[j].id
    ensures FindById(a, id) == FindById(b, id)
    decreases |a|
  {
    if |a| > 0 && a[0].id != id {
      SameIdsSameFind(a[1..], b[1..], id);
    }
  }

  /** An administrator deactivating a user locks them out of every guarded route, even with a
      token that is still valid; activating them again lets that token back in. */
  lemma DeactivationLocksOut(admin: User, dir: Directory, id: int, b: Blacklist, token: string, decode: string -> Option<Payload>)
    requires WellFormed(dir)
    requires CurrentUser(b, dir, token, decode).Ok? && CurrentUser(b, dir, token, decode).value.id == id
    ensures SetActive(Ok(admin), dir, id, false).Ok?
    ensures CurrentActiveUser(b, SetActive(Ok(admin), dir, id, false).value, token, decode) == Err(HttpError(BadRequest, InactiveMessage))
    ensures CurrentActiveUser(b, SetActive(Ok(admin), dir, id, true).value, token, decode).Ok?
  {
    var e := VerifyToken(b, token, decode).value.email;
    var i := FindByEmail(dir, e).value;
    assert dir[i].id == id;
    var k := FindById(dir, id).value;
    FindByIdUnique(dir, id, i);
    var off := SetActive(Ok(admin), dir, id, false).value;
    var on := SetActive(Ok(admin), dir, id, true).value;
    SameEmailsSameFind(dir, off, e);
    SameEmailsSameFind(dir, on, e);
  }

  /** In a well-formed table the row found by id is the only one with that id. */
  lemma FindByIdUnique(dir: Directory, id: int, k: nat)
    requires WellFormed(dir) && k < |dir| && dir[k].id == id
    ensures FindById(dir, id) == Some(k)
  {
  }

  /** Tables that agree on every row's e-mail agree on where an e-mail is found. */
  lemma {:induction false} SameEmailsSameFind(a: Directory, b: Directory, email: string)
    requires |a| == |b| && forall j :: 0 <= j < |a| ==> a[j].email == b[j].email
    ensures FindByEmail(a, email) == FindByEmail(b, email)
    decreases |a|
  {
    if |a| > 0 && a[0].email != email {
      SameEmailsSameFind(a[1..], b[1..], email);
    }
  }
}
