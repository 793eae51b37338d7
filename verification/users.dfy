/** The user table: roles, the full name, the defaults of a new row, lookups by e-mail and by id,
    and the uniqueness the table's constraints impose. */
module Users {
  import opened Wrappers
  import opened Text
  import opened Calendar

  datatype Role = Employee | Admin

  /** The enum's stored value. */
  function RoleValue(r: Role): (v: string)
    ensures v == "employee" || v == "admin"
  {
    match r
    case Employee => "employee"
    case Admin => "admin"
  }

  const DefaultRole := Employee

  lemma RoleValueInjective(a: Role, b: Role)
    ensures RoleValue(a) == RoleValue(b) <==> a == b
  {
  }

  /** The profile attributes the profile update may set. They are not columns of the table: they
      live on the loaded row only. */
  datatype Profile = Profile(
    birthDate: Option<CivilDate>,
    gender: Option<string>,
    joinDate: Option<CivilDate>,
    address: Option<string>,
    emergencyContacts: Option<seq<map<string, string>>>,
    bankAccount: Option<map<string, string>>,
    socialInsurance: Option<map<string, string>>)

  const EmptyProfile := Profile(None, None, None, None, None, None, None)

  datatype User = User(
    id: int,
    email: string,
    hashedPassword: string,
    firstName: string,
    lastName: string,
    role: Role,
    department: Option<string>,
    employeeId: Option<string>,
    isActive: bool,
    profile: Profile)

  /** `full_name`: family name, a space, given name. */
  function FullName(u: User): (name: string)
    ensures |name| == |u.lastName| + 1 + |u.firstName|
    ensures name[..|u.lastName|] == u.lastName && name[|u.lastName|] == ' ' && name[|u.lastName| + 1..] == u.firstName
  {
    u.lastName + " " + u.firstName
  }

  /** When the family name has no space, splitting the full name at the first space gives back
      both names. */
  lemma FullNameSplits(u: User)
    requires Free(u.lastName, ' ') && Free(u.firstName, ' ')
    ensures Split(FullName(u), ' ') == [u.lastName, u.firstName]
  {
    assert FullName(u) == u.lastName + [' '] + u.firstName;
    SplitTwo(u.lastName, u.firstName, ' ');
  }

  /** A new row: active, with the given role, and no profile attributes. */
  function NewUser(id: int, email: string, hashedPassword: string, firstName: string, lastName: string,
                   role: Role, department: Option<string>, employeeId: Option<string>): (u: User)
    ensures u.isActive && u.profile == EmptyProfile
    ensures u.id == id && u.email == email && u.hashedPassword == hashedPassword && u.role == role
    ensures u.firstName == firstName && u.lastName == lastName
    ensures u.department == department && u.employeeId == employeeId
  {
    User(id, email, hashedPassword, firstName, lastName, role, department, employeeId, true, EmptyProfile)
  }

  /** The table, in storage order. */
  type Directory = seq<User>

  /** Index of the first row with this e-mail (`.filter(User.email == e).first()`). */
  function FindByEmail(dir: Directory, email: string): (r: Option<nat>)
    ensures r.Some? ==> r.value < |dir| && dir[r.value].email == email
    ensures r.Some? ==> forall j :: 0 <= j < r.value ==> dir[j].email != email
    ensures r.None? <==> forall j :: 0 <= j < |dir| ==> dir[j].email != email
  {
    if |dir| == 0 then None
    else if dir[0].email == email then Some(0)
    else match FindByEmail(dir[1..], email)
      case None => None
      case Some(i) => Some(i + 1)
  }

  /** Index of the first row with this id. */
  function FindById(dir: Directory, id: int): (r: Option<nat>)
    ensures r.Some? ==> r.value < |dir| && dir[r.value].id == id
    ensures r.Some? ==> forall j :: 0 <= j < r.value ==> dir[j].id != id
    ensures r.None? <==> forall j :: 0 <= j < |dir| ==> dir[j].id != id
  {
    if |dir| == 0 then None
    else if dir[0].id == id then Some(0)
    else match FindById(dir[1..], id)
      case None => None
      case Some(i) => Some(i + 1)
  }

  /** The table's constraints: ids and e-mails are unique, and so are employee ids where set. */
  predicate WellFormed(dir: Directory) {
    forall i, j :: 0 <= i < j < |dir| ==>
      && dir[i].id != dir[j].id
      && dir[i].email != dir[j].email
      && (dir[i].employeeId.Some? ==> dir[i].employeeId != dir[j].employeeId)
  }

  /** In a well-formed table the row found by e-mail is the only one with that e-mail. */
  lemma FindByEmailUnique(dir: Directory, email: string, k: nat)
    requires WellFormed(dir) && k < |dir| && dir[k].email == email
    ensures FindByEmail(dir, email) == Some(k)
  {
  }

  /** A row that changes nothing the constraints look at keeps the table well formed. */
  lemma ReplaceKeepsWellFormed(dir: Directory, k: nat, u: User)
    requires WellFormed(dir) && k < |dir|
    requires u.id == dir[k].id && u.email == dir[k].email && u.employeeId == dir[k].employeeId
    ensures WellFormed(dir[k := u])
  {
  }
}
