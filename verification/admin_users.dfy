/** The administrator's employee list: the search box and three drop-down filters, the department
    choices, and the administrator count. Filter values are the strings the drop-downs hold; the
    empty string means "all". */
module AdminUsers {
  import opened Text
  import opened Sequences

  datatype Employee = Employee(
    id: string,
    employeeId: string,
    firstName: string,
    lastName: string,
    email: string,
    role: string,
    department: string,
    position: string,
    joinDate: string,
    status: string)

  datatype UserFilter = UserFilter(searchTerm: string, department: string, role: string, status: string)

  const NoFilter := UserFilter("", "", "", "")

  /** `matchesSearch`: the term occurs in the first name, last name, employee number or e-mail. */
  predicate MatchesSearch(e: Employee, term: string) {
    Contains(e.firstName, term) || Contains(e.lastName, term) || Contains(e.employeeId, term) || Contains(e.email, term)
  }

  /** `!filter || value === filter`. */
  predicate Selects(filter: string, value: string) {
    filter == "" || value == filter
  }

  predicate Matches(f: UserFilter, e: Employee) {
    && MatchesSearch(e, f.searchTerm)
    && Selects(f.department, e.department)
    && Selects(f.role, e.role)
    && Selects(f.status, e.status)
  }

  /** `filteredEmployees`: exactly the matching employees, in list order. */
  function FilteredEmployees(es: seq<Employee>, f: UserFilter): (r: seq<Employee>)
    ensures IsSubsequence(r, es)
    ensures forall e :: e in r <==> e in es && Matches(f, e)
    ensures forall e :: multiset(r)[e] == if Matches(f, e) then multiset(es)[e] else 0
  {
    var p := (e: Employee) => Matches(f, e);
    FilterIsSubsequence(es, p);
    FilterMultiplicity(es, p);
    forall e ensures e in Filter(es, p) <==> e in es && Matches(f, e) {
      FilterMembership(es, p, e);
    }
    Filter(es, p)
  }

  /** The empty term occurs in every name, so the cleared filters list everyone. */
  lemma NoFilterListsAll(es: seq<Employee>)
    ensures FilteredEmployees(es, NoFilter) == es
  {
    forall i | 0 <= i < |es| ensures Matches(NoFilter, es[i]) {
      EmptyContained(es[i].firstName);
    }
    FilterKeepsAll(es, (e: Employee) => Matches(NoFilter, e));
  }

  /** A search term that occurs in none of an employee's four searched fields hides that employee,
      whatever the other filters say. */
  lemma UnmatchedSearchHides(es: seq<Employee>, f: UserFilter, e: Employee)
    requires !MatchesSearch(e, f.searchTerm)
    ensures e !in FilteredEmployees(es, f)
  {
  }

  /** `employees.map((emp) => emp.department)`. */
  function DepartmentColumn(es: seq<Employee>): (all: seq<string>)
    ensures |all| == |es| && forall i :: 0 <= i < |es| ==> all[i] == es[i].department
  {
    seq(|es|, i requires 0 <= i < |es| => es[i].department)
  }

  /** `departments`: each department once, in order of first appearance. */
  function Departments(es: seq<Employee>): (ds: seq<string>)
    ensures forall d :: d in ds <==> exists i :: 0 <= i < |es| && es[i].department == d
    ensures NoDuplicates(ds)
    ensures InFirstOccurrenceOrder(ds, DepartmentColumn(es))
  {
    var all := DepartmentColumn(es);
    DistinctFacts(all);
    DistinctOrder(all);
    forall d ensures d in all <==> exists i :: 0 <= i < |es| && es[i].department == d {
      if d in all {
        var i :| 0 <= i < |all| && all[i] == d;
        assert es[i].department == d;
      }
      if exists i :: 0 <= i < |es| && es[i].department == d {
        var i :| 0 <= i < |es| && es[i].department == d;
        assert all[i] == d;
      }
    }
    Distinct(all)
  }

  /** The number on the administrator card. */
  function AdminCount(es: seq<Employee>): (n: nat)
    ensures n <= |es|
  {
    Count(es, (e: Employee) => e.role == "admin")
  }

  /** The administrator card counts what the list shows when filtered by the administrator role. */
  lemma AdminCountMatchesRoleFilter(es: seq<Employee>)
    ensures AdminCount(es) == |FilteredEmployees(es, UserFilter("", "", "admin", ""))|
  {
    var f := UserFilter("", "", "admin", "");
    forall i | 0 <= i < |es| ensures Matches(f, es[i]) == (es[i].role == "admin") {
      EmptyContained(es[i].firstName);
    }
    FilterCongruent(es, (e: Employee) => Matches(f, e), (e: Employee) => e.role == "admin");
  }

  /** The role and status badges' labels; the drop-downs offer the same values. */
  function RoleLabel(role: string): (shown: string)
    requires role in {"admin", "employee"}
    ensures shown == "管理者" <==> role == "admin"
  {
    if role == "admin" then "管理者" else "正社員"
  }

  function StatusLabel(status: string): (shown: string)
    requires status in {"active", "inactive"}
    ensures shown == "在籍" <==> status == "active"
  {
    if status == "active" then "在籍" else "退職"
  }
}
