/** The dashboard frame: which side-bar entry is highlighted for the current path, and the header
    title derived from it. */
module DashboardLayout {
  import opened Wrappers
  import opened Text
  import opened Sequences

  datatype NavItem = NavItem(name: string, href: string)

  const DashboardHref := "/dashboard"
  const DefaultTitle := "ダッシュボード"

  const Navigation: seq<NavItem> := [
    NavItem("ダッシュボード", "/dashboard"),
    NavItem("マイページ", "/dashboard/mypage"),
    NavItem("勤怠管理", "/dashboard/attendance"),
    NavItem("経費申請", "/dashboard/expenses"),
    NavItem("その他手当", "/dashboard/allowances"),
    NavItem("有給申請", "/dashboard/paid-leave"),
    NavItem("給与明細", "/dashboard/payslip")]

  const AdminNavigation: seq<NavItem> := [
    NavItem("社員管理", "/dashboard/admin/users"),
    NavItem("申請承認", "/dashboard/admin/approvals"),
    NavItem("管理設定", "/dashboard/admin/settings")]

  /** `isActive`: the dashboard entry only on its exact path, every other entry on any path that
      starts with its href as a string. */
  predicate IsActive(pathname: string, href: string) {
    if href == DashboardHref then pathname == href else StartsWith(pathname, href)
  }

  /** `a?.name || fallback`: an empty name falls through as well. */
  function NameOr(found: Option<NavItem>, fallback: string): (s: string)
    ensures found.Some? && found.value.name != "" ==> s == found.value.name
    ensures found.None? || found.value.name == "" ==> s == fallback
  {
    if found.Some? && found.value.name != "" then found.value.name else fallback
  }

  /** Entry `i` is the first highlighted one of `items`. */
  predicate FirstActive(items: seq<NavItem>, pathname: string, i: int) {
    && 0 <= i < |items|
    && IsActive(pathname, items[i].href)
    && forall j :: 0 <= j < i ==> !IsActive(pathname, items[j].href)
  }

  predicate NoneActive(items: seq<NavItem>, pathname: string) {
    forall i :: 0 <= i < |items| ==> !IsActive(pathname, items[i].href)
  }

  /** `items.find((item) => isActive(item.href))`. */
  function FindActive(items: seq<NavItem>, pathname: string): (found: Option<NavItem>)
    ensures found.None? <==> NoneActive(items, pathname)
    ensures found.Some? ==> exists i :: FirstActive(items, pathname, i) && found.value == items[i]
  {
    var active := (item: NavItem) => IsActive(pathname, item.href);
    var r := Find(items, active);
    if r.Some? then
      FindIsFirst(items, active);
      r
    else r
  }

  /** The header title: the first active main entry, else the first active administrator entry,
      else the default. */
  function HeaderTitle(pathname: string): (title: string)
    ensures !NoneActive(Navigation, pathname) ==>
      exists i :: FirstActive(Navigation, pathname, i) && title == Navigation[i].name
    ensures NoneActive(Navigation, pathname) && !NoneActive(AdminNavigation, pathname) ==>
      exists i :: FirstActive(AdminNavigation, pathname, i) && title == AdminNavigation[i].name
    ensures NoneActive(Navigation, pathname) && NoneActive(AdminNavigation, pathname) ==> title == DefaultTitle
  {
    assert forall i :: 0 <= i < |Navigation| ==> Navigation[i].name != "";
    assert forall i :: 0 <= i < |AdminNavigation| ==> AdminNavigation[i].name != "";
    NameOr(FindActive(Navigation, pathname), NameOr(FindActive(AdminNavigation, pathname), DefaultTitle))
  }

  /** On the attendance history page the attendance entry is highlighted and titles the page,
      while the dashboard entry is not. */
  lemma AttendanceHistoryPath()
    ensures IsActive("/dashboard/attendance/history", "/dashboard/attendance")
    ensures !IsActive("/dashboard/attendance/history", DashboardHref)
    ensures HeaderTitle("/dashboard/attendance/history") == "勤怠管理"
  {
    var p := "/dashboard/attendance/history";
    assert p[..|"/dashboard/mypage"|] != "/dashboard/mypage" by {
      assert p[11] != "/dashboard/mypage"[11];
    }
    assert p[..|"/dashboard/attendance"|] == "/dashboard/attendance";
  }

  /** On the dashboard itself only the dashboard entry is highlighted. */
  lemma DashboardPath()
    ensures HeaderTitle(DashboardHref) == DefaultTitle
    ensures forall i :: 1 <= i < |Navigation| ==> !IsActive(DashboardHref, Navigation[i].href)
  {
    forall i | 1 <= i < |Navigation| ensures !IsActive(DashboardHref, Navigation[i].href) {
      assert |Navigation[i].href| > |DashboardHref|;
    }
    assert IsActive(DashboardHref, Navigation[0].href);
    assert FirstActive(Navigation, DashboardHref, 0);
    FirstActiveUnique(Navigation, DashboardHref);
  }

  /** At most one entry is the first highlighted one. */
  lemma FirstActiveUnique(items: seq<NavItem>, pathname: string)
    ensures forall i, j :: FirstActive(items, pathname, i) && FirstActive(items, pathname, j) ==> i == j
  {
  }

  /** Matching is by string prefix, not by path segment: a path that merely extends an href's
      last segment highlights that entry too. */
  lemma PrefixNotSegment()
    ensures IsActive("/dashboard/expenses-report", "/dashboard/expenses")
  {
    var p := "/dashboard/expenses-report";
    assert p[..|"/dashboard/expenses"|] == "/dashboard/expenses";
  }
}
