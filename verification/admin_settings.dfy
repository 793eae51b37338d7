/** The administrator's settings screen: which system settings each tab lists. */
module AdminSettings {
  import opened Sequences

  datatype Category = General | Notification | Security | Approval

  datatype SystemSetting = SystemSetting(key: string, value: string, description: string, category: Category)

  datatype Tab = GeneralTab | DepartmentsTab | NotificationsTab | SecurityTab

  /** The predicate of `filteredSettings` for the active tab. */
  predicate ShownIn(tab: Tab, s: SystemSetting) {
    match tab
    case GeneralTab => s.category == General
    case NotificationsTab => s.category == Notification
    case SecurityTab => s.category == Security
    case DepartmentsTab => false
  }

  /** `filteredSettings`: the settings the active tab lists, in their declared order. */
  function FilteredSettings(settings: seq<SystemSetting>, tab: Tab): (r: seq<SystemSetting>)
    ensures IsSubsequence(r, settings)
    ensures forall s :: s in r <==> s in settings && ShownIn(tab, s)
    ensures forall s :: multiset(r)[s] == if ShownIn(tab, s) then multiset(settings)[s] else 0
  {
    var p := (s: SystemSetting) => ShownIn(tab, s);
    FilterIsSubsequence(settings, p);
    FilterMultiplicity(settings, p);
    forall s ensures s in Filter(settings, p) <==> s in settings && ShownIn(tab, s) {
      FilterMembership(settings, p, s);
    }
    Filter(settings, p)
  }

  /** What each tab shows: its own category, nothing on the departments tab, and the approval
      settings on no tab at all. */
  lemma TabContents(settings: seq<SystemSetting>, s: SystemSetting)
    ensures s in FilteredSettings(settings, GeneralTab) <==> s in settings && s.category == General
    ensures s in FilteredSettings(settings, NotificationsTab) <==> s in settings && s.category == Notification
    ensures s in FilteredSettings(settings, SecurityTab) <==> s in settings && s.category == Security
    ensures FilteredSettings(settings, DepartmentsTab) == []
    ensures s.category == Approval ==> forall tab :: s !in FilteredSettings(settings, tab)
  {
    FilterDropsAll(settings, (x: SystemSetting) => ShownIn(DepartmentsTab, x));
  }

  /** Every setting that is not an approval setting is listed on exactly one tab. */
  lemma ExactlyOneTab(s: SystemSetting)
    requires s.category != Approval
    ensures exists tab :: ShownIn(tab, s)
    ensures forall t1, t2 :: ShownIn(t1, s) && ShownIn(t2, s) ==> t1 == t2
  {
    match s.category
    case General => assert ShownIn(GeneralTab, s);
    case Notification => assert ShownIn(NotificationsTab, s);
    case Security => assert ShownIn(SecurityTab, s);
  }

  /** The tab bar, in display order. */
  const TabNames: seq<(Tab, string)> := [
    (GeneralTab, "一般設定"),
    (DepartmentsTab, "部署管理"),
    (NotificationsTab, "通知設定"),
    (SecurityTab, "セキュリティ")]
}
