/** The dashboard layout's sidebar: a fixed table of navigation entries,
    each listing the roles that may see it, filtered by the signed-in user's
    role; the highlighted entry; and the open/closed flag of the sidebar. */
module DashboardNav {
  import opened JsValues
  import opened Seqs

  datatype NavItem = NavItem(href: string, title: string, roles: seq<string>)

  /** The five roles the table names. */
  const NamedRoles: seq<string> := ["admin", "teacher", "student", "parent", "finance"]

  /** `navItems`, in display order. */
  const NavItems: seq<NavItem> := [
    NavItem("/dashboard", "Dashboard", ["admin", "teacher", "student", "parent", "finance"]),
    NavItem("/students", "Students", ["admin", "teacher"]),
    NavItem("/academics", "Academics", ["admin", "teacher", "student"]),
    NavItem("/timetable", "Timetable", ["admin", "teacher", "student"]),
    NavItem("/exams", "Exams & Results", ["admin", "teacher", "student", "parent"]),
    NavItem("/finance", "Finance", ["admin", "finance", "parent"]),
    NavItem("/settings", "Settings", ["admin"])
  ]

  /** `!role || item.roles.includes(role)`: a null or empty role sees every entry. */
  predicate Shown(role: Option<string>, item: NavItem) {
    !Truthy(role) || role.value in item.roles
  }

  /** Without a role, or with the empty one, every entry is shown; a
      non-empty role sees exactly the entries that list it. */
  lemma ShownByRole(role: Option<string>, item: NavItem)
    ensures role.None? ==> Shown(role, item)
    ensures role.Some? ==> (Shown(role, item) <==> role.value == "" || role.value in item.roles)
  {
  }

  /** `filteredNavItems` */
  function FilteredNavItems(role: Option<string>): (r: seq<NavItem>)
    ensures |r| <= |NavItems|
    ensures forall i :: 0 <= i < |r| ==> Shown(role, r[i])
  {
    Filter(NavItems, (item: NavItem) => Shown(role, item))
  }

  /** An entry is shown exactly when the role may see it, and the entries
      keep the table's order. */
  lemma FilteredNavItemsByRole(role: Option<string>, item: NavItem)
    ensures item in FilteredNavItems(role) <==> item in NavItems && Shown(role, item)
    ensures IsSubsequence(FilteredNavItems(role), NavItems)
  {
    FilterMembership(NavItems, (i: NavItem) => Shown(role, i), item);
    FilterIsSubsequence(NavItems, (i: NavItem) => Shown(role, i));
  }

  /** Without a role all seven entries are shown, in table order. */
  lemma NoRoleSeesEverything(role: Option<string>)
    requires !Truthy(role)
    ensures FilteredNavItems(role) == NavItems && |NavItems| == 7
  {
    FilterKeepsAll(NavItems, (i: NavItem) => Shown(role, i));
  }

  /** `admin` is listed on every entry and so sees all of them. */
  lemma AdminSeesEverything()
    ensures forall i :: 0 <= i < |NavItems| ==> "admin" in NavItems[i].roles
    ensures FilteredNavItems(Some("admin")) == NavItems
  {
    FilterKeepsAll(NavItems, (i: NavItem) => Shown(Some("admin"), i));
  }

  /** The dashboard entry is visible to every named role; the settings
      entry to `admin` only. */
  lemma DashboardForAllSettingsForAdmin(role: string)
    requires role in NamedRoles
    ensures NavItems[0] in FilteredNavItems(Some(role))
    ensures NavItems[6] in FilteredNavItems(Some(role)) <==> role == "admin"
  {
    var dashboard, settings := NavItems[0], NavItems[6];
    assert dashboard.roles == NamedRoles;
    assert settings.roles == ["admin"];
    assert Shown(Some(role), dashboard);
    assert Shown(Some(role), settings) <==> role == "admin";
    FilteredNavItemsByRole(Some(role), dashboard);
    FilteredNavItemsByRole(Some(role), settings);
  }

  /** A non-empty role outside the five named ones sees nothing. */
  lemma UnknownRoleSeesNothing(role: string)
    requires role != "" && role !in NamedRoles
    ensures FilteredNavItems(Some(role)) == []
  {
    forall i | 0 <= i < |NavItems| ensures !Shown(Some(role), NavItems[i]) {
      assert forall r :: r in NavItems[i].roles ==> r in NamedRoles;
    }
    FilterKeepsNone(NavItems, (i: NavItem) => Shown(Some(role), i));
  }

  /** An entry is highlighted when the path is exactly its href. */
  predicate IsActive(pathname: string, item: NavItem) {
    pathname == item.href
  }

  /** No two entries share an href, so at most one entry is highlighted. */
  lemma AtMostOneActive(pathname: string, i: int, j: int)
    requires 0 <= i < |NavItems| && 0 <= j < |NavItems|
    requires IsActive(pathname, NavItems[i]) && IsActive(pathname, NavItems[j])
    ensures i == j
  {
  }

  class Sidebar {
    var sidebarOpen: bool

    /** The sidebar starts closed. */
    constructor ()
      ensures !sidebarOpen
    {
      sidebarOpen := false;
    }

    /** `toggleSidebar`; two toggles give back the original state. */
    method ToggleSidebar()
      modifies this
      ensures sidebarOpen == !old(sidebarOpen)
    {
      sidebarOpen := !sidebarOpen;
    }
  }
}
