/**
 * The side navigation: which of its links lights up for the current
 * path, which items the signed-in user may see, and the administrator
 * section shown to admins only.
 */
module Sidebar {
  import opened Wrappers
  import opened JsString
  import opened Lists
  import opened Roles

  /** A navigation entry; `roles` missing means everybody may see it. */
  datatype NavItem = NavItem(name: string, href: string, roles: Option<seq<Role>>, children: seq<NavItem>)

  const DashboardHref := "/dashboard"
  const ForumsHref := "/forums"

  const ForumRoles: seq<Role> := [Student, Lecturer]

  const DashboardItem := NavItem("Dashboard", DashboardHref, None, [])
  const CoursesItem := NavItem("Mata Kuliah", "/courses", None, [])
  const AssignmentsItem := NavItem("Tugas", "/assignments", None, [])
  const ForumItem := NavItem("Forum Diskusi", ForumsHref, Some(ForumRoles), [])

  /** The main links without roles. */
  const OpenItems: seq<NavItem> := [DashboardItem, CoursesItem, AssignmentsItem]

  const Navigation: seq<NavItem> := OpenItems + [ForumItem]

  const AdminNavigation: seq<NavItem> := [
    NavItem("Administrasi", "/admin", Some([Admin]), [
      NavItem("Manajemen Pengguna", "/admin/users", None, []),
      NavItem("Manajemen Mata Kuliah", "/admin/courses", None, [])
    ])
  ]

  /**
   * `isActiveLink`: the dashboard link is lit on "/" and on "/dashboard"
   * only; any other link on every path that starts with its href.
   */
  predicate IsActiveLink(path: string, href: string) {
    if href == DashboardHref then path == "/" || path == DashboardHref
    else StartsWith(path, href)
  }

  /** `canAccessItem`: an item without roles is open to all, even signed out; otherwise the user's role must be listed. */
  function CanAccessItem(item: NavItem, user: Option<Role>): (b: bool)
    ensures item.roles.None? ==> b
    ensures item.roles.Some? ==> (b <==> user.Some? && user.value in item.roles.value)
  {
    item.roles.None? || (user.Some? && user.value in item.roles.value)
  }

  /** The main links drawn for the user, in menu order. */
  function VisibleItems(user: Option<Role>): (r: seq<NavItem>)
    ensures forall it :: it in r <==> it in Navigation && CanAccessItem(it, user)
    ensures IsSubsequence(r, Navigation)
  {
    FilterIsSubsequence(Navigation, (it: NavItem) => CanAccessItem(it, user));
    Filter(Navigation, (it: NavItem) => CanAccessItem(it, user))
  }

  /** The forum link is drawn for students and lecturers and for nobody else. */
  lemma ForumLinkIsForStudentsAndLecturers(user: Option<Role>)
    ensures (exists it :: it in VisibleItems(user) && it.href == ForumsHref)
      <==> user == Some(Student) || user == Some(Lecturer)
  {
    var r := VisibleItems(user);
    if user == Some(Student) || user == Some(Lecturer) {
      assert ForumItem in Navigation && CanAccessItem(ForumItem, user);
      assert ForumItem in r;
    }
    if exists it :: it in r && it.href == ForumsHref {
      var it :| it in r && it.href == ForumsHref;
      OnlyForumHasForumsHref(it);
      assert CanAccessItem(ForumItem, user);
    }
  }

  lemma OnlyForumHasForumsHref(it: NavItem)
    requires it in Navigation && it.href == ForumsHref
    ensures it == ForumItem
  {
  }

  /** Students and lecturers see every main link. */
  lemma StudentsAndLecturersSeeAll(user: Option<Role>)
    requires user == Some(Student) || user == Some(Lecturer)
    ensures VisibleItems(user) == Navigation
  {
    FilterKeepsAll(Navigation, (it: NavItem) => CanAccessItem(it, user));
  }

  lemma AdminIsNoForumRole()
    ensures Admin !in ForumRoles
  {
  }

  /** Admins, and a visitor not signed in, see every main link but the forum. */
  lemma OthersMissOnlyTheForum(user: Option<Role>)
    requires user == None || user == Some(Admin)
    ensures VisibleItems(user) == OpenItems
  {
    FilterConcat(OpenItems, [ForumItem], (it: NavItem) => CanAccessItem(it, user));
    FilterKeepsAll(OpenItems, (it: NavItem) => CanAccessItem(it, user));
    ForumFilteredOut(user);
  }

  lemma ForumFilteredOut(user: Option<Role>)
    requires user == None || user == Some(Admin)
    ensures Filter([ForumItem], (it: NavItem) => CanAccessItem(it, user)) == []
  {
    AdminIsNoForumRole();
    assert [ForumItem][1..] == [];
  }

  /** The links of the administrator section, drawn only when the user is an admin. */
  function AdminLinks(user: Option<Role>): (r: seq<NavItem>)
    ensures r != [] <==> user == Some(Admin)
    ensures user == Some(Admin) ==> r == AdminNavigation[0].children
  {
    if user == Some(Admin) then
      var sections := Filter(AdminNavigation, (sec: NavItem) => CanAccessItem(sec, user));
      assert AdminNavigation[0] in sections;
      FilterKeepsAll(AdminNavigation, (sec: NavItem) => CanAccessItem(sec, user));
      Children(sections)
    else []
  }

  /** The children of the sections, section after section. */
  function Children(sections: seq<NavItem>): seq<NavItem> {
    if sections == [] then [] else sections[0].children + Children(sections[1..])
  }

  /** On any path at most one of the main links is lit. */
  lemma AtMostOneActive(path: string, i: nat, j: nat)
    requires i < j < |Navigation|
    ensures !(IsActiveLink(path, Navigation[i].href) && IsActiveLink(path, Navigation[j].href))
  {
    ActiveSecondChar(path, i);
    ActiveSecondChar(path, j);
  }

  /** A lit main link fixes the path's second character (or the path is the root, for the dashboard). */
  lemma ActiveSecondChar(path: string, k: nat)
    requires k < |Navigation|
    ensures IsActiveLink(path, Navigation[k].href) ==>
      (k == 0 && path == "/") || (|path| >= 2 && path[1] == Navigation[k].href[1])
  {
  }

  /** The dashboard link is lit on the root path and on no longer path; any other link is lit on every page below it. */
  lemma ActiveLinkPaths(href: string, rest: string)
    ensures IsActiveLink("/", DashboardHref)
    ensures href != DashboardHref ==> IsActiveLink(href + rest, href)
    ensures rest != [] ==> !IsActiveLink(DashboardHref + rest, DashboardHref)
  {
    assert (href + rest)[..|href|] == href;
    assert |DashboardHref + rest| == |DashboardHref| + |rest|;
  }
}
