/**
 * The top navigation bar: the links drawn for the signed-in user and
 * the one that lights up for the current path.
 */
module TopNavbar {
  import opened Wrappers
  import opened JsString
  import opened Lists
  import opened Roles
  import Sidebar

  /** A link of the bar; `roles` missing means everybody may use it. */
  datatype NavLink = NavLink(name: string, href: string, roles: Option<seq<Role>>)

  const DashboardHref := "/dashboard"
  const ForumRoles: seq<Role> := [Student, Lecturer]
  const ForumLink := NavLink("Forum", "/forums", Some(ForumRoles))

  const OpenLinks: seq<NavLink> := [
    NavLink("Dashboard", DashboardHref, None),
    NavLink("Mata Kuliah", "/courses", None),
    NavLink("Tugas", "/assignments", None)
  ]

  const Navigation: seq<NavLink> := OpenLinks + [ForumLink]

  /** `canAccess`: no roles, or a signed-in user whose role is listed. */
  function CanAccess(link: NavLink, user: Option<Role>): (b: bool)
    ensures link.roles.None? ==> b
    ensures link.roles.Some? ==> (b <==> user.Some? && user.value in link.roles.value)
  {
    link.roles.None? || (user.Some? && user.value in link.roles.value)
  }

  /** `isActive`: a plain prefix test on the path. */
  predicate IsActive(path: string, href: string) {
    StartsWith(path, href)
  }

  /** The links drawn: exactly those `canAccess` lets through, in bar order. */
  function Rendered(user: Option<Role>): (r: seq<NavLink>)
    ensures forall l :: l in r <==> l in Navigation && CanAccess(l, user)
    ensures IsSubsequence(r, Navigation)
  {
    FilterIsSubsequence(Navigation, (l: NavLink) => CanAccess(l, user));
    Filter(Navigation, (l: NavLink) => CanAccess(l, user))
  }

  lemma AdminIsNoForumRole()
    ensures Admin !in ForumRoles
  {
  }

  /** Students and lecturers get every link, the forum included. */
  lemma StudentsAndLecturersGetAll(user: Option<Role>)
    requires user == Some(Student) || user == Some(Lecturer)
    ensures Rendered(user) == Navigation
  {
    FilterKeepsAll(Navigation, (l: NavLink) => CanAccess(l, user));
  }

  /** Admins and visitors get the three open links and no forum. */
  lemma OthersGetOpenLinks(user: Option<Role>)
    requires user == None || user == Some(Admin)
    ensures Rendered(user) == OpenLinks
  {
    FilterConcat(OpenLinks, [ForumLink], (l: NavLink) => CanAccess(l, user));
    FilterKeepsAll(OpenLinks, (l: NavLink) => CanAccess(l, user));
    ForumFilteredOut(user);
  }

  lemma ForumFilteredOut(user: Option<Role>)
    requires user == None || user == Some(Admin)
    ensures Filter([ForumLink], (l: NavLink) => CanAccess(l, user)) == []
  {
    AdminIsNoForumRole();
    assert [ForumLink][1..] == [];
  }

  /**
   * Unlike the side navigation, the bar does not light the dashboard link
   * on the root path; below "/dashboard" both agree.
   */
  lemma RootPathDiffersFromSidebar(rest: string)
    ensures !IsActive("/", DashboardHref) && Sidebar.IsActiveLink("/", Sidebar.DashboardHref)
    ensures IsActive(DashboardHref + rest, DashboardHref)
  {
    assert (DashboardHref + rest)[..|DashboardHref|] == DashboardHref;
  }

  /** The bar and the side navigation agree on who may use which of their shared links. */
  lemma AccessAgreesWithSidebar(user: Option<Role>, i: nat)
    requires i < |Navigation|
    ensures Navigation[i].href == Sidebar.Navigation[i].href
    ensures CanAccess(Navigation[i], user) == Sidebar.CanAccessItem(Sidebar.Navigation[i], user)
  {
  }
}
