/**
 * The admin dashboard: the user counts per role, the active-course
 * count, the five newest users and courses (the fetched arrays are
 * sorted in place first), the relative age of an entry, the "active"
 * badge and the empty-database alert.
 */
module AdminDashboard {
  import opened Wrappers
  import opened Lists
  import opened ArraySort
  import opened Roles
  import opened LecturerDashboard

  datatype User = User(id: string, role: Role, createdAt: int)

  /** A course; `isActive` may be missing. */
  datatype Course = Course(id: string, isActive: Option<bool>, createdAt: int)

  datatype AdminStats = AdminStats(
    totalUsers: nat, totalStudents: nat, totalLecturers: nat, totalAdmins: nat,
    totalCourses: nat, activeCourses: nat)

  function RoleCount(users: seq<User>, role: Role): nat {
    Count(users, (u: User) => u.role == role)
  }

  /** `c.isActive !== false`: a course without the flag counts as active. */
  predicate CountsAsActive(c: Course) {
    c.isActive != Some(false)
  }

  /** Every user has exactly one of the three roles, so the role counts add up to the total. */
  lemma {:induction false} RoleCountsSum(users: seq<User>)
    ensures RoleCount(users, Student) + RoleCount(users, Lecturer) + RoleCount(users, Admin) == |users|
  {
    if users != [] {
      RoleCountsSum(users[1..]);
    }
  }

  /** The figures of the statistics cards. */
  function StatsOf(users: seq<User>, courses: seq<Course>): (st: AdminStats)
    ensures st.totalStudents + st.totalLecturers + st.totalAdmins == st.totalUsers == |users|
    ensures st.activeCourses <= st.totalCourses == |courses|
    ensures st.activeCourses == st.totalCourses <==> forall c :: c in courses ==> CountsAsActive(c)
  {
    RoleCountsSum(users);
    CountIsLengthIff(courses, CountsAsActive);
    AdminStats(|users|, RoleCount(users, Student), RoleCount(users, Lecturer), RoleCount(users, Admin),
               |courses|, Count(courses, CountsAsActive))
  }

  /** A course with no `isActive` at all is counted as running: adding one raises the active count by one. */
  lemma MissingFlagCountsAsActive(users: seq<User>, courses: seq<Course>, c: Course)
    requires c.isActive.None?
    ensures StatsOf(users, courses + [c]).activeCourses == StatsOf(users, courses).activeCourses + 1
  {
    FilterConcat(courses, [c], CountsAsActive);
    assert Filter([c], CountsAsActive) == [c];
  }

  /** The "N Aktif" badge: students and lecturers, never more than all users. */
  function ActiveBadge(st: AdminStats): (n: nat)
    requires st.totalStudents + st.totalLecturers + st.totalAdmins == st.totalUsers
    ensures n <= st.totalUsers
    ensures n == st.totalUsers <==> st.totalAdmins == 0
  {
    st.totalStudents + st.totalLecturers
  }

  /** The "Database Kosong" alert. */
  predicate ShowEmptyAlert(st: AdminStats) {
    st.totalUsers == 0
  }

  lemma EmptyAlertIffNoUsers(users: seq<User>, courses: seq<Course>)
    ensures ShowEmptyAlert(StatsOf(users, courses)) <==> users == []
  {
  }

  /**
   * `array.sort(newest first).slice(0, 5)`: the array itself is sorted,
   * newest `createdAt` first, and its first five are the recent list.
   */
  method NewestFive<T(!new)>(a: array<T>, createdAt: T -> int) returns (recent: seq<T>)
    modifies a
    ensures multiset(a[..]) == multiset(old(a[..]))
    ensures forall i, j :: 0 <= i < j < a.Length ==> createdAt(a[i]) >= createdAt(a[j])
    ensures recent == Take(a[..], 5)
    ensures |recent| <= 5
  {
    KeyOrdersArePreorders(createdAt);
    SortInPlace(a, DescendingBy(createdAt));
    forall i, j | 0 <= i < j < a.Length ensures createdAt(a[i]) >= createdAt(a[j]) {
      assert DescendingBy(createdAt)(a[..][i], a[..][j]);
    }
    recent := Take(a[..], 5);
  }

  /** `fetchDashboardData`: the statistics, then both arrays sorted in place and cut to five. */
  method FetchDashboardData(users: array<User>, courses: array<Course>)
    returns (st: AdminStats, recentUsers: seq<User>, recentCourses: seq<Course>)
    modifies users, courses
    ensures st == StatsOf(old(users[..]), old(courses[..]))
    ensures multiset(users[..]) == multiset(old(users[..])) && multiset(courses[..]) == multiset(old(courses[..]))
    ensures recentUsers == Take(users[..], 5) && recentCourses == Take(courses[..], 5)
    ensures forall i, j :: 0 <= i < j < users.Length ==> users[i].createdAt >= users[j].createdAt
    ensures forall i, j :: 0 <= i < j < courses.Length ==> courses[i].createdAt >= courses[j].createdAt
  {
    st := StatsOf(users[..], courses[..]);
    recentUsers := NewestFive(users, (u: User) => u.createdAt);
    recentCourses := NewestFive(courses, (c: Course) => c.createdAt);
  }

  /** The first five of a sorted array are the newest: whatever is left out is no newer. */
  lemma RecentAreNewest<T>(s: seq<T>, createdAt: T -> int, k: nat)
    requires forall i, j :: 0 <= i < j < |s| ==> createdAt(s[i]) >= createdAt(s[j])
    requires 5 <= k < |s|
    ensures forall x :: x in Take(s, 5) ==> createdAt(x) >= createdAt(s[k])
  {
    forall x | x in Take(s, 5) ensures createdAt(x) >= createdAt(s[k]) {
      var i :| 0 <= i < 5 && Take(s, 5)[i] == x;
      assert s[i] == x;
    }
  }

  // ---- Relative time ----

  /**
   * `formatTimeAgo` on whole seconds elapsed: under a minute, then
   * minutes below an hour, hours below a day, then days, each count
   * rounded down.
   */
  function TimeAgo(seconds: int): (a: Age)
    ensures a == JustNow <==> seconds < 60
    ensures a.Minutes? ==> a.n == seconds / 60 && 1 <= a.n < 60
    ensures a.Hours? ==> a.n == seconds / 3600 && 1 <= a.n < 24
    ensures a.Days? ==> a.n == seconds / 86400 && a.n >= 1
  {
    if seconds < 60 then JustNow
    else if seconds < 3600 then Minutes(seconds / 60)
    else if seconds < 86400 then Hours(seconds / 3600)
    else Days(seconds / 86400)
  }

  function FormatTimeAgo(nowMs: int, dateMs: int): string {
    AgeText(TimeAgo((nowMs - dateMs) / 1000))
  }

  lemma SecondsToMinutes(ms: int)
    ensures ms / 1000 / 60 == ms / 60000
  {
    var s := ms / 1000;
    assert ms == 1000 * s + ms % 1000;
    assert s == 60 * (s / 60) + s % 60;
    assert ms == 60000 * (s / 60) + 1000 * (s % 60) + ms % 1000;
  }

  lemma MinutesToHours(s: int)
    ensures s / 60 / 60 == s / 3600
  {
    var m := s / 60;
    assert s == 60 * m + s % 60;
    assert m == 60 * (m / 60) + m % 60;
    assert s == 3600 * (m / 60) + 60 * (m % 60) + s % 60;
  }

  lemma MinutesToDays(s: int)
    ensures s / 60 / 1440 == s / 86400
  {
    var m := s / 60;
    assert s == 60 * m + s % 60;
    assert m == 1440 * (m / 1440) + m % 1440;
    assert s == 86400 * (m / 1440) + 60 * (m % 1440) + s % 60;
  }

  /**
   * The admin dashboard's seconds ladder and the lecturer dashboard's
   * minutes ladder give the same text for every pair of timestamps.
   */
  lemma FormatTimeAgoAgreesWithLecturer(nowMs: int, dateMs: int)
    ensures FormatTimeAgo(nowMs, dateMs) == FormatRelativeTime(nowMs, dateMs)
  {
    var s := (nowMs - dateMs) / 1000;
    var m := MinutesBetween(nowMs, dateMs);
    SecondsToMinutes(nowMs - dateMs);
    assert m == s / 60;
    MinutesToHours(s);
    MinutesToDays(s);
    if m >= 60 && m / 60 >= 24 {
      HoursToDays(m);
    }
    assert TimeAgo(s) == RelativeAge(m);
  }
}
