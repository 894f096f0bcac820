/**
 * The student dashboard: graded work counts as done, the activity feed
 * merges the last week's new assignments and submissions with the
 * first five notifications.
 */
module StudentDashboard {
  import opened Wrappers
  import opened Lists
  import opened StudentStats

  const Done := "graded"

  /** Seven days in milliseconds. */
  const Week := 7 * 24 * 60 * 60 * 1000

  /** The assignments created in the last seven days, as feed entries. */
  function RecentAssignments(assignments: seq<Assignment>, now: int): (r: seq<Activity>)
    ensures forall x :: x in r ==> x.timestamp > now - Week && x.kind == "assignment"
    ensures forall a :: a in assignments && a.createdAt > now - Week ==> AssignmentActivity(a) in r
    ensures forall x :: x in r ==> exists a :: a in assignments && a.createdAt > now - Week && x == AssignmentActivity(a)
  {
    var created := Filter(assignments, (a: Assignment) => a.createdAt > now - Week);
    var r := MapAssignments(created);
    forall a | a in created ensures AssignmentActivity(a) in r {
      var i :| 0 <= i < |created| && created[i] == a;
      assert r[i] == AssignmentActivity(a);
    }
    forall x | x in r ensures exists a :: a in assignments && a.createdAt > now - Week && x == AssignmentActivity(a) {
      var i :| 0 <= i < |r| && r[i] == x;
      assert created[i] in created;
    }
    r
  }

  predicate SubmittedRecently(a: Assignment, now: int) {
    a.mySubmission.Some? && a.mySubmission.value.submittedAt > now - Week
  }

  /** The feed entry of a submission: a grade once graded, otherwise a handed-in assignment. */
  function SubmissionActivity(a: Assignment): (x: Activity)
    requires a.mySubmission.Some?
    ensures x.kind == (if a.mySubmission.value.status == Done then "grade" else "assignment")
    ensures x.timestamp == a.mySubmission.value.submittedAt
  {
    var s := a.mySubmission.value;
    if s.status == Done then Activity(s.id, "grade", "Tugas dinilai: " + a.title, a.courseName, s.submittedAt)
    else Activity(s.id, "assignment", "Tugas dikumpulkan: " + a.title, a.courseName, s.submittedAt)
  }

  /** The submissions of the last seven days, as feed entries. */
  function RecentSubmissions(assignments: seq<Assignment>, now: int): (r: seq<Activity>)
    ensures forall x :: x in r ==> x.timestamp > now - Week
    ensures forall a :: a in assignments && SubmittedRecently(a, now) ==> SubmissionActivity(a) in r
    ensures forall x :: x in r ==> exists a :: a in assignments && SubmittedRecently(a, now) && x == SubmissionActivity(a)
  {
    var recent := Filter(assignments, (a: Assignment) => SubmittedRecently(a, now));
    var r := seq(|recent|, i requires 0 <= i < |recent| => assert recent[i] in recent; SubmissionActivity(recent[i]));
    forall a | a in recent ensures SubmissionActivity(a) in r {
      var i :| 0 <= i < |recent| && recent[i] == a;
      assert r[i] == SubmissionActivity(a);
    }
    forall x | x in r ensures exists a :: a in assignments && SubmittedRecently(a, now) && x == SubmissionActivity(a) {
      var i :| 0 <= i < |r| && r[i] == x;
      assert recent[i] in recent;
    }
    r
  }

  /** The first five notifications (all of them when there are fewer), as feed entries. */
  function RecentNotifications(notifications: seq<Notification>): (r: seq<Activity>)
    ensures |r| == if |notifications| < MaxActivities then |notifications| else MaxActivities
    ensures forall i :: 0 <= i < |r| ==> r[i] == NotificationActivity(notifications[i])
  {
    var first := Take(notifications, MaxActivities);
    var r := MapNotifications(first);
    assert forall i :: 0 <= i < |first| ==> first[i] == notifications[i];
    r
  }

  /** Everything the feed chooses from: the week's assignments and submissions, then the notifications. */
  function FeedCandidates(assignments: seq<Assignment>, notifications: seq<Notification>, now: int): seq<Activity> {
    RecentAssignments(assignments, now) + RecentSubmissions(assignments, now) + RecentNotifications(notifications)
  }

  /**
   * `recentActivities`: the three sources merged, newest first, five of
   * them (all when there are fewer); whatever does not come from a
   * notification is from the last seven days.
   */
  function RecentActivities(assignments: seq<Assignment>, notifications: seq<Notification>, now: int): (r: seq<Activity>)
    ensures var all := FeedCandidates(assignments, notifications, now);
      && |r| == (if |all| < MaxActivities then |all| else MaxActivities)
      && multiset(r) <= multiset(all)
    ensures forall i, j :: 0 <= i < j < |r| ==> r[i].timestamp >= r[j].timestamp
    ensures forall x :: x in r ==> x in RecentNotifications(notifications) || x.timestamp > now - Week
    ensures forall x :: x in r ==>
      x in RecentAssignments(assignments, now) || x in RecentSubmissions(assignments, now) || x in RecentNotifications(notifications)
  {
    NewestFirst(FeedCandidates(assignments, notifications, now))
  }

  /** A candidate left out of the feed is no newer than any entry shown. */
  lemma RecentActivitiesAreNewest(assignments: seq<Assignment>, notifications: seq<Notification>, now: int, x: Activity)
    requires x in FeedCandidates(assignments, notifications, now)
    ensures var r := RecentActivities(assignments, notifications, now);
      x in r || forall y :: y in r ==> y.timestamp >= x.timestamp
  {
    NewestAreShown(FeedCandidates(assignments, notifications, now), x);
  }

  datatype Stats<S> = Stats(
    enrolledCourses: nat, pendingAssignments: nat, unreadNotifications: nat, activeDiscussions: nat,
    completionRate: nat, upcomingDeadlines: seq<DeadlineItem<S>>, recentActivities: seq<Activity>)

  /**
   * The dashboard's statistics from what was fetched: a missing
   * assignment or notification list counts as empty.
   */
  function DashboardStats<S>(
    courseCount: nat, assignmentsData: Option<seq<Assignment>>, notificationsData: Option<seq<Notification>>,
    forums: seq<Discussion>, now: int, statusOf: int -> S): (st: Stats<S>)
    ensures var assignments := assignmentsData.GetOr([]);
      && st.pendingAssignments + CompletedCount(assignments, Done) == |assignments|
      && st.completionRate == CompletionRate(CompletedCount(assignments, Done), |assignments|)
      && st.completionRate <= 100
      && |st.upcomingDeadlines| <= MaxDeadlines
      && |st.recentActivities| <= MaxActivities
      && st.upcomingDeadlines == DeadlineItems(Upcoming(assignments, now, Done), statusOf)
      && st.recentActivities == RecentActivities(assignments, notificationsData.GetOr([]), now)
    ensures st.enrolledCourses == courseCount
    ensures st.unreadNotifications == UnreadCount(notificationsData.GetOr([]))
    ensures st.activeDiscussions == ActiveDiscussions(forums)
  {
    var assignments := assignmentsData.GetOr([]);
    var notifications := notificationsData.GetOr([]);
    PendingPlusCompleted(assignments, Done);
    Stats(
      courseCount, PendingCount(assignments, Done), UnreadCount(notifications), ActiveDiscussions(forums),
      CompletionRate(CompletedCount(assignments, Done), |assignments|),
      DeadlineItems(Upcoming(assignments, now, Done), statusOf),
      RecentActivities(assignments, notifications, now))
  }

  /** Graded work is done here; work only handed in still counts as pending. */
  lemma SubmittedIsStillPending(a: Assignment)
    requires a.mySubmission.Some? && a.mySubmission.value.status == "submitted"
    ensures IsPending(a, Done)
  {
  }
}
