/**
 * The enhanced student dashboard: handed-in work counts as done, so
 * graded work counts as pending; the activity feed is the first three
 * assignments and the first three notifications, newest first.
 */
module EnhancedStudentDashboard {
  import opened Wrappers
  import opened Lists
  import opened StudentStats

  const Done := "submitted"

  /** The candidates of the feed: the first three assignments and the first three notifications. */
  function FeedCandidates(assignments: seq<Assignment>, notifications: seq<Notification>): seq<Activity> {
    MapAssignments(Take(assignments, 3)) + MapNotifications(Take(notifications, 3))
  }

  /**
   * `recentActivities`: five of the (at most six) candidates, or all of
   * them when there are fewer, newest first.
   */
  function RecentActivities(assignments: seq<Assignment>, notifications: seq<Notification>): (r: seq<Activity>)
    ensures var all := FeedCandidates(assignments, notifications);
      && |r| == (if |all| < MaxActivities then |all| else MaxActivities)
      && multiset(r) <= multiset(all)
    ensures forall i, j :: 0 <= i < j < |r| ==> r[i].timestamp >= r[j].timestamp
    ensures forall x :: x in r ==>
      (exists i :: 0 <= i < |assignments| && i < 3 && x == AssignmentActivity(assignments[i]))
      || (exists i :: 0 <= i < |notifications| && i < 3 && x == NotificationActivity(notifications[i]))
  {
    var r := NewestFirst(FeedCandidates(assignments, notifications));
    forall x | x in r ensures
      (exists i :: 0 <= i < |assignments| && i < 3 && x == AssignmentActivity(assignments[i]))
      || (exists i :: 0 <= i < |notifications| && i < 3 && x == NotificationActivity(notifications[i]))
    {
      CandidateOrigin(assignments, notifications, x);
    }
    r
  }

  /** Each candidate is the entry of one of the first three assignments or notifications. */
  lemma CandidateOrigin(assignments: seq<Assignment>, notifications: seq<Notification>, x: Activity)
    requires x in FeedCandidates(assignments, notifications)
    ensures (exists i :: 0 <= i < |assignments| && i < 3 && x == AssignmentActivity(assignments[i]))
      || (exists i :: 0 <= i < |notifications| && i < 3 && x == NotificationActivity(notifications[i]))
  {
    var fromAssignments := MapAssignments(Take(assignments, 3));
    var fromNotifications := MapNotifications(Take(notifications, 3));
    if x in fromAssignments {
      var i :| 0 <= i < |fromAssignments| && fromAssignments[i] == x;
      assert Take(assignments, 3)[i] == assignments[i];
    } else {
      assert x in fromNotifications;
      var i :| 0 <= i < |fromNotifications| && fromNotifications[i] == x;
      assert Take(notifications, 3)[i] == notifications[i];
    }
  }

  /** A candidate left out of the feed is no newer than any entry shown. */
  lemma RecentActivitiesAreNewest(assignments: seq<Assignment>, notifications: seq<Notification>, x: Activity)
    requires x in FeedCandidates(assignments, notifications)
    ensures var r := RecentActivities(assignments, notifications);
      x in r || forall y :: y in r ==> y.timestamp >= x.timestamp
  {
    NewestAreShown(FeedCandidates(assignments, notifications), x);
  }

  /** With at least five candidates the feed is full. */
  lemma FullFeed(assignments: seq<Assignment>, notifications: seq<Notification>)
    requires |assignments| >= 3 && |notifications| >= 2
    ensures |RecentActivities(assignments, notifications)| == MaxActivities
  {
    assert |MapAssignments(Take(assignments, 3)) + MapNotifications(Take(notifications, 3))| >= 5;
  }

  datatype Stats<S> = Stats(
    enrolledCourses: nat, pendingAssignments: nat, unreadNotifications: nat, activeDiscussions: nat,
    completionRate: nat, upcomingDeadlines: seq<DeadlineItem<S>>, recentActivities: seq<Activity>)

  /** The statistics that are computed from fetched data (the rest of the page's figures are fixed). */
  function DashboardStats<S>(
    courseCount: nat, assignmentsData: Option<seq<Assignment>>, notificationsData: Option<seq<Notification>>,
    forums: seq<Discussion>, now: int, statusOf: int -> S): (st: Stats<S>)
    ensures var assignments := assignmentsData.GetOr([]);
      && st.pendingAssignments + CompletedCount(assignments, Done) == |assignments|
      && st.completionRate == CompletionRate(CompletedCount(assignments, Done), |assignments|)
      && st.completionRate <= 100
      && |st.upcomingDeadlines| <= MaxDeadlines
      && |st.recentActivities| <= MaxActivities
      && st.upcomingDeadlines == DeadlineItems(Upcoming(assignments, now, Done), statusOf)
      && st.recentActivities == RecentActivities(assignments, notificationsData.GetOr([]))
    ensures st.enrolledCourses == courseCount
    ensures st.unreadNotifications == UnreadCount(notificationsData.GetOr([]))
    ensures st.activeDiscussions == ActiveDiscussions(forums)
  {
    var assignments := assignmentsData.GetOr([]);
    var notifications := notificationsData.GetOr([]);
    PendingPlusCompleted(assignments, Done);
    Stats(
      courseCount, PendingCount(assignments, Done), UnreadCount(notifications), ActiveDiscussions(forums),
      CompletionRate(CompletedCount(assignments, Done), |assignments|),
      DeadlineItems(Upcoming(assignments, now, Done), statusOf),
      RecentActivities(assignments, notifications))
  }

  /** Under this dashboard's rule a graded assignment is pending. */
  lemma GradedCountsAsPending(a: Assignment)
    requires a.mySubmission.Some? && a.mySubmission.value.status == "graded"
    ensures IsPending(a, Done) && !IsCompleted(a, Done)
  {
  }
}
