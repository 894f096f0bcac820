/**
 * What the two student dashboards compute from the fetched assignments,
 * notifications and discussions: which assignments are still pending,
 * the completion rate, the nearest deadlines, the newest activities and
 * the unread and open counts. The dashboards differ in the submission
 * status that counts as done, which is the parameter `done` here.
 * Times are timestamps in milliseconds; `now` is passed in.
 */
module StudentStats {
  import opened Wrappers
  import opened Lists

  datatype Submission = Submission(id: string, status: string, submittedAt: int)

  datatype Assignment = Assignment(
    id: string, title: string, courseName: string, dueDate: int, createdAt: int,
    mySubmission: Option<Submission>)

  datatype Notification = Notification(id: string, kind: string, title: string, message: string, createdAt: int, isRead: bool)

  datatype Discussion = Discussion(id: string, isLocked: bool)

  /** An entry of the activity feed. */
  datatype Activity = Activity(id: string, kind: string, title: string, description: string, timestamp: int)

  /** An entry of the deadline list; `status` is what `getDeadlineStatus` says of the due date. */
  datatype DeadlineItem<S> = DeadlineItem(id: string, title: string, courseName: string, dueDate: int, status: S)

  const MaxDeadlines := 5
  const MaxActivities := 5

  // ---- Pending and completed ----

  /** No submission, or one whose status is not `done`. */
  predicate IsPending(a: Assignment, done: string) {
    a.mySubmission.None? || a.mySubmission.value.status != done
  }

  predicate IsCompleted(a: Assignment, done: string) {
    a.mySubmission.Some? && a.mySubmission.value.status == done
  }

  function PendingCount(assignments: seq<Assignment>, done: string): nat {
    Count(assignments, (a: Assignment) => IsPending(a, done))
  }

  function CompletedCount(assignments: seq<Assignment>, done: string): nat {
    Count(assignments, (a: Assignment) => IsCompleted(a, done))
  }

  /** Every assignment is either pending or completed, never both. */
  lemma PendingPlusCompleted(assignments: seq<Assignment>, done: string)
    ensures PendingCount(assignments, done) + CompletedCount(assignments, done) == |assignments|
  {
    CountComplement(assignments, (a: Assignment) => IsPending(a, done), (a: Assignment) => IsCompleted(a, done));
  }

  /**
   * `Math.round(completed / total * 100)`, or 0 without assignments:
   * the whole percentage nearest to the exact one, halves rounded up.
   */
  function CompletionRate(completed: nat, total: nat): (r: nat)
    requires completed <= total
    ensures r <= 100
    ensures total == 0 ==> r == 0
    ensures total > 0 ==> (2 * r - 1) * total <= 200 * completed < (2 * r + 1) * total
  {
    if total == 0 then 0 else RoundedPercent(completed, total); (200 * completed + total) / (2 * total)
  }

  /** Division by `2 * total` rounds `200 * completed / total` to the nearest whole number. */
  lemma RoundedPercent(completed: nat, total: nat)
    requires 0 < total && completed <= total
    ensures var r := (200 * completed + total) / (2 * total);
      0 <= r <= 100 && (2 * r - 1) * total <= 200 * completed < (2 * r + 1) * total
  {
    var n := 200 * completed + total;
    var d := 2 * total;
    var r := n / d;
    DivisionParts(n, d);
    OddMultiples(r, total);
    assert n < d * 101;
    ProductBound(d, r, 101);
  }

  lemma DivisionParts(n: int, d: int)
    requires d > 0
    ensures n == d * (n / d) + n % d && 0 <= n % d < d
  {
  }

  lemma OddMultiples(r: int, t: int)
    ensures (2 * r - 1) * t == 2 * t * r - t && (2 * r + 1) * t == 2 * t * r + t
  {
  }

  lemma ProductBound(d: int, r: int, k: int)
    requires d > 0 && d * r < d * k
    ensures r < k
  {
    assert d * k - d * r == d * (k - r);
  }

  /** All done gives 100 and nothing done gives 0. */
  lemma CompletionRateEnds(total: nat)
    requires total > 0
    ensures CompletionRate(total, total) == 100 && CompletionRate(0, total) == 0
  {
  }

  // ---- Deadlines ----

  predicate IsUpcoming(a: Assignment, now: int, done: string) {
    IsPending(a, done) && a.dueDate > now
  }

  function ByDueDate(): (Assignment, Assignment) -> bool {
    AscendingBy((a: Assignment) => a.dueDate)
  }

  /** The pending assignments due after `now`, in their order. */
  function UpcomingCandidates(assignments: seq<Assignment>, now: int, done: string): seq<Assignment> {
    Filter(assignments, (a: Assignment) => IsUpcoming(a, now, done))
  }

  /**
   * The deadline list before its entries are built: the pending
   * assignments due after `now`, soonest first, five of them (all of
   * them when there are fewer), each as often as it is listed.
   */
  function Upcoming(assignments: seq<Assignment>, now: int, done: string): (r: seq<Assignment>)
    ensures var due := UpcomingCandidates(assignments, now, done);
      |r| == (if |due| < MaxDeadlines then |due| else MaxDeadlines) && multiset(r) <= multiset(due)
    ensures forall a :: a in r ==> a in assignments && IsUpcoming(a, now, done)
    ensures forall i, j :: 0 <= i < j < |r| ==> r[i].dueDate <= r[j].dueDate
  {
    KeyOrdersArePreorders((a: Assignment) => a.dueDate);
    var due := UpcomingCandidates(assignments, now, done);
    var sorted := SortBy(due, ByDueDate());
    var r := Take(sorted, MaxDeadlines);
    forall a | a in r ensures a in due {
      assert a in sorted;
      assert a in multiset(sorted);
    }
    forall i, j | 0 <= i < j < |r| ensures r[i].dueDate <= r[j].dueDate {
      assert r[i] == sorted[i] && r[j] == sorted[j];
      assert ByDueDate()(sorted[i], sorted[j]);
    }
    r
  }

  /** An upcoming assignment left off the list is due no sooner than any listed one. */
  lemma UpcomingAreSoonest(assignments: seq<Assignment>, now: int, done: string, a: Assignment)
    requires a in assignments && IsUpcoming(a, now, done)
    ensures var r := Upcoming(assignments, now, done);
      a in r || forall b :: b in r ==> b.dueDate <= a.dueDate
  {
    KeyOrdersArePreorders((x: Assignment) => x.dueDate);
    var due := UpcomingCandidates(assignments, now, done);
    TakeOfSortedIsLeast(due, ByDueDate(), MaxDeadlines, a);
  }

  /** The entries shown for the deadlines, one per assignment, in order. */
  function DeadlineItems<S>(r: seq<Assignment>, statusOf: int -> S): (items: seq<DeadlineItem<S>>)
    ensures |items| == |r|
    ensures forall i :: 0 <= i < |r| ==>
      items[i].id == r[i].id && items[i].dueDate == r[i].dueDate && items[i].status == statusOf(r[i].dueDate)
  {
    seq(|r|, i requires 0 <= i < |r| =>
      DeadlineItem(r[i].id, r[i].title, r[i].courseName, r[i].dueDate, statusOf(r[i].dueDate)))
  }

  // ---- Activities ----

  function ByNewest(): (Activity, Activity) -> bool {
    DescendingBy((x: Activity) => x.timestamp)
  }

  /**
   * `.sort(newest first).slice(0, 5)`: five activities (all of them when
   * there are fewer), newest first, each as often as it is given.
   */
  function NewestFirst(activities: seq<Activity>): (r: seq<Activity>)
    ensures |r| == if |activities| < MaxActivities then |activities| else MaxActivities
    ensures multiset(r) <= multiset(activities)
    ensures forall x :: x in r ==> x in activities
    ensures forall i, j :: 0 <= i < j < |r| ==> r[i].timestamp >= r[j].timestamp
  {
    KeyOrdersArePreorders((x: Activity) => x.timestamp);
    var sorted := SortBy(activities, ByNewest());
    var r := Take(sorted, MaxActivities);
    forall x | x in r ensures x in activities {
      assert x in sorted;
      assert x in multiset(sorted);
    }
    forall i, j | 0 <= i < j < |r| ensures r[i].timestamp >= r[j].timestamp {
      assert r[i] == sorted[i] && r[j] == sorted[j];
      assert ByNewest()(sorted[i], sorted[j]);
    }
    r
  }

  /** An activity left out of the feed is no newer than any shown one. */
  lemma NewestAreShown(activities: seq<Activity>, x: Activity)
    requires x in activities
    ensures var r := NewestFirst(activities);
      x in r || forall y :: y in r ==> y.timestamp >= x.timestamp
  {
    KeyOrdersArePreorders((a: Activity) => a.timestamp);
    TakeOfSortedIsLeast(activities, ByNewest(), MaxActivities, x);
  }

  /** The feed entry of a new assignment. */
  function AssignmentActivity(a: Assignment): Activity {
    Activity(a.id, "assignment", "Tugas baru: " + a.title, a.courseName, a.createdAt)
  }

  /** The feed entry of a notification. */
  function NotificationActivity(n: Notification): Activity {
    Activity(n.id, n.kind, n.title, n.message, n.createdAt)
  }

  function MapAssignments(s: seq<Assignment>): (r: seq<Activity>)
    ensures |r| == |s| && forall i :: 0 <= i < |s| ==> r[i] == AssignmentActivity(s[i])
  {
    seq(|s|, i requires 0 <= i < |s| => AssignmentActivity(s[i]))
  }

  function MapNotifications(s: seq<Notification>): (r: seq<Activity>)
    ensures |r| == |s| && forall i :: 0 <= i < |s| ==> r[i] == NotificationActivity(s[i])
  {
    seq(|s|, i requires 0 <= i < |s| => NotificationActivity(s[i]))
  }

  // ---- Counts ----

  /** `notifications.filter(n => !n.isRead).length`. */
  function UnreadCount(notifications: seq<Notification>): (n: nat)
    ensures n <= |notifications|
    ensures n == 0 <==> forall x :: x in notifications ==> x.isRead
  {
    var unread := Filter(notifications, (x: Notification) => !x.isRead);
    assert unread != [] ==> unread[0] in unread;
    |unread|
  }

  /** `forums.filter(f => !f.isLocked).length`. */
  function ActiveDiscussions(forums: seq<Discussion>): (n: nat)
    ensures n <= |forums|
    ensures n == 0 <==> forall x :: x in forums ==> x.isLocked
  {
    var open := Filter(forums, (x: Discussion) => !x.isLocked);
    assert open != [] ==> open[0] in open;
    |open|
  }
}
