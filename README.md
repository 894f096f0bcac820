# LMS Informatika: a verified model of the page rules and the account service

This project models the decision logic of a university learning-management system in Dafny. The system has a React front end and a NestJS back end. Students, lecturers and admins use it to work with courses, course materials, assignments, forums, attendance and dashboards. The model covers the small sequential rules inside the pages: filters, sorts, top-N lists, validators, relative times, counters and navigation gates. It also covers the account rules of the back end's `AuthService`: login, registration, profile reading and profile update, over an abstract user store.

Fetched data, the current time ("now", a timestamp in milliseconds) and the user are parameters. Library behaviour the pages depend on also comes in as parameters:

- `parseFloat` is `parse: string -> Option<real>`, where `None` stands for `NaN`;
- `localeCompare` is `localeLe`, a total preorder on strings;
- `new URL(...)` validity is the predicate `urlValid`;
- `formatDate` is `formatDate: int -> string`;
- `getDeadlineStatus` is `statusOf`;
- bcrypt and JWT signing are the functions `hash`, `compare` and `sign`.

There is one module per source file. Shared modules model the JavaScript operations the pages chain together:

- `Wrappers` holds `Option` and `Result`;
- `JsString` holds trim, lower-casing, `includes`, `indexOf`, the first-match `replace`, `join`, `parseInt` and integer printing;
- `Lists` holds `filter`, `filter(...).length`, `slice(0, n)` and a stable `sort` on sequences;
- `ArraySort` holds the in-place `Array.prototype.sort` on an `array`;
- `Roles` holds the three user roles;
- `StudentStats` holds what both student dashboards compute.

The code works in two styles, and the model follows each:

- Where the code mutates an in-place structure, the model does too:
  - the sorts in CoursesPage, ForumsPage and AdminDashboard reorder Dafny arrays, and CoursesPage's sort can alias the page's own array;
  - `AuthService.Service` is a class whose user store the methods update;
  - `AssignmentDetail.SubmissionForm` is a class holding the page's submission state;
  - the attendance grouping, the download-path rewrite, the material validator, the tab list, the forum-post validator and `getTimeAgo` are methods with loops or step-by-step updates.
- The pure `filter`/`map` chains are functions.

## Model

| member | source | states |
|---|---|---|
| CourseDetail.GroupByDate | frontend/src/pages/courses/CourseDetailPage.tsx:1343-1350 | The loop produces the distinct dates in first-appearance order; a group exists exactly for each date, and each group holds that date's records in their order. |
| CourseDetail.Dates | frontend/src/pages/courses/CourseDetailPage.tsx:1343-1350 | The dates have no duplicates, and a date is listed iff some record carries it. |
| CourseDetail.RecordInOwnGroupOnly | frontend/src/pages/courses/CourseDetailPage.tsx:1343-1350 | Each record lies in the group of its own date and in no other group. |
| CourseDetail.PresentStudents | frontend/src/pages/courses/CourseDetailPage.tsx:1354-1356 | A record is present iff its status is 'present', 'auto_present' or 'late'; the present list keeps the day's order. |
| CourseDetail.AbsentStudents | frontend/src/pages/courses/CourseDetailPage.tsx:1359-1362 | The absentees are exactly the roster entries that match no present record's studentId, in roster order; a missing roster gives none. |
| CourseDetail.AttendanceDays | frontend/src/pages/courses/CourseDetailPage.tsx:1343-1369 | There is one day card per meeting date, in order, each with that date's present records and absentees. |
| CourseDetail.PresentAndAbsentDisjoint | frontend/src/pages/courses/CourseDetailPage.tsx:1354-1362 | No student is both present and absent on a day. |
| CourseDetail.AbsentCount | frontend/src/pages/courses/CourseDetailPage.tsx:1360 | For a roster of distinct ids, the number absent is the roster size minus the number of roster ids found among the present records. |
| CourseDetail.FilterNotInCount | frontend/src/pages/courses/CourseDetailPage.tsx:1360-1362 | The counting induction behind AbsentCount: filtering out a set of ids removes exactly the roster entries whose ids are in it. |
| CourseDetail.StripUploadsPrefix | frontend/src/pages/courses/CourseDetailPage.tsx:533 | One leading 'uploads/' or 'uploads\' is removed, and nothing else changes. |
| CourseDetail.ForwardSlashes | frontend/src/pages/courses/CourseDetailPage.tsx:536 | Every backslash becomes '/', every other character stays, and no backslash is left. |
| CourseDetail.CleanPath | frontend/src/pages/courses/CourseDetailPage.tsx:527-539 | The four successive rewrites yield CleanPathOf(filePath), which contains no backslash. |
| CourseDetail.FileDownloadUrl | frontend/src/pages/courses/CourseDetailPage.tsx:517-546 | A link with a url gives that url; a missing or empty path gives '#'; otherwise the result is base + '/uploads/' + the cleaned path, with no backslash after the prefix. |
| CourseDetail.CleanPathOfPlainName | frontend/src/pages/courses/CourseDetailPage.tsx:527-539 | A plain file name passes through the rewrites unchanged. |
| CourseDetail.CleanPathDropsLegacyPrefix | frontend/src/pages/courses/CourseDetailPage.tsx:530 | 'course-materials/name' is cleaned to 'name'. |
| CourseDetail.CleanPathOfForwardLegacy | frontend/src/pages/courses/CourseDetailPage.tsx:530-533 | 'uploads/course-materials/name' is cleaned to 'name'. |
| CourseDetail.CleanPathOfBackslashLegacy | frontend/src/pages/courses/CourseDetailPage.tsx:530-536 | 'uploads\course-materials\name' is cleaned to 'course-materials/name', because the first rewrite looks only for the forward-slash form. |
| CourseDetail.ValidateMaterialForm | frontend/src/pages/courses/CourseDetailPage.tsx:345-395 | There is one error per failing field. The threshold is checked only for an attendance-triggering video, and the URL only for links. A non-link needs a file unless a material is being edited. The result is true iff no error was recorded. |
| CourseDetail.CheckCommonFields | frontend/src/pages/courses/CourseDetailPage.tsx:348-366 | Title, type, week and order index each get an error exactly when blank, unset, outside 1..16 or below 1; no type-specific field is touched. |
| CourseDetail.CheckTypeFields | frontend/src/pages/courses/CourseDetailPage.tsx:368-391 | The earlier errors are kept. The threshold fails only for an attendance-triggering video outside 1..100. A link fails without a valid URL, with the missing or invalid message as fits. Any other type fails without a file unless it is being edited. |
| CourseDetail.Tabs | frontend/src/pages/courses/CourseDetailPage.tsx:576-589 | Everyone gets five tabs; a manager also gets Attendance inserted at position 4 and Settings appended, making seven. |
| CourseDetail.CanManageCourse | frontend/src/pages/courses/CourseDetailPage.tsx:134-140 | An admin, or the user whose id equals the course lecturer's id. |
| CourseDetail.OtherLecturerCannotManage | frontend/src/pages/courses/CourseDetailPage.tsx:134-140 | With differing ids, neither a lecturer nor a student manages the course; an admin always does. |
| CourseDetail.MissingIdsGrantManagement | frontend/src/pages/courses/CourseDetailPage.tsx:137 | Two missing ids compare equal, so any role manages then. |
| CourseDetail.TextLeIsPreorder | frontend/src/pages/courses/CourseDetailPage.tsx:817 | The default sort's string comparison of week numbers is a total preorder. |
| CourseDetail.Weeks | frontend/src/pages/courses/CourseDetailPage.tsx:817 | The weeks are the distinct weeks of the materials, sorted as decimal texts. |
| CourseDetail.WeekTenBeforeWeekTwo | frontend/src/pages/courses/CourseDetailPage.tsx:817 | When both weeks exist, week 10 is listed before week 2. |
| CourseDetail.WeekMaterials | frontend/src/pages/courses/CourseDetailPage.tsx:818 | The result is a permutation of the week's materials, ascending by orderIndex, with a missing index counted as 0. |
| CourseDetail.WeekHasMaterials | frontend/src/pages/courses/CourseDetailPage.tsx:817-818 | Every listed week has at least one material. |
| CourseDetail.NextOrderIndex | frontend/src/pages/courses/CourseDetailPage.tsx:1040 | The proposed index exceeds every index in the week and is one more than the largest. |
| AuthService.Service.FindByEmail | backend/src/auth/auth.service.ts:26-30 | It returns a stored user with that email, or none iff no user has it. |
| AuthService.Service.ValidateUserAsWritten | backend/src/auth/auth.service.ts:25-37 | The code as written: a user is returned iff one has the email, is active and the password matches; it is returned with only the selected columns, so studentId and lecturerId are missing. |
| AuthService.Service.ValidateUser | backend/src/auth/auth.service.ts:25-37 | It succeeds exactly when the as-written version does, and returns the user's ids as well. |
| AuthService.ValidateUserIff | backend/src/auth/auth.service.ts:25-37 | Validation succeeds iff some stored user has the email, is active and the password matches. |
| AuthService.Service.LoginAsWritten | backend/src/auth/auth.service.ts:39-67 | It fails with Unauthorized iff validation fails; on success the returned studentId and lecturerId are always missing. |
| AuthService.Service.Login | backend/src/auth/auth.service.ts:39-67 | It fails with Unauthorized iff validation fails. On success the user is the row `findOne` returns for the email; the token signs that user's id, email and role, and the user part carries the stored fields without the password. |
| AuthService.LoginAsWrittenDropsStudentId | backend/src/auth/auth.service.ts:29-63 | A concrete store where the as-written login drops a student's NIM and the corrected login returns it. |
| AuthService.Service.RegisterCheck | backend/src/auth/auth.service.ts:69-101 | The checks run in order. A taken email conflicts iff the email is in use. Then a supplied studentId, then a supplied lecturerId, must be unused, each conflict iff the earlier checks passed. A student without a NIM, or a lecturer without a NIDN, gets its BadRequest iff every uniqueness check passed. It passes iff every check holds. |
| AuthService.Service.Register | backend/src/auth/auth.service.ts:69-121 | A failed check leaves the store untouched. Otherwise exactly one user is appended, whose stored password is the hash of the input, and the result is that user without the password. |
| AuthService.RegisteredUserCanLogIn | backend/src/auth/auth.service.ts:39-53 | An active user, stored with the hash of a password, can log in with that password. (Also lines 104-116.) |
| AuthService.Service.GetProfile | backend/src/auth/auth.service.ts:123-134 | It fails with Unauthorized iff no user has the id; otherwise it returns that user's profile columns. |
| AuthService.ApplyUpdate | backend/src/auth/auth.service.ts:143-146 | Password, role, email, studentId and lecturerId never change. Each supplied profile field is copied, an explicit null included, and each field left out keeps its old value. |
| AuthService.StrippedFieldsIgnored | backend/src/auth/auth.service.ts:143 | Whatever the five stripped fields hold, the update gives the same user as without them. |
| AuthService.Service.UpdateProfile | backend/src/auth/auth.service.ts:136-151 | An unknown id fails and changes nothing. Otherwise only that user is replaced by the updated one, and the result omits the password. |
| AssignmentDetail.Extension | frontend/src/pages/assignments/AssignmentDetailPage.tsx:112-113 | The lowered last dot-segment contains no dot. |
| AssignmentDetail.ExtensionOfDottedName | frontend/src/pages/assignments/AssignmentDetailPage.tsx:112-113 | The extension of 'base.ext' is ext, lower-cased. |
| AssignmentDetail.UpperCaseTypeNeverMatches | frontend/src/pages/assignments/AssignmentDetailPage.tsx:112-114 | An allowed-type entry containing an upper-case letter never matches a file. |
| AssignmentDetail.FileRejection | frontend/src/pages/assignments/AssignmentDetailPage.tsx:108-125 | A file is refused iff its type is not listed (an empty list allows all) or it is larger than the limit. The type message comes first. |
| AssignmentDetail.SizeLimitIsInclusive | frontend/src/pages/assignments/AssignmentDetailPage.tsx:121-124 | A file of exactly maxFileSize MB passes; one byte more fails. |
| AssignmentDetail.SubmissionForm.HandleFileChange | frontend/src/pages/assignments/AssignmentDetailPage.tsx:108-133 | A refused file leaves the chosen file and the existing file alone and sets the error. An accepted file becomes the chosen file, clears the error and forgets the existing name and path. |
| AssignmentDetail.SubmissionForm.RemoveFile | frontend/src/pages/assignments/AssignmentDetailPage.tsx:197-201 | It clears the new file and the existing file's name and path, and nothing else. |
| AssignmentDetail.CanSubmit | frontend/src/pages/assignments/AssignmentDetailPage.tsx:236-246 | Submission is possible iff the assignment is loaded, not graded, and either not past the due date or late work is allowed. |
| AssignmentDetail.SubmitAtDueDate | frontend/src/pages/assignments/AssignmentDetailPage.tsx:236-239 | At the due date itself submission is open; one moment later it is open iff late work is allowed. |
| AssignmentDetail.IsOverdue | frontend/src/pages/assignments/AssignmentDetailPage.tsx:236-239 | Overdue iff the assignment is loaded and now is strictly after its due date. |
| AssignmentDetail.OverdueLasts | frontend/src/pages/assignments/AssignmentDetailPage.tsx:236-239 | Once overdue, an assignment stays overdue. It is not overdue at the due date itself but is one moment later, and an assignment not loaded is never overdue. |
| AssignmentDetail.CanManageAssignment | frontend/src/pages/assignments/AssignmentDetailPage.tsx:248-251 | Only a loaded assignment, and only an admin or a lecturer, may manage; never a student. |
| AssignmentDetail.TypeLabel | frontend/src/pages/assignments/AssignmentDetailPage.tsx:221-234 | An unknown type is shown as its own name. |
| AssignmentDetail.SubmissionForm.SendDisabled | frontend/src/pages/assignments/AssignmentDetailPage.tsx:500 | The final submit is enabled iff submitting is allowed, nothing is in flight, and there is content, a new file or an existing file; it is disabled whenever the draft button is. (Also line 507.) |
| AssignmentDetail.EmptyFormCannotBeSent | frontend/src/pages/assignments/AssignmentDetailPage.tsx:507 | With no content, no new file and no existing file, the final submit is disabled. |
| CreateForumPost.StripTags | frontend/src/pages/forums/CreateForumPostPage.tsx:75 | Deleting '<…>' tags never lengthens the text, leaves no '<' followed later by a '>', and leaves text without '<' alone. |
| CreateForumPost.StripTagsOfTag | frontend/src/pages/forums/CreateForumPostPage.tsx:75 | A complete tag after plain text is deleted, and the rest is stripped in turn. |
| CreateForumPost.PlainContentLength | frontend/src/pages/forums/CreateForumPostPage.tsx:73-77 | Content without '<' keeps its full length. |
| CreateForumPost.ValidateForm | frontend/src/pages/forums/CreateForumPostPage.tsx:62-85 | At most one title error: required, then min 10, then max 200 characters. At most one content error: required, then min 20 characters after tag removal. An empty course is an error. The result is true iff no error was recorded. |
| CreateForumPost.Submit | frontend/src/pages/forums/CreateForumPostPage.tsx:87-99 | Something is sent iff the form validates; what is sent is the trimmed title and content, both non-empty, with the course. |
| CreateForumPost.Preselect | frontend/src/pages/forums/CreateForumPostPage.tsx:54-56 | With exactly one course the course is preset to it; otherwise the form is unchanged. |
| ForumDetail.CanModerate | frontend/src/pages/forums/ForumDetailPage.tsx:45-48 | True iff the user is the owner, a lecturer or an admin; for a student, iff they wrote the post. |
| ForumDetail.ToggleLike | frontend/src/pages/forums/ForumDetailPage.tsx:104-116 | It flips isLiked, moves likesCount by -1 or +1, and changes nothing else. |
| ForumDetail.ToggleLikeTwice | frontend/src/pages/forums/ForumDetailPage.tsx:104-116 | Liking twice restores the post. |
| ForumDetail.ToggleLikeCountsTheUser | frontend/src/pages/forums/ForumDetailPage.tsx:104-116 | Liking an unliked post adds exactly one like. |
| ForumDetail.ReplyRequest | frontend/src/pages/forums/ForumDetailPage.tsx:118-127 | Blank text sends nothing. Otherwise the trimmed, non-empty text is sent, with a parent iff a reply is being answered. |
| ForumDetail.SubmitReply | frontend/src/pages/forums/ForumDetailPage.tsx:118-140 | The created reply is appended last, repliesCount rises by one (missing = 0), and the input is cleared; blank text changes nothing. |
| ForumDetail.WithContent | frontend/src/pages/forums/ForumDetailPage.tsx:152-154 | Only the replies with the id get the new content. |
| ForumDetail.UpdateReply | frontend/src/pages/forums/ForumDetailPage.tsx:148-160 | On success the target reply's content is replaced and editing ends; blank text or a failure changes nothing. |
| ForumDetail.EditTouchesOnlyTarget | frontend/src/pages/forums/ForumDetailPage.tsx:152-154 | Every other reply is unchanged, and the target differs only in its content. |
| ForumDetail.WithoutReply | frontend/src/pages/forums/ForumDetailPage.tsx:167 | Exactly the replies with other ids remain. |
| ForumDetail.WithoutReplyKeepsOrder | frontend/src/pages/forums/ForumDetailPage.tsx:167 | The remaining replies keep their order. |
| ForumDetail.DeleteReply | frontend/src/pages/forums/ForumDetailPage.tsx:162-176 | After confirmation and success the reply is removed, and repliesCount drops by one when it is defined. The reply input, the reply target and the editor stay as they were. Otherwise nothing changes. |
| ForumDetail.DeletedReplyIsGone | frontend/src/pages/forums/ForumDetailPage.tsx:162-176 | No reply with the deleted id remains. |
| ForumDetail.MarkAnswer | frontend/src/pages/forums/ForumDetailPage.tsx:182-185 | isAnswer becomes true exactly for the replies with the id; nothing else changes. |
| ForumDetail.MarkAsAnswer | frontend/src/pages/forums/ForumDetailPage.tsx:178-190 | A non-owner changes nothing. For the owner, after success the replies become `MarkAnswer` of the old ones, so exactly the target is the answer. The post is marked answered, and the reply input, the reply target and the editor stay as they were. |
| ForumDetail.LaterAnswerReplacesEarlier | frontend/src/pages/forums/ForumDetailPage.tsx:182-185 | Marking a second answer undoes the first. |
| ForumDetail.TogglePin | frontend/src/pages/forums/ForumDetailPage.tsx:192-200 | Only a moderator's successful call flips isPinned. |
| ForumDetail.TimeAgo | frontend/src/pages/forums/ForumDetailPage.tsx:202-220 | Under 60 s it says 'Baru saja'. Otherwise the loop returns the first unit of year, 30-day month, week, day, hour or minute with a whole count of at least 1, and that count. |
| ForumDetail.FirstFitCountsOne | frontend/src/pages/forums/ForumDetailPage.tsx:212-217 | The unit chosen has elapsed at least once, so at least 60 s have passed. |
| ForumDetail.HoursBetweenHourAndDay | frontend/src/pages/forums/ForumDetailPage.tsx:204-217 | From one hour up to one day the unit chosen is hours. |
| ForumDetail.ToggleReplyExpansion | frontend/src/pages/forums/ForumDetailPage.tsx:222-230 | Only the membership of the given id flips. |
| ForumDetail.ToggledTwiceIsIdentity | frontend/src/pages/forums/ForumDetailPage.tsx:222-230 | Toggling twice restores the set. |
| Courses.Selected | frontend/src/pages/courses/CoursesPage.tsx:80-101 | The selected courses form a sub-multiset of the list; with no query and no filter the list is unchanged. |
| Courses.SelectedMembers | frontend/src/pages/courses/CoursesPage.tsx:80-101 | A course is selected iff it is listed, matches the query (case-insensitive name, code or description) and satisfies every filter that is set. |
| Courses.SelectedIsSubsequence | frontend/src/pages/courses/CoursesPage.tsx:80-101 | The filters keep the courses' order. |
| Courses.NonNumericCreditsMatchNothing | frontend/src/pages/courses/CoursesPage.tsx:95-96 | A credits filter that parseInt reads as NaN leaves no course. |
| Courses.PrintedCreditsMatch | frontend/src/pages/courses/CoursesPage.tsx:95-96 | A credits filter holding a course's printed (non-negative) credits matches that course. |
| Courses.CourseOrderIsPreorder | frontend/src/pages/courses/CoursesPage.tsx:103-120 | Every key and direction of the comparator gives a total preorder. |
| Courses.MostStudentsFirst | frontend/src/pages/courses/CoursesPage.tsx:112-117 | Sorted by students descending, each course has at least as many students as the next, a missing count being 0. |
| Courses.FilteredAndSorted | frontend/src/pages/courses/CoursesPage.tsx:80-123 | The result is sorted by the chosen key and direction and is a permutation of the selection. With no filter the page's own array is sorted in place; otherwise a new array is sorted and the page's is untouched. |
| Forums.AllPostsMembers | frontend/src/pages/forums/ForumsPage.tsx:57-63 | A post is gathered iff some course's response holds it. |
| Forums.AllPostsLength | frontend/src/pages/forums/ForumsPage.tsx:57-63 | The gathered posts number the sum of the responses' sizes. |
| Forums.AllPostsConcat | frontend/src/pages/forums/ForumsPage.tsx:63 | Gathering distributes over the course list, keeping course order. |
| Forums.FailedCourseContributesNothing | frontend/src/pages/forums/ForumsPage.tsx:58-59 | A failed course adds no post and drops no other one. |
| Forums.ModeOrderIsPreorder | frontend/src/pages/forums/ForumsPage.tsx:66-72 | Each sort mode's comparator is a total preorder. |
| Forums.SortedPosts | frontend/src/pages/forums/ForumsPage.tsx:51-72 | The posts are a permutation of those gathered: newest first for 'latest', oldest first for 'oldest', most likes (missing = 0) first for 'popular'. |
| Forums.QuickReact | frontend/src/pages/forums/ForumsPage.tsx:87-96 | The target post gains one like (missing = 0), and every other post stays. |
| Forums.QuickReactAddsOne | frontend/src/pages/forums/ForumsPage.tsx:87-96 | With one post of that id, total likes rise by exactly one. |
| Forums.ShowLoadMore | frontend/src/pages/forums/ForumsPage.tsx:258 | The load-more button shows iff at least ten posts are listed. |
| Forums.LoadMoreIgnoresOrder | frontend/src/pages/forums/ForumsPage.tsx:258 | Two permutations of the posts show the button alike, so sorting never shows or hides it. |
| StudentForum.FilteredPosts | frontend/src/pages/forums/StudentForumDashboard.tsx:62-69 | A post is kept iff its lowered title or content contains the lowered query and it passes the type filter. 'questions' keeps only questions; 'answers' keeps only posts with a parent. |
| StudentForum.FilteredPostsIsSubsequence | frontend/src/pages/forums/StudentForumDashboard.tsx:62-69 | The kept posts are in their original order. |
| StudentForum.NothingFilteredOut | frontend/src/pages/forums/StudentForumDashboard.tsx:62-69 | 'all' with an empty query keeps every post. |
| StudentForum.TypeFiltersNarrowAll | frontend/src/pages/forums/StudentForumDashboard.tsx:65-67 | A type filter shows no post that 'all' would hide. |
| StudentStats.PendingPlusCompleted | frontend/src/pages/dashboard/StudentDashboard.tsx:64-65 | Pending and completed assignments add up to all assignments. |
| StudentStats.CompletionRate | frontend/src/pages/dashboard/StudentDashboard.tsx:66-68 | The rate is 0 with no assignments, at most 100, and the whole percentage nearest the exact one, halves rounded up. |
| StudentStats.CompletionRateEnds | frontend/src/pages/dashboard/StudentDashboard.tsx:66-68 | All done gives 100 and none done gives 0. |
| StudentStats.Upcoming | frontend/src/pages/dashboard/StudentDashboard.tsx:71-75 | The pending assignments due after now, soonest first. There are five of them, or all when fewer are due, and none occurs more often than it is listed. |
| StudentStats.UpcomingAreSoonest | frontend/src/pages/dashboard/StudentDashboard.tsx:71-75 | An upcoming assignment left off the list is due no sooner than any listed one. |
| StudentStats.DeadlineItems | frontend/src/pages/dashboard/StudentDashboard.tsx:75-81 | There is one entry per upcoming assignment, in order, with its status from the due date. |
| StudentStats.NewestFirst | frontend/src/pages/dashboard/StudentDashboard.tsx:112-114 | Five items, or all when there are fewer, newest first. They form a sub-multiset of the input. |
| StudentStats.NewestAreShown | frontend/src/pages/dashboard/StudentDashboard.tsx:112-114 | An item left out is no newer than any shown one. |
| StudentStats.UnreadCount | frontend/src/pages/dashboard/StudentDashboard.tsx:119 | The count is 0 iff every notification is read. |
| StudentStats.ActiveDiscussions | frontend/src/pages/dashboard/StudentDashboard.tsx:120 | The count is 0 iff every discussion is locked. |
| StudentDashboard.RecentAssignments | frontend/src/pages/dashboard/StudentDashboard.tsx:84-92 | Every assignment created in the last seven days gives an 'assignment' entry, and every entry is the entry of such an assignment. |
| StudentDashboard.SubmissionActivity | frontend/src/pages/dashboard/StudentDashboard.tsx:94-102 | A graded submission is a 'grade' entry and any other one an 'assignment' entry, timed at submission. |
| StudentDashboard.RecentSubmissions | frontend/src/pages/dashboard/StudentDashboard.tsx:94-102 | Every submission of the last seven days gives an entry, and every entry is the entry of such a submission. |
| StudentDashboard.RecentNotifications | frontend/src/pages/dashboard/StudentDashboard.tsx:104-110 | The entries of the first five notifications (all when there are fewer), in their order. |
| StudentDashboard.RecentActivities | frontend/src/pages/dashboard/StudentDashboard.tsx:84-114 | Five of the merged candidates, or all when there are fewer, newest first, as a sub-multiset. Each is within seven days unless it is a notification. |
| StudentDashboard.RecentActivitiesAreNewest | frontend/src/pages/dashboard/StudentDashboard.tsx:112-114 | A candidate left out of the feed is no newer than any entry shown. |
| StudentDashboard.DashboardStats | frontend/src/pages/dashboard/StudentDashboard.tsx:60-124 | With missing data read as empty: pending plus completed is the total and the rate is at most 100. The deadlines are the entries of `Upcoming`, the feed is `RecentActivities`, and the unread and open counts are `UnreadCount` and `ActiveDiscussions`. |
| StudentDashboard.SubmittedIsStillPending | frontend/src/pages/dashboard/StudentDashboard.tsx:64 | Here a handed-in but ungraded assignment is still pending. |
| EnhancedStudentDashboard.RecentActivities | frontend/src/pages/dashboard/EnhancedStudentDashboard.tsx:104-120 | Five of the candidates (the first three assignments and the first three notifications), or all when there are fewer, newest first, as a sub-multiset. |
| EnhancedStudentDashboard.RecentActivitiesAreNewest | frontend/src/pages/dashboard/EnhancedStudentDashboard.tsx:104-120 | A candidate left out of the feed is no newer than any entry shown. |
| EnhancedStudentDashboard.FullFeed | frontend/src/pages/dashboard/EnhancedStudentDashboard.tsx:104-120 | With three assignments and two notifications the feed is full. |
| EnhancedStudentDashboard.DashboardStats | frontend/src/pages/dashboard/EnhancedStudentDashboard.tsx:74-101 | The same composition under the 'submitted' rule, with this page's own feed. (Also lines 132-133.) |
| EnhancedStudentDashboard.GradedCountsAsPending | frontend/src/pages/dashboard/EnhancedStudentDashboard.tsx:74-75 | Here a graded assignment counts as pending, not completed. |
| LecturerDashboard.GreetingPart | frontend/src/pages/dashboard/LecturerDashboard.tsx:41-45 | Pagi iff hour < 11, Siang iff 11-14, Sore iff 15-17, Malam iff 18 or later. |
| LecturerDashboard.GreetingFollowsTheDay | frontend/src/pages/dashboard/LecturerDashboard.tsx:41-45 | A later hour never gives an earlier greeting. |
| LecturerDashboard.GreetingTextsDiffer | frontend/src/pages/dashboard/LecturerDashboard.tsx:42-45 | The four greetings are different texts. |
| LecturerDashboard.UpdateDraft | frontend/src/pages/dashboard/LecturerDashboard.tsx:106-114 | One field of one submission's draft is set; its other field and every other draft are kept. |
| LecturerDashboard.UpdatesOfTwoDraftsCommute | frontend/src/pages/dashboard/LecturerDashboard.tsx:106-114 | Typing into two different drafts gives the same result in either order. |
| LecturerDashboard.QuickGrade | frontend/src/pages/dashboard/LecturerDashboard.tsx:84-104 | A missing score, a non-number or a score outside 0..100 is refused; otherwise that score is sent with the feedback, or 'Dinilai via dashboard'. |
| LecturerDashboard.GradeFeedbackNeverEmpty | frontend/src/pages/dashboard/LecturerDashboard.tsx:97-101 | A sent grade always has non-empty feedback. |
| LecturerDashboard.ClearDraft | frontend/src/pages/dashboard/LecturerDashboard.tsx:72-76 | Only that submission's draft is removed. |
| LecturerDashboard.GradedDraftIsCleared | frontend/src/pages/dashboard/LecturerDashboard.tsx:72-76 | Typing a score and then grading leaves the same drafts as never typing. (Also lines 106-114.) |
| LecturerDashboard.RelativeAge | frontend/src/pages/dashboard/LecturerDashboard.tsx:133-146 | The age falls in the buckets under 1 minute, minutes under 60, hours under 24, then days, each by floor division. |
| LecturerDashboard.BucketEdges | frontend/src/pages/dashboard/LecturerDashboard.tsx:133-146 | Each bucket starts where the previous one ends. |
| LecturerDashboard.FormatRelativeTime | frontend/src/pages/dashboard/LecturerDashboard.tsx:133-146 | The text of `RelativeAge` for the whole minutes between the two timestamps. |
| LecturerDashboard.JustNowIffUnderAMinute | frontend/src/pages/dashboard/LecturerDashboard.tsx:133-146 | 'Baru saja' is shown iff less than a minute has passed, the future included. |
| LecturerDashboard.ShownSubmissions | frontend/src/pages/dashboard/LecturerDashboard.tsx:280 | At most the first four pending submissions are shown. |
| LecturerDashboard.OverflowCount | frontend/src/pages/dashboard/LecturerDashboard.tsx:380-384 | There is an overflow line iff more than four are pending, reporting count - 4. |
| LecturerDashboard.CardsAndOverflowCoverAll | frontend/src/pages/dashboard/LecturerDashboard.tsx:280 | The cards and the overflow number account for every pending submission. (Also lines 380-384.) |
| AdminDashboard.RoleCountsSum | frontend/src/pages/dashboard/AdminDashboard.tsx:42-44 | Students, lecturers and admins add up to all users. |
| AdminDashboard.StatsOf | frontend/src/pages/dashboard/AdminDashboard.tsx:39-54 | Role counts sum to totalUsers. activeCourses is at most totalCourses, with equality iff no course has isActive false. |
| AdminDashboard.MissingFlagCountsAsActive | frontend/src/pages/dashboard/AdminDashboard.tsx:45 | Adding a course without isActive to any course list raises the active count by one. |
| AdminDashboard.ActiveBadge | frontend/src/pages/dashboard/AdminDashboard.tsx:138 | The badge is students plus lecturers: at most all users, and equal to them iff there is no admin. |
| AdminDashboard.EmptyAlertIffNoUsers | frontend/src/pages/dashboard/AdminDashboard.tsx:181 | The empty-database alert shows iff there are no users. |
| AdminDashboard.NewestFive | frontend/src/pages/dashboard/AdminDashboard.tsx:56-62 | The array is reordered in place, newest first, as a permutation, and its first five are returned. |
| AdminDashboard.FetchDashboardData | frontend/src/pages/dashboard/AdminDashboard.tsx:30-65 | The statistics are those of the fetched lists. Both arrays are then sorted in place, newest first, and cut to five. |
| AdminDashboard.RecentAreNewest | frontend/src/pages/dashboard/AdminDashboard.tsx:56-62 | Nothing left out of the five is newer than any shown entry. |
| AdminDashboard.TimeAgo | frontend/src/pages/dashboard/AdminDashboard.tsx:80-89 | 'Baru saja' under 60 s; minutes under 3600 s; hours under 86400 s; days after; each by floor division and at least 1. |
| AdminDashboard.FormatTimeAgo | frontend/src/pages/dashboard/AdminDashboard.tsx:80-89 | The text of `TimeAgo` for the whole seconds between the timestamps; `FormatTimeAgoAgreesWithLecturer` equates it with `FormatRelativeTime`. |
| AdminDashboard.FormatTimeAgoAgreesWithLecturer | frontend/src/pages/dashboard/AdminDashboard.tsx:80-89 | On every pair of timestamps, the seconds ladder gives the same text as the lecturer dashboard's minutes ladder. |
| CourseStudents.StatsOf | frontend/src/pages/courses/CourseStudentManagementPage.tsx:124-130 | The total is meta.total when truthy, else the page length. Recent counts enrolments in the last 7 days and active counts isActive; each is equal to the page length iff every student qualifies. |
| CourseStudents.MissingDateIsRecent | frontend/src/pages/courses/CourseStudentManagementPage.tsx:126-128 | A student without enrolledAt counts as recent. |
| CourseStudents.Csv | frontend/src/pages/courses/CourseStudentManagementPage.tsx:234-239 | The export starts with the fixed header line. |
| CourseStudents.CsvLineCounts | frontend/src/pages/courses/CourseStudentManagementPage.tsx:235-236 | Each line holds its five fields' characters plus ten quotes and four commas. |
| CourseStudents.CsvLineBreaks | frontend/src/pages/courses/CourseStudentManagementPage.tsx:234-239 | Without newlines inside fields, the export has one line per student after the header and no trailing newline. |
| CourseStudents.QuoteInNameIsNotEscaped | frontend/src/pages/courses/CourseStudentManagementPage.tsx:236 | A quote in a name is not doubled (section 2 of RFC 4180 asks for doubling), so the line holds more than ten quotes. |
| CourseStudents.JoinCounts | frontend/src/pages/courses/CourseStudentManagementPage.tsx:237 | A join holds its parts' characters plus one separator between each two parts. |
| CourseStudents.Search | frontend/src/pages/courses/CourseStudentManagementPage.tsx:151-157 | A new term goes back to page 1 and keeps the limit and the sort. |
| CourseStudents.SetSortBy | frontend/src/pages/courses/CourseStudentManagementPage.tsx:357-364 | A new sort key goes back to page 1 and keeps the rest. |
| CourseStudents.SetSortOrder | frontend/src/pages/courses/CourseStudentManagementPage.tsx:370-377 | A new direction goes back to page 1 and keeps the rest. |
| CourseStudents.LastSearchWins | frontend/src/pages/courses/CourseStudentManagementPage.tsx:151-157 | Only the last search term counts, whatever page came between. |
| CourseStudents.EnrollByEmail | frontend/src/pages/courses/CourseStudentManagementPage.tsx:159-166 | A blank email is refused; otherwise the email is sent as typed. |
| CourseStudents.EnrollSelected | frontend/src/pages/courses/CourseStudentManagementPage.tsx:180-188 | An empty selection is refused; otherwise the selection is sent. |
| CourseStudents.CanManageStudents | frontend/src/pages/courses/CourseStudentManagementPage.tsx:84-87 | An admin, or the user whose id equals the course lecturer's id. |
| CourseStudents.SameManagersAsCoursePage | frontend/src/pages/courses/CourseStudentManagementPage.tsx:84-87 | The student page grants management to exactly the users the course page does. |
| CourseStudents.Check | frontend/src/pages/courses/CourseStudentManagementPage.tsx:611-615 | Ticking appends the id and keeps the earlier selection. |
| CourseStudents.Uncheck | frontend/src/pages/courses/CourseStudentManagementPage.tsx:616-620 | Clearing drops every occurrence of the id and keeps the other ids in order. |
| CourseStudents.CheckThenUncheck | frontend/src/pages/courses/CourseStudentManagementPage.tsx:611-620 | Ticking and then clearing leaves what clearing alone would. |
| CourseStudents.ResetSelection | frontend/src/pages/courses/CourseStudentManagementPage.tsx:199 | Reset leaves no box ticked. (Also line 643.) |
| Sidebar.CanAccessItem | frontend/src/components/layout/Sidebar.tsx:87-90 | An item without roles is open even with no user; an item with roles needs a user whose role is listed. |
| Sidebar.VisibleItems | frontend/src/components/layout/Sidebar.tsx:138-139 | Exactly the accessible items are drawn, in menu order. |
| Sidebar.ForumLinkIsForStudentsAndLecturers | frontend/src/components/layout/Sidebar.tsx:48-52 | The forum link is drawn iff the user is a student or a lecturer. (Also lines 138-139.) |
| Sidebar.StudentsAndLecturersSeeAll | frontend/src/components/layout/Sidebar.tsx:31-53 | Students and lecturers see every main link. (Also lines 138-139.) |
| Sidebar.OthersMissOnlyTheForum | frontend/src/components/layout/Sidebar.tsx:31-53 | Admins and visitors who are not signed in see every main link but the forum. (Also lines 138-139.) |
| Sidebar.AdminLinks | frontend/src/components/layout/Sidebar.tsx:169-180 | The administrator section has links iff the user is an admin, and they are the section's two children. |
| Sidebar.AtMostOneActive | frontend/src/components/layout/Sidebar.tsx:80-85 | On any path at most one main link is lit. |
| Sidebar.IsActiveLink | frontend/src/components/layout/Sidebar.tsx:80-85 | The dashboard link is lit on '/' and '/dashboard' only; any other link on every path that starts with its href. `AtMostOneActive` and `ActiveLinkPaths` state what follows. |
| Sidebar.ActiveLinkPaths | frontend/src/components/layout/Sidebar.tsx:80-85 | The dashboard link is lit on '/' but on no longer path beginning with '/dashboard'; any other link is lit on every path beginning with its href. |
| TopNavbar.CanAccess | frontend/src/components/layout/TopNavbar.tsx:32 | A link without roles is always open; otherwise it needs a user whose role is listed. |
| TopNavbar.Rendered | frontend/src/components/layout/TopNavbar.tsx:54 | A link is drawn iff canAccess holds, in bar order. |
| TopNavbar.StudentsAndLecturersGetAll | frontend/src/components/layout/TopNavbar.tsx:25-30 | Students and lecturers get all four links. (Also line 54.) |
| TopNavbar.OthersGetOpenLinks | frontend/src/components/layout/TopNavbar.tsx:25-30 | Admins and visitors get the three links without roles, and no forum. (Also line 54.) |
| TopNavbar.RootPathDiffersFromSidebar | frontend/src/components/layout/TopNavbar.tsx:33 | The bar's plain prefix test does not light Dashboard on '/', where the side navigation does. |
| TopNavbar.IsActive | frontend/src/components/layout/TopNavbar.tsx:33 | A link is lit on every path that starts with its href. `RootPathDiffersFromSidebar` contrasts it with the side navigation. |
| TopNavbar.AccessAgreesWithSidebar | frontend/src/components/layout/TopNavbar.tsx:25-32 | The bar and the side navigation list the same hrefs in the same order and grant each to the same users. |
| Lists.Filter | frontend/src/pages/dashboard/AdminDashboard.tsx:42-45 | The result holds exactly the elements that pass, as a sub-multiset. |
| Lists.SortBy | frontend/src/pages/forums/ForumsPage.tsx:66-72 | The result is sorted by the comparator and is a permutation of the input. |
| Lists.TakeOfSortedIsLeast | frontend/src/pages/dashboard/StudentDashboard.tsx:71-75 | An element left out of the first n of a sorted list is not before any of them. |
| ArraySort.SortInPlace | frontend/src/pages/dashboard/AdminDashboard.tsx:56-62 | The array is sorted in place by the comparator, as a permutation of its old contents. |
| JsString.ParseIntOfNatToString | frontend/src/pages/courses/CoursesPage.tsx:95-96 | parseInt reads back every printed natural number. |
| JsString.IsBlankIffTrimEmpty | frontend/src/pages/forums/CreateForumPostPage.tsx:65 | A text is blank iff trimming empties it, iff it is all whitespace. (Also line 73.) |

## Left out

- The video-progress and attendance back end. It is registered in backend/src/app.module.ts, but its source is not part of this model, so interval coverage, threshold crossing and attendance writing are not modelled.
- All rendering, styling, hooks, timers, react-query caching, toasts, redirects and `window.confirm`. A confirmation appears only as the boolean `confirmed`.
- Service calls and network I/O. Their results are parameters: a failed call is a `succeeded: bool`, `Failed` or `None`.
- The CSV download itself (Blob, object URL, anchor click). Only the CSV text is modelled.
- Floating point:
  - `Math.round` in the completion rate is exact rational rounding;
  - `formatFileSize` and the percentage bars are left out;
  - scores are `real`.
- Dates are integer millisecond timestamps; date parsing, locale formatting and `formatDate` are parameters.
- `localeCompare` is an arbitrary total preorder `localeLe`; `new URL` validity is the parameter `urlValid`.
- Strings are sequences of characters. Lengths count characters, not UTF-16 code units. Lower-casing maps ASCII letters only. Whitespace is ECMAScript's WhiteSpace and LineTerminator set: tab, vertical tab, form feed, space, no-break space, U+1680, U+2000 to U+200A, U+2028, U+2029, U+202F, U+205F, U+3000 and U+FEFF, plus line feed and carriage return.
- `Lists.SortBy` is a stable insertion sort. `ArraySort.SortInPlace` promises only a sorted permutation, not the engine's tie order.
- Bcrypt hashing and comparison, and JWT signing, are the uninterpreted functions `hash`, `compare` and `sign`.
- The TypeORM repository is a sequence of users with a counter for new ids. `findOne` returns the first match; column defaults other than `isActive` are left out.
- The mock numbers and the `Math.random` progress values in EnhancedStudentDashboard.tsx are left out.
- Header.tsx, Layout.tsx, CreateCoursePage.tsx, ProfilePage.tsx, DashboardPage.tsx, seeds and migrations carry no logic in scope.
- CreateForumPost.StripTags: the contract states the length bound, the absence of a complete tag and containment of '>'; it does not state that every remaining character comes from the input.
- AssignmentDetail.SubmissionForm.DraftDisabled has no contract of its own; SendDisabled relates the two buttons.
- CourseStudents.EnrollByEmail and CourseStudents.EnrollSelected model the input guards only; both handlers also return early while the course is not loaded, which the page never shows.
- AuthService.ApplyUpdate: the update carries only the five stripped fields and the profile columns (fullName, phone, address, avatar, isActive). `Object.assign` would also copy `id`, `createdAt` or any other entity column that a caller supplies, and `save` would then write under the supplied key. The User entity and TypeORM's `save` are not part of this model, so the contract's unchanged `id` and `createdAt`, and the unique ids that `UpdateProfile` keeps, hold only for updates without those columns. An explicit `null` for `fullName` or `isActive` is not modelled either; the model holds both as plain values.
- ForumDetail.DeleteReply: `repliesCount` is `Option<int>`, so a `null` count is not told apart from a missing one. The code tests only `!== undefined`, so a `null` count would become -1 (`null - 1`); the model leaves such a count unchanged.
- CourseDetail.GroupByDate lists the dates in first-appearance order, which is how `Object.entries` orders string keys. JavaScript would list keys that are canonical non-negative integers first, in numeric order. Attendance dates are date strings and never have that form.
- CourseDetail.CanManageCourse and CourseStudents.CanManageStudents, like the code, also hold when both the lecturer id and the user id are missing.
- CourseDetail.NextOrderIndex requires a non-empty week, as the "add to week" button exists only under a week that has materials.

## Findings

| source | as written | input that shows it | evidently intended | confidence | as-written member | corrected member |
|---|---|---|---|---|---|---|
| backend/src/auth/auth.service.ts:29 | `validateUser` selects only id, email, password, fullName, role, isActive and createdAt, so `login` (lines 62-63) reads the `studentId` and `lecturerId` of a user loaded without them | a store holding one active student with NIM "2021001", logging in with the right password: the response's `studentId` is undefined | the login response carries the user's NIM or NIDN, as lines 62-63 read them | not executed | AuthService.Service.LoginAsWritten (shown by AuthService.LoginAsWrittenDropsStudentId) | AuthService.Service.Login |
