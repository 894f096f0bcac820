/**
 * The course list: the search and the three filters, and the sort by
 * the chosen key in the chosen direction. The sort works in place on
 * the array it is given; when no filter applies that array is the
 * page's own course list.
 */
module Courses {
  import opened Wrappers
  import opened JsString
  import opened Lists
  import opened ArraySort

  datatype Course = Course(
    id: string, name: string, code: string, description: Option<string>,
    semester: string, credits: int, lecturerName: string, studentsCount: Option<int>)

  datatype SortKey = ByName | ByCode | ByCredits | ByStudentsCount

  datatype SortOrder = Asc | Desc

  /** The filter panel; an empty text means that filter is off. */
  datatype Filters = Filters(semester: string, credits: string, lecturer: string, sortBy: SortKey, sortOrder: SortOrder)

  /** The query, lowered, occurs in the lowered name, code or (present) description. */
  predicate MatchesQuery(c: Course, query: string) {
    var q := ToLower(query);
    Includes(ToLower(c.name), q) || Includes(ToLower(c.code), q)
    || (c.description.Some? && Includes(ToLower(c.description.value), q))
  }

  /**
   * `course.credits === parseInt(filters.credits)`: a filter text that
   * does not parse is `NaN`, which equals no number.
   */
  predicate MatchesCredits(c: Course, credits: string) {
    ParseInt(credits) == Some(c.credits)
  }

  predicate MatchesLecturer(c: Course, lecturer: string) {
    Includes(ToLower(c.lecturerName), ToLower(lecturer))
  }

  /** Every filter that is on holds. */
  predicate Matches(c: Course, query: string, f: Filters) {
    && (query != [] ==> MatchesQuery(c, query))
    && (f.semester != [] ==> c.semester == f.semester)
    && (f.credits != [] ==> MatchesCredits(c, f.credits))
    && (f.lecturer != [] ==> MatchesLecturer(c, f.lecturer))
  }

  predicate NoFilter(query: string, f: Filters) {
    query == [] && f.semester == [] && f.credits == [] && f.lecturer == []
  }

  /** `s.filter(p)` when `on`, and `s` itself otherwise. */
  function FilterIf(s: seq<Course>, on: bool, p: Course -> bool): (r: seq<Course>)
    ensures forall c :: c in r <==> c in s && (on ==> p(c))
    ensures multiset(r) <= multiset(s)
    ensures !on ==> r == s
  {
    if on then Filter(s, p) else s
  }

  /**
   * The chain of `filter` calls, each applied only when its text is
   * non-empty: the courses that match, in their order.
   */
  function Selected(courses: seq<Course>, query: string, f: Filters): (r: seq<Course>)
    ensures multiset(r) <= multiset(courses)
    ensures NoFilter(query, f) ==> r == courses
  {
    var s1 := FilterIf(courses, query != [], (c: Course) => MatchesQuery(c, query));
    var s2 := FilterIf(s1, f.semester != [], (c: Course) => c.semester == f.semester);
    var s3 := FilterIf(s2, f.credits != [], (c: Course) => MatchesCredits(c, f.credits));
    FilterIf(s3, f.lecturer != [], (c: Course) => MatchesLecturer(c, f.lecturer))
  }

  /** A course is selected exactly when it is listed and every filter that is on holds for it. */
  lemma SelectedMembers(courses: seq<Course>, query: string, f: Filters, c: Course)
    ensures c in Selected(courses, query, f) <==> c in courses && Matches(c, query, f)
  {
    var s1 := FilterIf(courses, query != [], (c: Course) => MatchesQuery(c, query));
    var s2 := FilterIf(s1, f.semester != [], (c: Course) => c.semester == f.semester);
    var s3 := FilterIf(s2, f.credits != [], (c: Course) => MatchesCredits(c, f.credits));
    assert c in s1 <==> c in courses && (query != [] ==> MatchesQuery(c, query));
    assert c in s2 <==> c in s1 && (f.semester != [] ==> c.semester == f.semester);
    assert c in s3 <==> c in s2 && (f.credits != [] ==> MatchesCredits(c, f.credits));
  }

  /** The filters only remove courses and keep the order of the rest. */
  lemma FilterIfIsSubsequence(s: seq<Course>, on: bool, p: Course -> bool)
    ensures IsSubsequence(FilterIf(s, on, p), s)
  {
    if on {
      FilterIsSubsequence(s, p);
    } else {
      SubsequenceReflexive(s);
    }
  }

  lemma SelectedIsSubsequence(courses: seq<Course>, query: string, f: Filters)
    ensures IsSubsequence(Selected(courses, query, f), courses)
  {
    var s1 := FilterIf(courses, query != [], (c: Course) => MatchesQuery(c, query));
    var s2 := FilterIf(s1, f.semester != [], (c: Course) => c.semester == f.semester);
    var s3 := FilterIf(s2, f.credits != [], (c: Course) => MatchesCredits(c, f.credits));
    var s4 := FilterIf(s3, f.lecturer != [], (c: Course) => MatchesLecturer(c, f.lecturer));
    FilterIfIsSubsequence(courses, query != [], (c: Course) => MatchesQuery(c, query));
    FilterIfIsSubsequence(s1, f.semester != [], (c: Course) => c.semester == f.semester);
    FilterIfIsSubsequence(s2, f.credits != [], (c: Course) => MatchesCredits(c, f.credits));
    FilterIfIsSubsequence(s3, f.lecturer != [], (c: Course) => MatchesLecturer(c, f.lecturer));
    SubsequenceTransitive(s2, s1, courses);
    SubsequenceTransitive(s3, s2, courses);
    SubsequenceTransitive(s4, s3, courses);
  }

  /** A credits filter that is not a number leaves no course. */
  lemma NonNumericCreditsMatchNothing(courses: seq<Course>, query: string, f: Filters)
    requires f.credits != [] && ParseInt(f.credits).None?
    ensures forall c :: c !in Selected(courses, query, f)
  {
    forall c ensures c !in Selected(courses, query, f) {
      SelectedMembers(courses, query, f, c);
    }
  }

  /** A credits filter holding the printed credits of a course keeps that course. */
  lemma PrintedCreditsMatch(c: Course)
    requires c.credits >= 0
    ensures MatchesCredits(c, IntToString(c.credits))
  {
    ParseIntOfNatToString(c.credits);
  }

  // ---- The comparator ----

  /** The sort key as a number, for the keys compared by subtraction; a missing count is 0. */
  function NumericKey(c: Course, key: SortKey): int {
    if key == ByCredits then c.credits
    else if c.studentsCount.Some? then c.studentsCount.value else 0
  }

  /**
   * `le(a, b)` when the comparator puts `a` no later than `b`: the key's
   * order for 'asc', its reverse for 'desc'. Names and codes are
   * compared with `localeLe`, the order `localeCompare` induces.
   */
  function CourseOrder(f: Filters, localeLe: (string, string) -> bool): (Course, Course) -> bool {
    match f.sortBy
    case ByName =>
      if f.sortOrder == Asc then (a: Course, b: Course) => localeLe(a.name, b.name)
      else (a: Course, b: Course) => localeLe(b.name, a.name)
    case ByCode =>
      if f.sortOrder == Asc then (a: Course, b: Course) => localeLe(a.code, b.code)
      else (a: Course, b: Course) => localeLe(b.code, a.code)
    case _ =>
      if f.sortOrder == Asc then AscendingBy((c: Course) => NumericKey(c, f.sortBy))
      else DescendingBy((c: Course) => NumericKey(c, f.sortBy))
  }

  lemma CourseOrderIsPreorder(f: Filters, localeLe: (string, string) -> bool)
    requires TotalPreorder(localeLe)
    ensures TotalPreorder(CourseOrder(f, localeLe))
  {
    var le := CourseOrder(f, localeLe);
    if f.sortBy == ByName || f.sortBy == ByCode {
      var text := (c: Course) => if f.sortBy == ByName then c.name else c.code;
      assert forall a: Course, b: Course :: le(a, b) == if f.sortOrder == Asc then localeLe(text(a), text(b)) else localeLe(text(b), text(a));
      forall a: Course, b: Course ensures le(a, b) || le(b, a) {
        assert localeLe(text(a), text(b)) || localeLe(text(b), text(a));
      }
      forall a: Course, b: Course, c: Course | le(a, b) && le(b, c) ensures le(a, c) {
        if f.sortOrder == Asc {
          assert localeLe(text(a), text(b)) && localeLe(text(b), text(c));
        } else {
          assert localeLe(text(c), text(b)) && localeLe(text(b), text(a));
        }
      }
    } else {
      KeyOrdersArePreorders((c: Course) => NumericKey(c, f.sortBy));
    }
  }

  /** Sorted by students, descending: each course has at least as many (missing = 0) as the next. */
  lemma MostStudentsFirst(s: seq<Course>, f: Filters, localeLe: (string, string) -> bool, i: nat, j: nat)
    requires f.sortBy == ByStudentsCount && f.sortOrder == Desc
    requires Sorted(s, CourseOrder(f, localeLe)) && i < j < |s|
    ensures s[i].studentsCount.GetOr(0) >= s[j].studentsCount.GetOr(0)
  {
    assert CourseOrder(f, localeLe)(s[i], s[j]);
  }

  /**
   * `filteredAndSortedCourses`: the matching courses, sorted. With no
   * query and no filter the array sorted is `courses` itself, so the
   * page's list is reordered; otherwise a new array is sorted and
   * `courses` is left alone.
   */
  method FilteredAndSorted(courses: array<Course>, query: string, f: Filters, localeLe: (string, string) -> bool)
    returns (result: array<Course>)
    requires TotalPreorder(localeLe)
    modifies courses
    ensures Sorted(result[..], CourseOrder(f, localeLe))
    ensures multiset(result[..]) == multiset(Selected(old(courses[..]), query, f))
    ensures forall c :: c in result[..] <==> c in old(courses[..]) && Matches(c, query, f)
    ensures NoFilter(query, f) ==> result == courses
    ensures !NoFilter(query, f) ==> fresh(result) && courses[..] == old(courses[..])
  {
    var filtered := Selected(courses[..], query, f);
    CourseOrderIsPreorder(f, localeLe);
    if NoFilter(query, f) {
      result := courses;
    } else {
      result := ArrayOf(filtered);
    }
    SortInPlace(result, CourseOrder(f, localeLe));
    SameMembers(result[..], filtered);
    forall c ensures c in filtered <==> c in old(courses[..]) && Matches(c, query, f) {
      SelectedMembers(old(courses[..]), query, f, c);
    }
  }
}
