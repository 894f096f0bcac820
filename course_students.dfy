/**
 * The student management page of a course: the enrollment statistics of
 * the fetched page of students, the CSV text of the export, the query
 * whose search and sort changes go back to page one, the enrollment
 * guards and the checkbox selection of students to enroll.
 */
module CourseStudents {
  import opened Wrappers
  import opened JsString
  import opened Lists
  import opened Roles
  import CourseDetail

  /** An enrolled student; `enrolledAt` (a timestamp) may be missing. */
  datatype Student = Student(
    id: string, fullName: string, studentId: string, email: string, isActive: bool,
    enrolledAt: Option<int>)

  datatype EnrollmentStats = EnrollmentStats(totalStudents: int, recentEnrollments: nat, activeStudents: nat)

  /** Seven days in milliseconds. */
  const Week := 7 * 24 * 60 * 60 * 1000

  // ---- Statistics ----

  /** Enrolled within the last seven days; a student without a date is taken as enrolled now. */
  predicate IsRecent(s: Student, now: int) {
    s.enrolledAt.GetOr(now) > now - Week
  }

  /**
   * The statistics set after a fetch: `meta.total` when it is there and
   * not 0, else the number of students fetched; the recent and active
   * students are counted on the fetched page.
   */
  function StatsOf(data: seq<Student>, metaTotal: Option<int>, now: int): (st: EnrollmentStats)
    ensures st.totalStudents == if metaTotal.Some? && metaTotal.value != 0 then metaTotal.value else |data|
    ensures st.recentEnrollments <= |data| && st.activeStudents <= |data|
    ensures st.activeStudents == |data| <==> forall s :: s in data ==> s.isActive
    ensures st.recentEnrollments == |data| <==> forall s :: s in data ==> IsRecent(s, now)
  {
    CountIsLengthIff(data, (s: Student) => s.isActive);
    CountIsLengthIff(data, (s: Student) => IsRecent(s, now));
    EnrollmentStats(
      if metaTotal.Some? && metaTotal.value != 0 then metaTotal.value else |data|,
      Count(data, (s: Student) => IsRecent(s, now)),
      Count(data, (s: Student) => s.isActive))
  }

  /** A student whose enrollment date is missing always counts as recent. */
  lemma MissingDateIsRecent(s: Student, now: int)
    requires s.enrolledAt.None?
    ensures IsRecent(s, now)
  {
  }

  // ---- CSV export ----

  const HeaderNames := "Nama,NIM,Email,Status,Tanggal Daftar"
  const Newline: string := ['\n']
  /** The header line, ended by its newline. */
  const CsvHeader := HeaderNames + Newline
  const Quote := "\""
  /** What closes one field and opens the next. */
  const FieldBreak := "\",\""

  function StatusText(s: Student): string {
    if s.isActive then "Aktif" else "Tidak Aktif"
  }

  /** The date column: `formatDate` of the enrollment date, or of now when it is missing. */
  function DateText(s: Student, formatDate: int -> string, now: int): string {
    formatDate(s.enrolledAt.GetOr(now))
  }

  /** The five fields of a student's line. */
  function Fields(s: Student, formatDate: int -> string, now: int): seq<string> {
    [s.fullName, s.studentId, s.email, StatusText(s), DateText(s, formatDate, now)]
  }

  /**
   * One student's line: the five fields, each in double quotes and
   * separated by commas, quotes inside a field left as they are.
   */
  function CsvLine(s: Student, formatDate: int -> string, now: int): string {
    Quote + Join(Fields(s, formatDate, now), FieldBreak) + Quote
  }

  function CsvLines(students: seq<Student>, formatDate: int -> string, now: int): (r: seq<string>)
    ensures |r| == |students|
    ensures forall i :: 0 <= i < |students| ==> r[i] == CsvLine(students[i], formatDate, now)
  {
    seq(|students|, i requires 0 <= i < |students| => CsvLine(students[i], formatDate, now))
  }

  /** The exported text: the header line, then the students' lines joined by newlines. */
  function Csv(students: seq<Student>, formatDate: int -> string, now: int): (r: string)
    ensures CsvHeader <= r
  {
    CsvHeader + Join(CsvLines(students, formatDate, now), Newline)
  }

  /** How often `c` occurs in `s`. */
  function CharCount(s: string, c: char): nat {
    if s == [] then 0 else (if s[0] == c then 1 else 0) + CharCount(s[1..], c)
  }

  lemma {:induction false} CharCountConcat(a: string, b: string, c: char)
    ensures CharCount(a + b, c) == CharCount(a, c) + CharCount(b, c)
  {
    if a == [] {
      assert a + b == b;
    } else {
      assert (a + b)[1..] == a[1..] + b;
      CharCountConcat(a[1..], b, c);
    }
  }

  lemma {:induction false} CharCountZero(s: string, c: char)
    ensures CharCount(s, c) == 0 <==> c !in s
  {
    if s != [] {
      CharCountZero(s[1..], c);
      assert forall x :: x in s <==> x == s[0] || x in s[1..];
    }
  }

  function Indicator(b: bool): nat {
    if b then 1 else 0
  }

  function CountIn(parts: seq<string>, c: char): nat {
    if parts == [] then 0 else CharCount(parts[0], c) + CountIn(parts[1..], c)
  }

  /** A join holds each part's characters and one separator between each two parts. */
  lemma {:induction false} JoinCounts(parts: seq<string>, sep: string, c: char)
    requires parts != []
    ensures CharCount(Join(parts, sep), c) == CountIn(parts, c) + (|parts| - 1) * CharCount(sep, c)
  {
    if |parts| > 1 {
      JoinCounts(parts[1..], sep, c);
      CharCountConcat(parts[0], sep, c);
      CharCountConcat(parts[0] + sep, Join(parts[1..], sep), c);
      MultipleStep(|parts| - 1, CharCount(sep, c));
    } else {
      assert parts[1..] == [];
    }
  }

  lemma MultipleStep(n: nat, k: nat)
    requires n >= 1
    ensures n * k == k + (n - 1) * k
  {
  }

  lemma QuoteCounts(c: char)
    ensures CharCount(Quote, c) == Indicator(c == '"')
    ensures CharCount(FieldBreak, c) == 2 * Indicator(c == '"') + Indicator(c == ',')
  {
    assert Quote == [] + ['"'];
    assert FieldBreak == [] + ['"'] + [','] + ['"'];
  }

  /**
   * Any character occurs in a line as often as in its five fields, plus
   * the ten quotes and four commas the line adds: so a line has ten
   * quotes exactly when no field holds one.
   */
  lemma CsvLineCounts(s: Student, formatDate: int -> string, now: int, c: char)
    ensures CharCount(CsvLine(s, formatDate, now), c)
      == CountIn(Fields(s, formatDate, now), c) + 10 * Indicator(c == '"') + 4 * Indicator(c == ',')
  {
    var fields := Fields(s, formatDate, now);
    var body := Join(fields, FieldBreak);
    QuoteCounts(c);
    JoinCounts(fields, FieldBreak, c);
    CharCountConcat(Quote, body, c);
    CharCountConcat(Quote + body, Quote, c);
  }

  /** Joining parts without newlines by newlines gives one newline fewer than parts. */
  lemma JoinNewlines(parts: seq<string>)
    requires parts != []
    requires forall i :: 0 <= i < |parts| ==> '\n' !in parts[i]
    ensures CharCount(Join(parts, Newline), '\n') == |parts| - 1
  {
    NewlineCount();
    JoinCounts(parts, Newline, '\n');
    NoneInParts(parts, '\n');
  }

  lemma {:induction false} NoneInParts(parts: seq<string>, c: char)
    requires forall i :: 0 <= i < |parts| ==> c !in parts[i]
    ensures CountIn(parts, c) == 0
  {
    if parts != [] {
      CharCountZero(parts[0], c);
      NoneInParts(parts[1..], c);
    }
  }

  /** The fields of a student that a newline inside would split across lines. */
  predicate NoNewlineInFields(s: Student, formatDate: int -> string, now: int) {
    '\n' !in s.fullName && '\n' !in s.studentId && '\n' !in s.email && '\n' !in DateText(s, formatDate, now)
  }

  /**
   * With no newline inside any field, the export has one line per
   * student after the header and no trailing newline: as many newlines
   * as students (one, the header's, when there are none).
   */
  lemma CsvLineBreaks(students: seq<Student>, formatDate: int -> string, now: int)
    requires forall s :: s in students ==> NoNewlineInFields(s, formatDate, now)
    ensures CharCount(Csv(students, formatDate, now), '\n') == if students == [] then 1 else |students|
  {
    var lines := CsvLines(students, formatDate, now);
    HeaderHasOneNewline();
    CharCountConcat(CsvHeader, Join(lines, Newline), '\n');
    if students != [] {
      forall i | 0 <= i < |lines| ensures '\n' !in lines[i] {
        LineHasNoNewline(students[i], formatDate, now);
      }
      JoinNewlines(lines);
    }
  }

  lemma NewlineCount()
    ensures CharCount(Newline, '\n') == 1
  {
    assert Newline[0] == '\n' && Newline[1..] == [];
  }

  lemma NamesHaveNoNewline()
    ensures '\n' !in HeaderNames
  {
  }

  lemma HeaderHasOneNewline()
    ensures CharCount(CsvHeader, '\n') == 1
  {
    NewlineCount();
    CharCountConcat(HeaderNames, Newline, '\n');
    NamesHaveNoNewline();
    CharCountZero(HeaderNames, '\n');
  }

  lemma LineHasNoNewline(s: Student, formatDate: int -> string, now: int)
    requires NoNewlineInFields(s, formatDate, now)
    ensures '\n' !in CsvLine(s, formatDate, now)
  {
    var fields := Fields(s, formatDate, now);
    assert forall i :: 0 <= i < |fields| ==> '\n' !in fields[i];
    NoneInParts(fields, '\n');
    CsvLineCounts(s, formatDate, now, '\n');
    CharCountZero(CsvLine(s, formatDate, now), '\n');
  }

  /** A quote inside a name is not doubled, so that line no longer holds exactly ten quotes. */
  lemma QuoteInNameIsNotEscaped(s: Student, formatDate: int -> string, now: int)
    requires '"' in s.fullName
    ensures CharCount(CsvLine(s, formatDate, now), '"') > 10
  {
    CsvLineCounts(s, formatDate, now, '"');
    CharCountZero(s.fullName, '"');
  }

  // ---- Query ----

  datatype SortField = FullName | StudentIdField | EnrolledAt
  datatype Direction = Asc | Desc

  /** The query sent for the students; the page starts at 1 with 24 per page, sorted by name. */
  datatype StudentsQuery = StudentsQuery(search: Option<string>, page: nat, limit: nat, sortBy: SortField, sortOrder: Direction)

  const InitialQuery := StudentsQuery(None, 1, 24, FullName, Asc)

  /** `handleStudentSearch`: the new term, back to page one, the rest kept. */
  function Search(q: StudentsQuery, term: string): (r: StudentsQuery)
    ensures r.search == Some(term) && r.page == 1
    ensures r.limit == q.limit && r.sortBy == q.sortBy && r.sortOrder == q.sortOrder
  {
    q.(search := Some(term), page := 1)
  }

  function SetSortBy(q: StudentsQuery, field: SortField): (r: StudentsQuery)
    ensures r.sortBy == field && r.page == 1
    ensures r.search == q.search && r.limit == q.limit && r.sortOrder == q.sortOrder
  {
    q.(sortBy := field, page := 1)
  }

  function SetSortOrder(q: StudentsQuery, order: Direction): (r: StudentsQuery)
    ensures r.sortOrder == order && r.page == 1
    ensures r.search == q.search && r.limit == q.limit && r.sortBy == q.sortBy
  {
    q.(sortOrder := order, page := 1)
  }

  /** Only the last search term counts, whatever page the first one led to. */
  lemma LastSearchWins(q: StudentsQuery, a: string, b: string, page: nat)
    ensures Search(Search(q, a).(page := page), b) == Search(q, b)
  {
  }

  // ---- Enrollment ----

  const EmailRequiredMsg := "Email mahasiswa wajib diisi"
  const SelectRequiredMsg := "Pilih minimal satu mahasiswa"

  /** `handleEnrollStudentByEmail`: refused when the email is blank; otherwise sent as typed, untrimmed. */
  function EnrollByEmail(email: string): (r: Result<string, string>)
    ensures r.Err? <==> Trim(email) == []
    ensures r.Err? ==> r.error == EmailRequiredMsg
    ensures r.Ok? ==> r.value == email
  {
    if Trim(email) == [] then Err(EmailRequiredMsg) else Ok(email)
  }

  /** `handleEnrollMultipleStudents`: refused when nothing is selected; otherwise the selection is sent. */
  function EnrollSelected(selected: seq<string>): (r: Result<seq<string>, string>)
    ensures r.Err? <==> selected == []
    ensures r.Err? ==> r.error == SelectRequiredMsg
    ensures r.Ok? ==> r.value == selected
  {
    if selected == [] then Err(SelectRequiredMsg) else Ok(selected)
  }

  /** An admin, or the course's own lecturer, manages its students. */
  predicate CanManageStudents(role: Option<Role>, userId: Option<string>, lecturerId: Option<string>) {
    role == Some(Admin) || lecturerId == userId
  }

  /** The student page grants management to the same users as the course page. */
  lemma SameManagersAsCoursePage(role: Option<Role>, userId: Option<string>, lecturerId: Option<string>)
    ensures CanManageStudents(role, userId, lecturerId) == CourseDetail.CanManageCourse(role, lecturerId, userId)
  {
  }

  // ---- Selection ----

  /** The checkbox of a student is ticked iff its id is selected. */
  predicate IsChecked(selected: seq<string>, id: string) {
    id in selected
  }

  /** Ticking a box appends the student's id to the selection. */
  function Check(selected: seq<string>, id: string): (r: seq<string>)
    ensures IsChecked(r, id)
    ensures |r| == |selected| + 1 && r[..|selected|] == selected
  {
    selected + [id]
  }

  /** Clearing a box drops every occurrence of the id and keeps the other ids in order. */
  function Uncheck(selected: seq<string>, id: string): (r: seq<string>)
    ensures !IsChecked(r, id)
    ensures forall x :: x != id ==> (x in r <==> x in selected)
    ensures IsSubsequence(r, selected)
  {
    FilterIsSubsequence(selected, (x: string) => x != id);
    Filter(selected, (x: string) => x != id)
  }

  /** Ticking and clearing the same box leaves what clearing alone would. */
  lemma CheckThenUncheck(selected: seq<string>, id: string)
    ensures Uncheck(Check(selected, id), id) == Uncheck(selected, id)
  {
    FilterConcat(selected, [id], (x: string) => x != id);
    assert Filter([id], (x: string) => x != id) == [];
  }

  /** The "Reset" button and a finished enrollment empty the selection. */
  function ResetSelection(selected: seq<string>): (r: seq<string>)
    ensures forall id :: !IsChecked(r, id)
  {
    []
  }
}
