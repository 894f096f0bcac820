/**
 * The rules inside the course detail page: the attendance day report,
 * the download address of a material file, the material form check,
 * the tab list, and the grouping of materials into weeks.
 */
module CourseDetail {
  import opened Wrappers
  import opened JsString
  import opened Lists
  import opened Roles

  datatype MaterialType = Pdf | Video | Document | Presentation | Link

  // ---- Attendance day report ----

  datatype AttendanceRecord = AttendanceRecord(studentId: string, attendanceDate: string, status: string)

  datatype RosterStudent = RosterStudent(id: string, fullName: string)

  datatype DayReport = DayReport(date: string, presentStudents: seq<AttendanceRecord>, absentStudents: seq<RosterStudent>)

  function OnDate(date: string): AttendanceRecord -> bool {
    (r: AttendanceRecord) => r.attendanceDate == date
  }

  function DateOf(r: AttendanceRecord): string {
    r.attendanceDate
  }

  /** The meeting dates of a week's records, in order of first appearance. */
  function Dates(records: seq<AttendanceRecord>): (r: seq<string>)
    ensures forall i, j :: 0 <= i < j < |r| ==> r[i] != r[j]
    ensures forall d :: d in r <==> exists i :: 0 <= i < |records| && records[i].attendanceDate == d
  {
    DistinctBy(records, DateOf)
  }

  lemma DatesSnoc(records: seq<AttendanceRecord>, x: AttendanceRecord)
    ensures Dates(records + [x]) ==
      if x.attendanceDate in Dates(records) then Dates(records) else Dates(records) + [x.attendanceDate]
  {
    assert (records + [x])[..|records + [x]| - 1] == records;
  }

  lemma FilterSnoc<T>(s: seq<T>, x: T, p: T -> bool)
    ensures Filter(s + [x], p) == Filter(s, p) + (if p(x) then [x] else [])
  {
    FilterConcat(s, [x], p);
  }

  /** `dates` and `groups` are the grouping of `prefix`. */
  ghost predicate Grouped(prefix: seq<AttendanceRecord>, dates: seq<string>, groups: map<string, seq<AttendanceRecord>>) {
    && dates == Dates(prefix)
    && (forall d :: d in groups <==> d in dates)
    && (forall d :: d in groups ==> groups[d] == Filter(prefix, OnDate(d)))
  }

  lemma NoRecordOfNewDate(prefix: seq<AttendanceRecord>, date: string)
    requires date !in Dates(prefix)
    ensures Filter(prefix, OnDate(date)) == []
  {
  }

  /** The group of one date after record `r` is pushed into its own date's group. */
  lemma GroupEntryStep(prefix: seq<AttendanceRecord>, r: AttendanceRecord, d: string,
                       before: seq<AttendanceRecord>, after: seq<AttendanceRecord>)
    requires before == Filter(prefix, OnDate(d))
    requires after == if d == r.attendanceDate then before + [r] else before
    ensures after == Filter(prefix + [r], OnDate(d))
  {
    FilterSnoc(prefix, r, OnDate(d));
  }

  lemma UpdateTwice<K, V>(m: map<K, V>, k: K, v: V, w: V)
    ensures m[k := v][k := w] == m[k := w]
  {
  }

  lemma UpdateElsewhere<K, V>(m: map<K, V>, k: K, v: V, d: K)
    requires d != k && d in m[k := v]
    ensures d in m && m[k := v][d] == m[d]
  {
  }

  /** The listed dates stay the distinct dates when a record is pushed. */
  lemma GroupDatesStep(prefix: seq<AttendanceRecord>, r: AttendanceRecord, dates: seq<string>,
                       groups: map<string, seq<AttendanceRecord>>, dates': seq<string>)
    requires dates == Dates(prefix)
    requires forall d :: d in groups <==> d in dates
    requires dates' == if r.attendanceDate in groups then dates else dates + [r.attendanceDate]
    ensures dates' == Dates(prefix + [r])
  {
    DatesSnoc(prefix, r);
  }

  /** The keys of the groups stay the listed dates when a record is pushed. */
  lemma GroupKeysStep(dates: seq<string>, groups: map<string, seq<AttendanceRecord>>, date: string,
                      v: seq<AttendanceRecord>, dates': seq<string>, groups': map<string, seq<AttendanceRecord>>)
    requires forall d :: d in groups <==> d in dates
    requires dates' == if date in groups then dates else dates + [date]
    requires groups' == groups[date := v]
    ensures forall d :: d in groups' <==> d in dates'
  {
  }

  /** Each group stays its date's records when a record is pushed. */
  lemma GroupEntriesStep(prefix: seq<AttendanceRecord>, r: AttendanceRecord,
                         groups: map<string, seq<AttendanceRecord>>, groups': map<string, seq<AttendanceRecord>>)
    requires forall d :: d in groups ==> groups[d] == Filter(prefix, OnDate(d))
    requires r.attendanceDate !in groups ==> Filter(prefix, OnDate(r.attendanceDate)) == []
    requires groups' == groups[r.attendanceDate := (if r.attendanceDate in groups then groups[r.attendanceDate] else []) + [r]]
    ensures forall d :: d in groups' ==> groups'[d] == Filter(prefix + [r], OnDate(d))
  {
    var date := r.attendanceDate;
    forall d | d in groups' ensures groups'[d] == Filter(prefix + [r], OnDate(d)) {
      if d == date {
        var before := if date in groups then groups[date] else [];
        GroupEntryStep(prefix, r, d, before, groups'[d]);
      } else {
        UpdateElsewhere(groups, date, groups'[date], d);
        GroupEntryStep(prefix, r, d, groups[d], groups'[d]);
      }
    }
  }

  /** Pushing record `r` into the group of its date keeps the grouping exact. */
  lemma GroupStep(prefix: seq<AttendanceRecord>, r: AttendanceRecord,
                  dates: seq<string>, groups: map<string, seq<AttendanceRecord>>,
                  dates': seq<string>, groups': map<string, seq<AttendanceRecord>>)
    requires Grouped(prefix, dates, groups)
    requires dates' == if r.attendanceDate in groups then dates else dates + [r.attendanceDate]
    requires groups' == groups[r.attendanceDate := (if r.attendanceDate in groups then groups[r.attendanceDate] else []) + [r]]
    ensures Grouped(prefix + [r], dates', groups')
  {
    GroupDatesStep(prefix, r, dates, groups, dates');
    if r.attendanceDate !in groups {
      NoRecordOfNewDate(prefix, r.attendanceDate);
    }
    GroupKeysStep(dates, groups, r.attendanceDate, groups'[r.attendanceDate], dates', groups');
    GroupEntriesStep(prefix, r, groups, groups');
  }

  lemma GroupedPrefix(records: seq<AttendanceRecord>, i: nat, dates: seq<string>, groups: map<string, seq<AttendanceRecord>>)
    requires i < |records| && Grouped(records[..i] + [records[i]], dates, groups)
    ensures Grouped(records[..i + 1], dates, groups)
  {
    assert records[..i + 1] == records[..i] + [records[i]];
  }

  /**
   * The `reduce` that groups a week's records by `attendanceDate`: the keys
   * are the distinct dates in first-appearance order, and each group holds
   * exactly the records of its date, in their order.
   */
  method GroupByDate(records: seq<AttendanceRecord>) returns (dates: seq<string>, groups: map<string, seq<AttendanceRecord>>)
    ensures dates == Dates(records)
    ensures forall d :: d in groups <==> d in dates
    ensures forall d :: d in groups ==> groups[d] == Filter(records, OnDate(d))
  {
    dates := [];
    groups := map[];
    var i := 0;
    while i < |records|
      invariant 0 <= i <= |records|
      invariant Grouped(records[..i], dates, groups)
    {
      var r := records[i];
      var date := r.attendanceDate;
      ghost var dates0, groups0 := dates, groups;
      if date !in groups {
        dates := dates + [date];
        groups := groups[date := []];
      }
      groups := groups[date := groups[date] + [r]];
      if date !in groups0 {
        UpdateTwice(groups0, date, [], [] + [r]);
      }
      GroupStep(records[..i], r, dates0, groups0, dates, groups);
      GroupedPrefix(records, i, dates, groups);
      i := i + 1;
    }
    assert records[..i] == records;
    assert Grouped(records, dates, groups);
  }

  /** Each record is in the group of its own date and in no other group. */
  lemma RecordInOwnGroupOnly(records: seq<AttendanceRecord>, groups: map<string, seq<AttendanceRecord>>, r: AttendanceRecord, d: string)
    requires forall e :: e in groups <==> e in Dates(records)
    requires forall e :: e in groups ==> groups[e] == Filter(records, OnDate(e))
    requires r in records && d in groups
    ensures r in groups[d] <==> d == r.attendanceDate
    ensures r.attendanceDate in groups
  {
    var i :| 0 <= i < |records| && records[i] == r;
    assert records[i].attendanceDate == r.attendanceDate;
  }

  predicate IsPresentStatus(status: string) {
    status == "present" || status == "auto_present" || status == "late"
  }

  function IsPresentRecord(r: AttendanceRecord): bool {
    IsPresentStatus(r.status)
  }

  /** `presentStudents`: the records of the day whose status counts as attendance. */
  function PresentStudents(attendances: seq<AttendanceRecord>): (r: seq<AttendanceRecord>)
    ensures forall a :: a in r <==> a in attendances && IsPresentStatus(a.status)
    ensures IsSubsequence(r, attendances)
  {
    FilterIsSubsequence(attendances, IsPresentRecord);
    Filter(attendances, IsPresentRecord)
  }

  function PresentIds(present: seq<AttendanceRecord>): set<string> {
    set a | a in present :: a.studentId
  }

  function NotIn(ids: set<string>): RosterStudent -> bool {
    (s: RosterStudent) => s.id !in ids
  }

  /**
   * `absentStudents`: the roster (an empty one when it is missing) without
   * the students whose id appears among the present records.
   */
  function AbsentStudents(roster: Option<seq<RosterStudent>>, present: seq<AttendanceRecord>): (r: seq<RosterStudent>)
    ensures forall s :: s in r <==> s in roster.GetOr([]) && forall a :: a in present ==> a.studentId != s.id
    ensures IsSubsequence(r, roster.GetOr([]))
    ensures roster.None? ==> r == []
  {
    FilterIsSubsequence(roster.GetOr([]), NotIn(PresentIds(present)));
    Filter(roster.GetOr([]), NotIn(PresentIds(present)))
  }

  function DayReportOf(date: string, attendances: seq<AttendanceRecord>, roster: Option<seq<RosterStudent>>): DayReport {
    var present := PresentStudents(attendances);
    DayReport(date, present, AbsentStudents(roster, present))
  }

  /**
   * The list of day cards of one week: one per meeting date, in first-appearance
   * order, each with that date's present records and absentees.
   */
  method AttendanceDays(weekData: seq<AttendanceRecord>, roster: Option<seq<RosterStudent>>) returns (days: seq<DayReport>)
    ensures |days| == |Dates(weekData)|
    ensures forall i :: 0 <= i < |days| ==>
      days[i] == DayReportOf(Dates(weekData)[i], Filter(weekData, OnDate(Dates(weekData)[i])), roster)
  {
    var dates, groups := GroupByDate(weekData);
    days := seq(|dates|, i requires 0 <= i < |dates| => DayReportOf(dates[i], groups[dates[i]], roster));
  }

  /** No student is listed both as present and as absent on a day. */
  lemma PresentAndAbsentDisjoint(date: string, attendances: seq<AttendanceRecord>, roster: Option<seq<RosterStudent>>)
    ensures var day := DayReportOf(date, attendances, roster);
      forall s, a :: s in day.absentStudents && a in day.presentStudents ==> s.id != a.studentId
  {
  }

  function RosterIds(roster: seq<RosterStudent>): set<string> {
    set s | s in roster :: s.id
  }

  predicate DistinctIds(roster: seq<RosterStudent>) {
    forall i, j :: 0 <= i < j < |roster| ==> roster[i].id != roster[j].id
  }

  lemma RosterIdsSplit(roster: seq<RosterStudent>)
    requires roster != [] && DistinctIds(roster)
    ensures RosterIds(roster) == {roster[0].id} + RosterIds(roster[1..])
    ensures roster[0].id !in RosterIds(roster[1..])
  {
    var rest := roster[1..];
    assert roster == [roster[0]] + rest;
  }

  lemma CardOfInsert(x: string, a: set<string>, ids: set<string>)
    requires x !in a
    ensures |({x} + a) * ids| == |a * ids| + (if x in ids then 1 else 0)
  {
    if x in ids {
      assert ({x} + a) * ids == {x} + a * ids;
    } else {
      assert ({x} + a) * ids == a * ids;
    }
  }

  lemma {:induction false} FilterNotInCount(roster: seq<RosterStudent>, ids: set<string>)
    requires DistinctIds(roster)
    ensures |Filter(roster, NotIn(ids))| == |roster| - |RosterIds(roster) * ids|
  {
    if roster != [] {
      var rest := roster[1..];
      assert DistinctIds(rest) by {
        forall i, j | 0 <= i < j < |rest| ensures rest[i].id != rest[j].id {
          assert rest[i] == roster[i + 1] && rest[j] == roster[j + 1];
        }
      }
      FilterNotInCount(rest, ids);
      RosterIdsSplit(roster);
      CardOfInsert(roster[0].id, RosterIds(rest), ids);
    }
  }

  /**
   * For a roster of `n` distinct ids of which `k` appear among the present
   * records, exactly `n - k` students are absent.
   */
  lemma AbsentCount(roster: seq<RosterStudent>, present: seq<AttendanceRecord>)
    requires DistinctIds(roster)
    ensures |AbsentStudents(Some(roster), present)| == |roster| - |RosterIds(roster) * PresentIds(present)|
  {
    FilterNotInCount(roster, PresentIds(present));
  }

  // ---- Download address of a material file ----

  datatype Material = Material(
    mtype: MaterialType, url: Option<string>, filePath: Option<string>,
    week: int, orderIndex: Option<int>)

  const DefaultApiUrl: string := "http://203.194.113.5:3000/api"

  /** The backend root: the configured API address (or the default) with its first `/api` removed. */
  function BaseUrl(env: Option<string>): string {
    ReplaceFirst(if Truthy(env) then env.value else DefaultApiUrl, "/api", "")
  }

  /** `s.replace(/^uploads[\\/]/, '')`. */
  function StripUploadsPrefix(s: string): (r: string)
    ensures (|s| >= 8 && s[..7] == "uploads" && (s[7] == '/' || s[7] == '\\')) ==> r == s[8..]
    ensures !(|s| >= 8 && s[..7] == "uploads" && (s[7] == '/' || s[7] == '\\')) ==> r == s
  {
    if |s| >= 8 && s[..7] == "uploads" && (s[7] == '/' || s[7] == '\\') then s[8..] else s
  }

  /** `s.replace(/\\/g, '/')`. */
  function ForwardSlashes(s: string): (r: string)
    ensures |r| == |s|
    ensures '\\' !in r
    ensures forall i :: 0 <= i < |s| && s[i] != '\\' ==> r[i] == s[i]
  {
    seq(|s|, i requires 0 <= i < |s| => if s[i] == '\\' then '/' else s[i])
  }

  /** The four rewrites of the stored path, as one function. */
  function CleanPathOf(filePath: string): string {
    var p := ForwardSlashes(StripUploadsPrefix(ReplaceFirst(filePath, "course-materials/", "")));
    if StartsWith(p, "/") then p[1..] else p
  }

  /** `cleanPath` as the page computes it, one reassignment at a time. */
  method CleanPath(filePath: string) returns (cleanPath: string)
    ensures cleanPath == CleanPathOf(filePath)
    ensures '\\' !in cleanPath
  {
    cleanPath := filePath;
    cleanPath := ReplaceFirst(cleanPath, "course-materials/", "");
    cleanPath := StripUploadsPrefix(cleanPath);
    cleanPath := ForwardSlashes(cleanPath);
    assert '\\' !in cleanPath;
    if StartsWith(cleanPath, "/") {
      cleanPath := cleanPath[1..];
    }
  }

  /**
   * `getFileDownloadUrl`: a link's own address, the file under the
   * backend's `/uploads/`, or `#` when there is neither.
   */
  method FileDownloadUrl(m: Material, env: Option<string>) returns (r: string)
    ensures m.mtype == Link && Truthy(m.url) ==> r == m.url.value
    ensures !(m.mtype == Link && Truthy(m.url)) && !Truthy(m.filePath) ==> r == "#"
    ensures !(m.mtype == Link && Truthy(m.url)) && Truthy(m.filePath) ==>
      r == BaseUrl(env) + "/uploads/" + CleanPathOf(m.filePath.value)
      && '\\' !in r[|BaseUrl(env)| + 9..]
  {
    if m.mtype == Link && Truthy(m.url) {
      return m.url.value;
    }
    if Truthy(m.filePath) {
      var baseUrl := BaseUrl(env);
      var cleanPath := CleanPath(m.filePath.value);
      r := baseUrl + "/uploads/" + cleanPath;
      assert r[|baseUrl| + 9..] == cleanPath;
      return;
    }
    r := "#";
  }

  lemma OccursAtChar(s: string, pat: string, i: int, k: int)
    requires OccursAt(s, pat, i) && 0 <= k < |pat|
    ensures s[i + k] == pat[k]
  {
    assert s[i..i + |pat|][k] == s[i + k];
  }

  lemma NoOccurrenceWithout(s: string, pat: string, c: char)
    requires c in pat && c !in s
    ensures IndexOf(s, pat) == -1
  {
    var k :| 0 <= k < |pat| && pat[k] == c;
    forall i ensures !OccursAt(s, pat, i) {
      if OccursAt(s, pat, i) {
        OccursAtChar(s, pat, i, k);
      }
    }
  }

  /** A plain relative file name passes through unchanged. */
  lemma CleanPathOfPlainName(p: string)
    requires '\\' !in p && '/' !in p
    requires !(|p| >= 8 && p[..7] == "uploads" && (p[7] == '/' || p[7] == '\\'))
    ensures CleanPathOf(p) == p
  {
    NoOccurrenceWithout(p, "course-materials/", '/');
    assert ReplaceFirst(p, "course-materials/", "") == p;
    assert StripUploadsPrefix(p) == p;
    PlainNameUnchanged(p);
  }

  /** The last two rewrites leave a name without slashes alone. */
  lemma PlainNameUnchanged(p: string)
    requires '\\' !in p && '/' !in p
    ensures ForwardSlashes(p) == p && !StartsWith(p, "/")
  {
    assert ForwardSlashes(p) == p;
    assert !StartsWith(p, "/") by {
      if |p| > 0 {
        assert p[0] in p;
      }
    }
  }

  /** A legacy `course-materials/` prefix is dropped. */
  lemma CleanPathDropsLegacyPrefix(p: string)
    requires '\\' !in p && '/' !in p
    requires !(|p| >= 8 && p[..7] == "uploads" && (p[7] == '/' || p[7] == '\\'))
    ensures CleanPathOf("course-materials/" + p) == p
  {
    var s := "course-materials/" + p;
    assert OccursAt(s, "course-materials/", 0);
    assert ReplaceFirst(s, "course-materials/", "") == p;
    CleanPathOfPlainName(p);
  }

  lemma IndexOfAfter(pre: string, pat: string, rest: string)
    requires pat != [] && pat[0] !in pre
    ensures IndexOf(pre + pat + rest, pat) == |pre|
  {
    var s := pre + pat + rest;
    assert s[|pre|..|pre| + |pat|] == pat;
    var r := IndexOf(s, pat);
    assert OccursAt(s, pat, |pre|);
    if r < |pre| {
      OccursAtChar(s, pat, r, 0);
    }
  }

  /** A forward-slash `uploads/course-materials/` path loses both prefixes. */
  lemma CleanPathOfForwardLegacy(p: string)
    requires '\\' !in p && '/' !in p
    ensures CleanPathOf("uploads/course-materials/" + p) == p
  {
    DropLegacyAfterUploads(p);
    StripForwardUploads(p);
    PlainNameUnchanged(p);
  }

  lemma DropLegacyAfterUploads(p: string)
    ensures ReplaceFirst("uploads/course-materials/" + p, "course-materials/", "") == "uploads/" + p
  {
    var pre := "uploads/";
    var pat := "course-materials/";
    var s := pre + pat + p;
    assert "uploads/course-materials/" + p == s;
    IndexOfAfter(pre, pat, p);
    assert s[..8] + s[25..] == pre + p;
  }

  lemma StripForwardUploads(p: string)
    ensures StripUploadsPrefix("uploads/" + p) == p
  {
    var s := "uploads/" + p;
    assert s[..7] == "uploads" && s[7] == '/' && s[8..] == p;
  }

  /**
   * The same path written with backslashes keeps `course-materials/`:
   * the address depends on the separator the stored path was written with.
   */
  lemma CleanPathOfBackslashLegacy(p: string)
    requires '\\' !in p && '/' !in p
    ensures CleanPathOf("uploads\\course-materials\\" + p) == "course-materials/" + p
  {
    var mid := "course-materials\\";
    var s := "uploads\\" + (mid + p);
    assert "uploads\\course-materials\\" + p == s;
    BackslashPathKeepsLegacy(mid + p);
    StripBackslashUploads(mid + p);
    ForwardSlashesOfBackslashLegacy(p);
  }

  /** Without any '/', the forward-slash legacy prefix is not found. */
  lemma BackslashPathKeepsLegacy(q: string)
    requires '/' !in q
    ensures ReplaceFirst("uploads\\" + q, "course-materials/", "") == "uploads\\" + q
  {
    var s := "uploads\\" + q;
    assert forall i :: 0 <= i < 8 ==> s[i] != '/';
    assert forall i :: 8 <= i < |s| ==> s[i] == q[i - 8];
    assert '/' !in s;
    assert '/' in "course-materials/";
    NoOccurrenceWithout(s, "course-materials/", '/');
  }

  lemma StripBackslashUploads(q: string)
    ensures StripUploadsPrefix("uploads\\" + q) == q
  {
    var s := "uploads\\" + q;
    assert s[..7] == "uploads" && s[7] == '\\' && s[8..] == q;
  }

  lemma ForwardSlashesOfBackslashLegacy(p: string)
    requires '\\' !in p
    ensures ForwardSlashes("course-materials\\" + p) == "course-materials/" + p
    ensures !StartsWith("course-materials/" + p, "/")
  {
    var mid := "course-materials\\";
    var f := ForwardSlashes(mid + p);
    var g := "course-materials/" + p;
    assert |f| == |g|;
    forall i | 0 <= i < |f| ensures f[i] == g[i] {
      if i >= 17 {
        assert (mid + p)[i] == p[i - 17];
      }
    }
    assert g[0] == 'c';
  }

  // ---- Material form ----

  datatype MaterialForm = MaterialForm(
    title: string, mtype: Option<MaterialType>, week: int, orderIndex: int,
    hasFile: bool, url: Option<string>, isAttendanceTrigger: bool, attendanceThreshold: int)

  datatype MaterialField = TitleField | TypeField | WeekField | OrderIndexField | ThresholdField | UrlField | FileField

  const TitleMissingMsg: string := "Judul materi wajib diisi"
  const TypeMissingMsg: string := "Tipe materi wajib dipilih"
  const WeekRangeMsg: string := "Minggu harus antara 1-16"
  const OrderIndexMsg: string := "Urutan harus minimal 1"
  const ThresholdRangeMsg: string := "Threshold absensi harus antara 1-100%"
  const UrlMissingMsg: string := "URL wajib diisi untuk tipe link"
  const UrlInvalidMsg: string := "Format URL tidak valid"
  const FileMissingMsg: string := "File wajib diupload untuk tipe materi ini"

  predicate ThresholdChecked(form: MaterialForm) {
    form.mtype == Some(Video) && form.isAttendanceTrigger
  }

  predicate UrlGiven(form: MaterialForm) {
    form.url.Some? && !IsBlank(form.url.value)
  }

  /**
   * `validateMaterialForm`: records one message per failing field (the URL
   * check runs `urlValid`, the `new URL` parse, only on a non-blank URL)
   * and passes iff none was recorded.
   */
  method ValidateMaterialForm(form: MaterialForm, editing: bool, urlValid: string -> bool)
    returns (errors: map<MaterialField, string>, ok: bool)
    ensures TitleField in errors <==> IsBlank(form.title)
    ensures TypeField in errors <==> form.mtype.None?
    ensures WeekField in errors <==> !(1 <= form.week <= 16)
    ensures OrderIndexField in errors <==> form.orderIndex < 1
    ensures ThresholdField in errors <==> ThresholdChecked(form) && !(1 <= form.attendanceThreshold <= 100)
    ensures UrlField in errors <==> form.mtype == Some(Link) && !(UrlGiven(form) && urlValid(form.url.value))
    ensures UrlField in errors ==> errors[UrlField] == if UrlGiven(form) then UrlInvalidMsg else UrlMissingMsg
    ensures FileField in errors <==> form.mtype != Some(Link) && !form.hasFile && !editing
    ensures ok <==> errors == map[]
    ensures ok <==>
      && !IsBlank(form.title) && form.mtype.Some? && 1 <= form.week <= 16 && form.orderIndex >= 1
      && (ThresholdChecked(form) ==> 1 <= form.attendanceThreshold <= 100)
      && (if form.mtype == Some(Link) then UrlGiven(form) && urlValid(form.url.value) else form.hasFile || editing)
  {
    errors := CheckCommonFields(form);
    errors := CheckTypeFields(form, editing, urlValid, errors);
    ok := |errors.Keys| == 0;
    if !ok {
      var k :| k in errors;
      assert k.TitleField? || k.TypeField? || k.WeekField? || k.OrderIndexField? || k.ThresholdField? || k.UrlField? || k.FileField?;
    }
  }

  /** The checks every material gets: title, type, week and order index. */
  method CheckCommonFields(form: MaterialForm) returns (errors: map<MaterialField, string>)
    ensures TitleField in errors <==> IsBlank(form.title)
    ensures TypeField in errors <==> form.mtype.None?
    ensures WeekField in errors <==> !(1 <= form.week <= 16)
    ensures OrderIndexField in errors <==> form.orderIndex < 1
    ensures ThresholdField !in errors && UrlField !in errors && FileField !in errors
  {
    errors := map[];
    if IsBlank(form.title) {
      errors := errors[TitleField := TitleMissingMsg];
    }
    if form.mtype.None? {
      errors := errors[TypeField := TypeMissingMsg];
    }
    if form.week == 0 || form.week < 1 || form.week > 16 {
      errors := errors[WeekField := WeekRangeMsg];
    }
    if form.orderIndex == 0 || form.orderIndex < 1 {
      errors := errors[OrderIndexField := OrderIndexMsg];
    }
  }

  /**
   * The checks that depend on the type: the attendance threshold of a
   * triggering video, the URL of a link, the file of anything else.
   * The messages recorded before are kept.
   */
  method CheckTypeFields(form: MaterialForm, editing: bool, urlValid: string -> bool, before: map<MaterialField, string>)
    returns (errors: map<MaterialField, string>)
    requires ThresholdField !in before && UrlField !in before && FileField !in before
    ensures TitleField in errors <==> TitleField in before
    ensures TypeField in errors <==> TypeField in before
    ensures WeekField in errors <==> WeekField in before
    ensures OrderIndexField in errors <==> OrderIndexField in before
    ensures ThresholdField in errors <==> ThresholdChecked(form) && !(1 <= form.attendanceThreshold <= 100)
    ensures UrlField in errors <==> form.mtype == Some(Link) && !(UrlGiven(form) && urlValid(form.url.value))
    ensures UrlField in errors ==> errors[UrlField] == if UrlGiven(form) then UrlInvalidMsg else UrlMissingMsg
    ensures FileField in errors <==> form.mtype != Some(Link) && !form.hasFile && !editing
  {
    errors := before;
    if form.mtype == Some(Video) && form.isAttendanceTrigger {
      if form.attendanceThreshold == 0 || form.attendanceThreshold < 1 || form.attendanceThreshold > 100 {
        errors := errors[ThresholdField := ThresholdRangeMsg];
      }
    }
    if form.mtype == Some(Link) {
      if !UrlGiven(form) {
        errors := errors[UrlField := UrlMissingMsg];
      } else if !urlValid(form.url.value) {
        errors := errors[UrlField := UrlInvalidMsg];
      }
    } else {
      if !form.hasFile && !editing {
        errors := errors[FileField := FileMissingMsg];
      }
    }
  }

  // ---- Tabs ----

  datatype Tab = Overview | Materials | Assignments | Forums | Students | Attendance | Settings

  /**
   * `canManageCourse`: an admin, or the user whose id equals the course
   * lecturer's id; `None` stands for a course or user not loaded yet, and
   * two missing ids compare equal as `undefined === undefined` does.
   */
  predicate CanManageCourse(role: Option<Role>, lecturerId: Option<string>, userId: Option<string>) {
    role == Some(Admin) || lecturerId == userId
  }

  /** A lecturer of another course does not manage this one, and a student never does while the ids differ. */
  lemma OtherLecturerCannotManage(lecturerId: Option<string>, userId: Option<string>)
    requires lecturerId != userId
    ensures !CanManageCourse(Some(Lecturer), lecturerId, userId) && !CanManageCourse(Some(Student), lecturerId, userId)
    ensures CanManageCourse(Some(Admin), lecturerId, userId)
  {
  }

  /** As in the code, a course whose lecturer is not loaded is managed by a user without an id. */
  lemma MissingIdsGrantManagement(role: Option<Role>)
    ensures CanManageCourse(role, None, None)
  {
  }

  /**
   * The tab bar: five tabs for everyone; a manager also gets Attendance
   * inserted before Students and Settings appended.
   */
  method Tabs(canManage: bool) returns (tabs: seq<Tab>)
    ensures |tabs| == if canManage then 7 else 5
    ensures tabs[..4] == [Overview, Materials, Assignments, Forums]
    ensures Attendance in tabs <==> canManage
    ensures Settings in tabs <==> canManage
    ensures canManage ==> tabs[4] == Attendance && tabs[5] == Students && tabs[6] == Settings
    ensures !canManage ==> tabs[4] == Students
  {
    tabs := [Overview, Materials, Assignments, Forums, Students];
    if canManage {
      tabs := tabs[..4] + [Attendance] + tabs[4..];
    }
    if canManage {
      tabs := tabs + [Settings];
    }
  }

  // ---- Weeks of materials ----

  function WeekOf(m: Material): int {
    m.week
  }

  /** The order of the default `sort()`: numbers compared as their decimal texts. */
  predicate TextLe(a: int, b: int) {
    LexLe(IntToString(a), IntToString(b))
  }

  lemma TextLeIsPreorder()
    ensures TotalPreorder(TextLe)
  {
    forall a, b ensures TextLe(a, b) || TextLe(b, a) {
      LexLeTotal(IntToString(a), IntToString(b));
    }
    forall a, b, c | TextLe(a, b) && TextLe(b, c) ensures TextLe(a, c) {
      LexLeTransitive(IntToString(a), IntToString(b), IntToString(c));
    }
  }

  /** The week headings: each week of some material once, in text order. */
  function Weeks(materials: seq<Material>): (r: seq<int>)
    ensures forall w :: w in r <==> exists i :: 0 <= i < |materials| && materials[i].week == w
    ensures forall i, j :: 0 <= i < j < |r| ==> r[i] != r[j]
    ensures Sorted(r, TextLe)
  {
    TextLeIsPreorder();
    var ws := DistinctBy(materials, WeekOf);
    var r := SortBy(ws, TextLe);
    assert forall w :: w in r <==> w in ws by {
      forall w ensures w in r <==> w in ws {
        assert w in r <==> w in multiset(r);
        assert w in ws <==> w in multiset(ws);
      }
    }
    assert forall i, j :: 0 <= i < j < |r| ==> r[i] != r[j] by {
      forall i, j | 0 <= i < j < |r| ensures r[i] != r[j] {
        if r[i] == r[j] {
          MultisetCountTwo(r, i, j);
          DistinctCountOne(ws, r[i]);
        }
      }
    }
    r
  }

  lemma MultisetCountTwo<T>(s: seq<T>, i: nat, j: nat)
    requires i < j < |s| && s[i] == s[j]
    ensures multiset(s)[s[i]] >= 2
  {
    assert s == s[..i] + [s[i]] + s[i + 1..j] + [s[j]] + s[j + 1..];
  }

  lemma {:induction false} DistinctCountOne<T>(s: seq<T>, x: T)
    requires forall i, j :: 0 <= i < j < |s| ==> s[i] != s[j]
    ensures multiset(s)[x] <= 1
  {
    if s != [] {
      assert s == [s[0]] + s[1..];
      DistinctCountOne(s[1..], x);
      if s[0] == x {
        assert x !in s[1..];
      }
    }
  }

  lemma TextOfTwoAndTen()
    ensures IntToString(2) == "2" && IntToString(10) == "10"
  {
    assert DigitChar(2) == '2' && DigitChar(1) == '1' && DigitChar(0) == '0';
    assert NatToString(1) == "1";
    assert NatToString(10) == NatToString(1) + [DigitChar(0)];
  }

  /**
   * Week 10 is listed before week 2: the default sort compares the texts
   * "10" and "2".
   */
  lemma WeekTenBeforeWeekTwo(materials: seq<Material>, i: nat, j: nat)
    requires i < |Weeks(materials)| && j < |Weeks(materials)|
    requires Weeks(materials)[i] == 2 && Weeks(materials)[j] == 10
    ensures j < i
  {
    TextOfTwoAndTen();
    assert !LexLe("2", "10");
    assert !TextLe(2, 10);
  }

  function OrderOrZero(m: Material): int {
    m.orderIndex.GetOr(0)
  }

  /** The materials of one week, ascending by `orderIndex` with a missing index as 0. */
  function WeekMaterials(materials: seq<Material>, week: int): (r: seq<Material>)
    ensures multiset(r) == multiset(Filter(materials, (m: Material) => m.week == week))
    ensures forall m :: m in r <==> m in materials && m.week == week
    ensures Sorted(r, AscendingBy(OrderOrZero))
  {
    KeyOrdersArePreorders(OrderOrZero);
    var own := Filter(materials, (m: Material) => m.week == week);
    var r := SortBy(own, AscendingBy(OrderOrZero));
    assert forall m :: m in r <==> m in own by {
      forall m ensures m in r <==> m in own {
        assert m in r <==> m in multiset(r);
        assert m in own <==> m in multiset(own);
      }
    }
    r
  }

  /** Every week heading has at least one material under it. */
  lemma WeekHasMaterials(materials: seq<Material>, week: int)
    requires week in Weeks(materials)
    ensures WeekMaterials(materials, week) != []
  {
    var i :| 0 <= i < |materials| && materials[i].week == week;
    assert materials[i] in WeekMaterials(materials, week);
  }

  /** "Add to week": one more than the largest `orderIndex` (missing as 0) of the week. */
  function NextOrderIndex(weekMaterials: seq<Material>): (r: int)
    requires weekMaterials != []
    ensures forall m :: m in weekMaterials ==> OrderOrZero(m) < r
    ensures exists m :: m in weekMaterials && r == OrderOrZero(m) + 1
  {
    if |weekMaterials| == 1 then OrderOrZero(weekMaterials[0]) + 1
    else
      var rest := NextOrderIndex(weekMaterials[1..]);
      assert forall m :: m in weekMaterials ==> m == weekMaterials[0] || m in weekMaterials[1..];
      if OrderOrZero(weekMaterials[0]) + 1 > rest then OrderOrZero(weekMaterials[0]) + 1 else rest
  }
}
