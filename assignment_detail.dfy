/**
 * The assignment page's rules: the check of a chosen submission file
 * against the allowed extensions and the size limit, the state of the
 * submission form, and who may submit or manage.
 */
module AssignmentDetail {
  import opened Wrappers
  import opened JsString
  import opened Roles

  datatype SubmissionStatus = Draft | Submitted | Graded

  datatype AssignmentType = Individual | Group | Quiz | Exam | OtherType(name: string)

  datatype Submission = Submission(status: SubmissionStatus)

  /**
   * The assignment as the page holds it. `maxFileSize` is in megabytes;
   * `None` and `Some(0)` both switch the size check off.
   */
  datatype Assignment = Assignment(
    dueDate: int, allowLateSubmission: bool, allowedFileTypes: seq<string>,
    maxFileSize: Option<int>, mySubmission: Option<Submission>, assignmentType: AssignmentType)

  datatype FileInfo = FileInfo(name: string, size: nat)

  const MegaByte: nat := 1024 * 1024

  /** `maxFileSize * 1024 * 1024`: a limit in megabytes, in bytes. */
  function LimitBytes(megabytes: int): int {
    megabytes * MegaByte
  }

  /** `file.name.split('.').pop()?.toLowerCase()`. */
  function Extension(name: string): (r: string)
    ensures '.' !in r
    ensures |r| <= |name|
  {
    ToLower(LastSegment(name, '.'))
  }

  /** The extension test: passes when no types are listed, or when `.` + the extension is one of them. */
  predicate TypeAllowed(allowed: seq<string>, name: string) {
    |allowed| == 0 || ("." + Extension(name)) in allowed
  }

  /** The size test: passes when there is no limit, or when the size is at most the limit in bytes. */
  predicate SizeAllowed(maxFileSize: Option<int>, size: nat) {
    !(maxFileSize.Some? && maxFileSize.value != 0) || size <= LimitBytes(maxFileSize.value)
  }

  function TypeErrorMessage(allowed: seq<string>): string {
    "File type tidak diizinkan. Hanya: " + Join(allowed, ", ")
  }

  function SizeErrorMessage(maxFileSize: int): string {
    "Ukuran file melebihi batas maksimal " + IntToString(maxFileSize) + "MB"
  }

  /**
   * The message a chosen file is refused with: the type test first, then
   * the size test; both are skipped while the assignment is not loaded.
   */
  function FileRejection(assignment: Option<Assignment>, file: FileInfo): (r: Option<string>)
    ensures r.None? <==> (assignment.None? ||
      (TypeAllowed(assignment.value.allowedFileTypes, file.name) && SizeAllowed(assignment.value.maxFileSize, file.size)))
    ensures assignment.Some? && !TypeAllowed(assignment.value.allowedFileTypes, file.name) ==>
      r == Some(TypeErrorMessage(assignment.value.allowedFileTypes))
    ensures (assignment.Some? && TypeAllowed(assignment.value.allowedFileTypes, file.name)
             && !SizeAllowed(assignment.value.maxFileSize, file.size)) ==>
      r == Some(SizeErrorMessage(assignment.value.maxFileSize.value))
  {
    if assignment.None? then None
    else if !TypeAllowed(assignment.value.allowedFileTypes, file.name) then
      Some(TypeErrorMessage(assignment.value.allowedFileTypes))
    else if !SizeAllowed(assignment.value.maxFileSize, file.size) then
      Some(SizeErrorMessage(assignment.value.maxFileSize.value))
    else None
  }

  /** The extension of `base.ext` is `ext` in lower case, whatever `base` holds. */
  lemma ExtensionOfDottedName(base: string, ext: string)
    requires '.' !in ext
    ensures Extension(base + "." + ext) == ToLower(ext)
  {
    var s := base + "." + ext;
    var r := LastSegment(s, '.');
    assert s[|base|] == '.';
    assert '.' in s;
    assert s[|s| - |ext|..] == ext;
  }

  /** A size exactly at the limit passes; one byte more is refused. */
  lemma SizeLimitIsInclusive(maxFileSize: nat)
    requires maxFileSize > 0
    ensures SizeAllowed(Some(maxFileSize), LimitBytes(maxFileSize))
    ensures !SizeAllowed(Some(maxFileSize), LimitBytes(maxFileSize) + 1)
  {
  }

  /**
   * A listed type with an upper-case letter never matches, because the
   * extension it is compared with has been lowered.
   */
  lemma UpperCaseTypeNeverMatches(entry: string, name: string)
    requires exists i :: 0 <= i < |entry| && 'A' <= entry[i] <= 'Z'
    ensures "." + Extension(name) != entry
  {
    var i :| 0 <= i < |entry| && 'A' <= entry[i] <= 'Z';
    var e := "." + Extension(name);
    ExtensionIsLower(name);
    if i < |e| {
      assert !('A' <= e[i] <= 'Z') by {
        if i > 0 {
          assert e[i] == Extension(name)[i - 1];
        }
      }
    }
  }

  lemma ExtensionIsLower(name: string)
    ensures forall j :: 0 <= j < |Extension(name)| ==> !('A' <= Extension(name)[j] <= 'Z')
  {
  }

  /** `isOverdue`: the current time is strictly after the due date. */
  predicate IsOverdue(assignment: Option<Assignment>, now: int) {
    assignment.Some? && now > assignment.value.dueDate
  }

  /** Once past the due date an assignment stays overdue; at the due date itself it is not. */
  lemma OverdueLasts(a: Assignment, t1: int, t2: int)
    requires t1 <= t2
    ensures IsOverdue(Some(a), t1) ==> IsOverdue(Some(a), t2)
    ensures !IsOverdue(Some(a), a.dueDate) && IsOverdue(Some(a), a.dueDate + 1)
    ensures !IsOverdue(None, t1)
  {
  }

  /** `canSubmit`. */
  function CanSubmit(assignment: Option<Assignment>, now: int): (b: bool)
    ensures b <==> (assignment.Some?
      && !(assignment.value.mySubmission.Some? && assignment.value.mySubmission.value.status == Graded)
      && !(now > assignment.value.dueDate && !assignment.value.allowLateSubmission))
  {
    if assignment.None? || (assignment.value.mySubmission.Some? && assignment.value.mySubmission.value.status == Graded) then false
    else if IsOverdue(assignment, now) && !assignment.value.allowLateSubmission then false
    else true
  }

  /** Submitting at the due date itself is not late. */
  lemma SubmitAtDueDate(a: Assignment)
    requires a.mySubmission.None?
    ensures CanSubmit(Some(a), a.dueDate)
    ensures CanSubmit(Some(a), a.dueDate + 1) <==> a.allowLateSubmission
  {
  }

  /** `canManageAssignment`: a signed-in admin or lecturer, once the assignment is loaded. */
  function CanManageAssignment(role: Option<Role>, assignmentLoaded: bool): (b: bool)
    ensures b ==> role.Some? && role.value != Student
    ensures b <==> assignmentLoaded && (role == Some(Admin) || role == Some(Lecturer))
  {
    if role.None? || !assignmentLoaded then false else role.value == Admin || role.value == Lecturer
  }

  /** `getAssignmentTypeLabel`. */
  function TypeLabel(t: AssignmentType): (text: string)
    ensures t.OtherType? ==> text == t.name
  {
    match t
    case Individual => "Tugas Individu"
    case Group => "Tugas Kelompok"
    case Quiz => "Quiz"
    case Exam => "Ujian"
    case OtherType(name) => name
  }

  /** The student's submission form. */
  class SubmissionForm {
    var submissionContent: string
    var submissionFile: Option<FileInfo>
    var existingFileName: Option<string>
    var existingFilePath: Option<string>
    var submitting: bool
    var submitError: Option<string>

    constructor(existingFileName: Option<string>, existingFilePath: Option<string>)
      ensures submissionContent == [] && submissionFile.None? && !submitting && submitError.None?
      ensures this.existingFileName == existingFileName && this.existingFilePath == existingFilePath
    {
      submissionContent := [];
      submissionFile := None;
      this.existingFileName := existingFileName;
      this.existingFilePath := existingFilePath;
      submitting := false;
      submitError := None;
    }

    /**
     * `handleFileChange`: no file changes nothing; a refused file sets the
     * error and keeps the current file; an accepted one becomes the file,
     * clears the error and forgets the previously uploaded one.
     */
    method HandleFileChange(assignment: Option<Assignment>, file: Option<FileInfo>)
      modifies this
      ensures submissionContent == old(submissionContent) && submitting == old(submitting)
      ensures file.None? ==>
        submissionFile == old(submissionFile) && submitError == old(submitError)
        && existingFileName == old(existingFileName) && existingFilePath == old(existingFilePath)
      ensures file.Some? && FileRejection(assignment, file.value).Some? ==>
        submissionFile == old(submissionFile) && submitError == FileRejection(assignment, file.value)
        && existingFileName == old(existingFileName) && existingFilePath == old(existingFilePath)
      ensures file.Some? && FileRejection(assignment, file.value).None? ==>
        submissionFile == file && submitError.None? && existingFileName.None? && existingFilePath.None?
    {
      if file.Some? {
        var rejection := FileRejection(assignment, file.value);
        if rejection.Some? {
          submitError := rejection;
        } else {
          submissionFile := file;
          submitError := None;
          existingFileName := None;
          existingFilePath := None;
        }
      }
    }

    /** `handleRemoveFile`: neither a new nor a previously uploaded file remains. */
    method RemoveFile()
      modifies this
      ensures submissionFile.None? && existingFileName.None? && existingFilePath.None?
      ensures submissionContent == old(submissionContent) && submitError == old(submitError)
      ensures submitting == old(submitting)
    {
      submissionFile := None;
      existingFileName := None;
      existingFilePath := None;
    }

    /** The draft button's `disabled`. */
    function DraftDisabled(canSubmit: bool): bool
      reads this
    {
      !canSubmit || submitting
    }

    /**
     * The send button's `disabled`: as the draft button, and also when
     * there is no content, no new file and no previously uploaded file.
     */
    function SendDisabled(canSubmit: bool): (b: bool)
      reads this
      ensures !b <==> (canSubmit && !submitting
        && (submissionContent != [] || submissionFile.Some? || Truthy(existingFileName)))
      ensures DraftDisabled(canSubmit) ==> b
    {
      DraftDisabled(canSubmit) || (submissionContent == [] && submissionFile.None? && !Truthy(existingFileName))
    }
  }

  /** Removing the file empties the form of files: only content can then enable sending. */
  lemma EmptyFormCannotBeSent(f: SubmissionForm, canSubmit: bool)
    requires f.submissionContent == [] && f.submissionFile.None? && f.existingFileName.None?
    ensures f.SendDisabled(canSubmit)
  {
  }
}
