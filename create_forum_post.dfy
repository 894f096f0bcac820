/**
 * The new-discussion form: its validation, field by field, the text the
 * rich-text editor's markup leaves once its tags are deleted, the
 * trimmed data that is sent, and the preset course.
 */
module CreateForumPost {
  import opened Wrappers
  import opened JsString

  datatype FormData = FormData(title: string, content: string, courseId: string)

  /** One optional message per field; a missing field has no error. */
  datatype FormErrors = FormErrors(title: Option<string>, content: Option<string>, courseId: Option<string>)

  datatype PostData = PostData(title: string, content: string, courseId: string)

  const TitleRequiredMsg := "Judul diskusi wajib diisi"
  const TitleMinMsg := "Judul minimal 10 karakter"
  const TitleMaxMsg := "Judul maksimal 200 karakter"
  const ContentRequiredMsg := "Konten diskusi wajib diisi"
  const ContentMinMsg := "Konten minimal 20 karakter"
  const CourseMissingMsg := "Pilih mata kuliah untuk diskusi ini"

  const TitleMin := 10
  const TitleMax := 200
  const ContentMin := 20

  // ---- Deleting tags ----

  /**
   * What follows the first `>` of `s`, or `None` when `s` has no `>`:
   * the rest of the text once the tag opened just before `s` is closed.
   */
  function AfterTag(s: string): (r: Option<string>)
    ensures r.Some? <==> '>' in s
    ensures r.Some? ==> |r.value| < |s| && r.value == s[|s| - |r.value|..]
  {
    if s == [] then None
    else if s[0] == '>' then Some(s[1..])
    else
      var r := AfterTag(s[1..]);
      assert '>' in s <==> '>' in s[1..];
      r
  }

  /**
   * `s.replace(/<[^>]*>/g, '')`: each `<` and everything up to the first
   * `>` after it is deleted; a `<` with no `>` after it stays. What is
   * left holds no `<` followed later by `>`.
   */
  function StripTags(s: string): (r: string)
    ensures |r| <= |s|
    ensures '>' in r ==> '>' in s
    ensures forall i, j :: 0 <= i < j < |r| && r[i] == '<' ==> r[j] != '>'
    ensures '<' !in s ==> r == s
    decreases |s|
  {
    if s == [] then []
    else if s[0] == '<' && AfterTag(s[1..]).Some? then
      var rest := AfterTag(s[1..]).value;
      SuffixChars(s, rest);
      StripTags(rest)
    else
      var rest := StripTags(s[1..]);
      assert forall c :: c in s[1..] ==> c in s;
      assert s[0] == '<' ==> '>' !in rest;
      var r := [s[0]] + rest;
      assert forall j :: 0 < j < |r| ==> r[j] == rest[j - 1];
      r
  }

  lemma SuffixChars(s: string, rest: string)
    requires |rest| <= |s| && rest == s[|s| - |rest|..]
    ensures forall c :: c in rest ==> c in s
  {
    forall c | c in rest ensures c in s {
      var k :| 0 <= k < |rest| && rest[k] == c;
      assert s[|s| - |rest| + k] == c;
    }
  }

  /**
   * A tag is deleted together with its delimiters and nothing else goes:
   * the plain text before it is kept and the rest is stripped in turn.
   */
  lemma {:induction false} StripTagsOfTag(a: string, t: string, b: string)
    requires '<' !in a && '>' !in t
    ensures StripTags(a + ['<'] + t + ['>'] + b) == a + StripTags(b)
  {
    var s := a + ['<'] + t + ['>'] + b;
    if a == [] {
      assert s == ['<'] + (t + ['>'] + b);
      AfterTagPastText(t, b);
      StripTagsDropsTag(t + ['>'] + b);
    } else {
      var x := a[1..] + ['<'] + t + ['>'] + b;
      assert s == [a[0]] + x;
      assert a[0] in a;
      StripTagsKeepsChar(a[0], x);
      StripTagsOfTag(a[1..], t, b);
      ConsAppend(a, StripTags(b));
    }
  }

  lemma ConsAppend(a: string, b: string)
    requires a != []
    ensures [a[0]] + (a[1..] + b) == a + b
  {
    assert a == [a[0]] + a[1..];
  }

  lemma StripTagsDropsTag(rest: string)
    requires AfterTag(rest).Some?
    ensures StripTags(['<'] + rest) == StripTags(AfterTag(rest).value)
  {
    assert (['<'] + rest)[1..] == rest;
  }

  lemma StripTagsKeepsChar(c: char, rest: string)
    requires c != '<'
    ensures StripTags([c] + rest) == [c] + StripTags(rest)
  {
    assert ([c] + rest)[1..] == rest;
  }

  lemma {:induction false} AfterTagPastText(t: string, b: string)
    requires '>' !in t
    ensures AfterTag(t + ['>'] + b) == Some(b)
  {
    if t != [] {
      assert (t + ['>'] + b)[1..] == t[1..] + ['>'] + b;
      AfterTagPastText(t[1..], b);
    }
  }

  /** Text without tags is measured as it is. */
  lemma PlainContentLength(content: string)
    requires '<' !in content
    ensures |StripTags(content)| == |content|
  {
  }

  // ---- Validation ----

  /**
   * `validateForm`: the title is checked for blankness, then for its
   * raw length at least 10, then at most 200, giving at most one message;
   * the content for blankness, then for at least 20 characters outside
   * tags; the course for being chosen. The form passes iff no message
   * was recorded.
   */
  method ValidateForm(form: FormData) returns (errors: FormErrors, ok: bool)
    ensures IsBlank(form.title) ==> errors.title == Some(TitleRequiredMsg)
    ensures !IsBlank(form.title) && |form.title| < TitleMin ==> errors.title == Some(TitleMinMsg)
    ensures !IsBlank(form.title) && |form.title| > TitleMax ==> errors.title == Some(TitleMaxMsg)
    ensures errors.title.None? <==> !IsBlank(form.title) && TitleMin <= |form.title| <= TitleMax
    ensures IsBlank(form.content) ==> errors.content == Some(ContentRequiredMsg)
    ensures !IsBlank(form.content) && |StripTags(form.content)| < ContentMin ==> errors.content == Some(ContentMinMsg)
    ensures errors.content.None? <==> !IsBlank(form.content) && |StripTags(form.content)| >= ContentMin
    ensures errors.courseId.None? <==> form.courseId != []
    ensures errors.courseId.Some? ==> errors.courseId == Some(CourseMissingMsg)
    ensures ok <==> errors == FormErrors(None, None, None)
  {
    errors := FormErrors(None, None, None);
    if IsBlank(form.title) {
      errors := errors.(title := Some(TitleRequiredMsg));
    } else if |form.title| < TitleMin {
      errors := errors.(title := Some(TitleMinMsg));
    } else if |form.title| > TitleMax {
      errors := errors.(title := Some(TitleMaxMsg));
    }
    if IsBlank(form.content) {
      errors := errors.(content := Some(ContentRequiredMsg));
    } else if |StripTags(form.content)| < ContentMin {
      errors := errors.(content := Some(ContentMinMsg));
    }
    if form.courseId == [] {
      errors := errors.(courseId := Some(CourseMissingMsg));
    }
    ok := errors.title.None? && errors.content.None? && errors.courseId.None?;
  }

  /**
   * `handleSubmit`: nothing is sent for a form that fails validation;
   * otherwise the title and content are sent trimmed, with the course.
   */
  method Submit(form: FormData) returns (sent: Option<PostData>)
    ensures sent.Some? <==>
      && !IsBlank(form.title) && TitleMin <= |form.title| <= TitleMax
      && !IsBlank(form.content) && |StripTags(form.content)| >= ContentMin
      && form.courseId != []
    ensures sent.Some? ==> sent.value == PostData(Trim(form.title), Trim(form.content), form.courseId)
    ensures sent.Some? ==> sent.value.title != [] && sent.value.content != []
  {
    var errors, ok := ValidateForm(form);
    if !ok {
      return None;
    }
    IsBlankIffTrimEmpty(form.title);
    IsBlankIffTrimEmpty(form.content);
    sent := Some(PostData(Trim(form.title), Trim(form.content), form.courseId));
  }

  /**
   * The course fetch: with exactly one course it becomes the chosen
   * course; otherwise the form is left as it was.
   */
  function Preselect(form: FormData, courseIds: seq<string>): (r: FormData)
    ensures r.title == form.title && r.content == form.content
    ensures |courseIds| == 1 ==> r.courseId == courseIds[0]
    ensures |courseIds| != 1 ==> r == form
  {
    if |courseIds| == 1 then form.(courseId := courseIds[0]) else form
  }
}
