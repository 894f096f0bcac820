/**
 * The lecturer dashboard: the greeting for the hour, the quick-grade
 * drafts and their check, the relative age of a submission, and the
 * first four pending submissions with the count of the rest.
 */
module LecturerDashboard {
  import opened Wrappers
  import opened JsString
  import opened Lists

  // ---- Greeting ----

  datatype DayPart = Pagi | Siang | Sore | Malam

  /** The ladder of hours: before 11, before 15, before 18, then evening. */
  function GreetingPart(hour: int): (p: DayPart)
    ensures p == Pagi <==> hour < 11
    ensures p == Siang <==> 11 <= hour < 15
    ensures p == Sore <==> 15 <= hour < 18
    ensures p == Malam <==> hour >= 18
  {
    if hour < 11 then Pagi
    else if hour >= 11 && hour < 15 then Siang
    else if hour >= 15 && hour < 18 then Sore
    else Malam
  }

  function GreetingText(p: DayPart): string {
    match p
    case Pagi => "Selamat Pagi"
    case Siang => "Selamat Siang"
    case Sore => "Selamat Sore"
    case Malam => "Selamat Malam"
  }

  function PartRank(p: DayPart): nat {
    match p
    case Pagi => 0
    case Siang => 1
    case Sore => 2
    case Malam => 3
  }

  /** Later in the day never gives an earlier greeting. */
  lemma GreetingFollowsTheDay(h1: int, h2: int)
    requires h1 <= h2
    ensures PartRank(GreetingPart(h1)) <= PartRank(GreetingPart(h2))
  {
  }

  /** The four greetings are four different texts. */
  lemma GreetingTextsDiffer(p: DayPart, q: DayPart)
    requires p != q
    ensures GreetingText(p) != GreetingText(q)
  {
    var tp := GreetingText(p);
    var tq := GreetingText(q);
    assert tp[9] != tq[9] || |tp| != |tq|;
  }

  // ---- Quick grade ----

  /** The typed score and feedback of one submission; a field never typed is missing. */
  datatype Draft = Draft(score: Option<string>, feedback: Option<string>)

  datatype Field = ScoreField | FeedbackField

  datatype GradeRequest = GradeRequest(score: real, feedback: string)

  const ScoreMissingMsg := "Silakan masukkan nilai terlebih dahulu"
  const ScoreRangeMsg := "Nilai harus berupa angka antara 0-100"
  const DefaultFeedback := "Dinilai via dashboard"

  /**
   * `updateQuickGradeData`: the draft of `id` (an empty one if it had
   * none) gets `value` in `field`; its other field and every other
   * draft stay as they were.
   */
  function UpdateDraft(drafts: map<string, Draft>, id: string, field: Field, value: string): (r: map<string, Draft>)
    ensures r.Keys == drafts.Keys + {id}
    ensures forall k :: k in drafts && k != id ==> r[k] == drafts[k]
    ensures field == ScoreField ==>
      r[id].score == Some(value) && r[id].feedback == (if id in drafts then drafts[id].feedback else None)
    ensures field == FeedbackField ==>
      r[id].feedback == Some(value) && r[id].score == (if id in drafts then drafts[id].score else None)
  {
    var old_ := if id in drafts then drafts[id] else Draft(None, None);
    drafts[id := if field == ScoreField then old_.(score := Some(value)) else old_.(feedback := Some(value))]
  }

  /** Typing into two submissions' drafts gives the same drafts in either order. */
  lemma UpdatesOfTwoDraftsCommute(drafts: map<string, Draft>, a: string, fa: Field, va: string,
                                  b: string, fb: Field, vb: string)
    requires a != b
    ensures UpdateDraft(UpdateDraft(drafts, a, fa, va), b, fb, vb) == UpdateDraft(UpdateDraft(drafts, b, fb, vb), a, fa, va)
  {
  }

  /**
   * `handleQuickGrade`: refused without a typed score, and refused when
   * the score is not a number (`parse` gives `None` for `NaN`) or lies
   * outside 0..100; otherwise the score is sent with the feedback, or
   * with the default text when no feedback was typed.
   */
  function QuickGrade(drafts: map<string, Draft>, id: string, parse: string -> Option<real>): (r: Result<GradeRequest, string>)
    ensures r.Err? && r.error == ScoreMissingMsg <==> id !in drafts || !Truthy(drafts[id].score)
    ensures r.Ok? <==> (id in drafts && Truthy(drafts[id].score)
      && parse(drafts[id].score.value).Some? && 0.0 <= parse(drafts[id].score.value).value <= 100.0)
    ensures r.Ok? ==> (r.value.score == parse(drafts[id].score.value).value
      && 0.0 <= r.value.score <= 100.0
      && r.value.feedback == (if Truthy(drafts[id].feedback) then drafts[id].feedback.value else DefaultFeedback))
  {
    if id !in drafts || !Truthy(drafts[id].score) then Err(ScoreMissingMsg)
    else
      var score := parse(drafts[id].score.value);
      if score.None? || score.value < 0.0 || score.value > 100.0 then Err(ScoreRangeMsg)
      else
        var d := drafts[id];
        Ok(GradeRequest(score.value, if Truthy(d.feedback) then d.feedback.value else DefaultFeedback))
  }

  /** The grading request never carries empty feedback. */
  lemma GradeFeedbackNeverEmpty(drafts: map<string, Draft>, id: string, parse: string -> Option<real>)
    requires QuickGrade(drafts, id, parse).Ok?
    ensures QuickGrade(drafts, id, parse).value.feedback != []
  {
  }

  /** After a successful grade, that submission's draft alone is dropped. */
  function ClearDraft(drafts: map<string, Draft>, id: string): (r: map<string, Draft>)
    ensures r.Keys == drafts.Keys - {id}
    ensures forall k :: k in r ==> r[k] == drafts[k]
  {
    drafts - {id}
  }

  /** Typing a score and then grading it leaves no draft for that submission and keeps the others. */
  lemma GradedDraftIsCleared(drafts: map<string, Draft>, id: string, v: string)
    ensures ClearDraft(UpdateDraft(drafts, id, ScoreField, v), id) == ClearDraft(drafts, id)
  {
  }

  // ---- Relative time ----

  datatype Age = JustNow | Minutes(n: int) | Hours(n: int) | Days(n: int)

  /**
   * `formatRelativeTime` on whole minutes elapsed: under one minute (the
   * future included) it is "just now", then minutes below 60, hours
   * below 24, then days, each count rounded down.
   */
  function RelativeAge(minutes: int): (a: Age)
    ensures a == JustNow <==> minutes < 1
    ensures a.Minutes? ==> a.n == minutes && 1 <= a.n < 60
    ensures a.Hours? ==> a.n == minutes / 60 && 1 <= a.n < 24
    ensures a.Days? ==> a.n == minutes / (60 * 24) && a.n >= 1
  {
    if minutes < 1 then JustNow
    else if minutes < 60 then Minutes(minutes)
    else
      var hours := minutes / 60;
      if hours < 24 then Hours(hours)
      else
        HoursToDays(minutes);
        Days(hours / 24)
  }

  lemma HoursToDays(m: int)
    requires m >= 0
    ensures m / 60 / 24 == m / (60 * 24)
  {
    var h := m / 60;
    assert m == 60 * h + m % 60;
    assert h == 24 * (h / 24) + h % 24;
    assert m == 1440 * (h / 24) + 60 * (h % 24) + m % 60;
  }

  /** The whole minutes between two timestamps in milliseconds, rounded down. */
  function MinutesBetween(nowMs: int, dateMs: int): int {
    (nowMs - dateMs) / (1000 * 60)
  }

  function AgeText(a: Age): string {
    match a
    case JustNow => "Baru saja"
    case Minutes(n) => IntToString(n) + " menit lalu"
    case Hours(n) => IntToString(n) + " jam lalu"
    case Days(n) => IntToString(n) + " hari lalu"
  }

  function FormatRelativeTime(nowMs: int, dateMs: int): string {
    AgeText(RelativeAge(MinutesBetween(nowMs, dateMs)))
  }

  /** "Baru saja" is shown exactly when less than a minute has passed (or the date lies ahead). */
  lemma JustNowIffUnderAMinute(nowMs: int, dateMs: int)
    ensures FormatRelativeTime(nowMs, dateMs) == "Baru saja" <==> nowMs - dateMs < 60000
  {
    var a := RelativeAge(MinutesBetween(nowMs, dateMs));
    assert a == JustNow <==> nowMs - dateMs < 60000;
    if a.Minutes? || a.Hours? || a.Days? {
      assert |IntToString(a.n)| >= 1;
      assert |AgeText(a)| > |"Baru saja"|;
    }
  }

  /** Each bucket begins where the previous one ends. */
  lemma BucketEdges()
    ensures RelativeAge(0) == JustNow && RelativeAge(1) == Minutes(1)
    ensures RelativeAge(59) == Minutes(59) && RelativeAge(60) == Hours(1)
    ensures RelativeAge(24 * 60 - 1) == Hours(23) && RelativeAge(24 * 60) == Days(1)
  {
  }

  // ---- Pending submissions ----

  const Shown := 4

  /** The submissions shown as cards: the first four. */
  function ShownSubmissions<T>(pending: seq<T>): (r: seq<T>)
    ensures |r| <= Shown && r <= pending
  {
    Take(pending, Shown)
  }

  /** The "Dan N submission lainnya" line: present only beyond four, with the number not shown. */
  function OverflowCount<T>(pending: seq<T>): (r: Option<nat>)
    ensures r.Some? <==> |pending| > Shown
    ensures r.Some? ==> r.value == |pending| - Shown
  {
    if |pending| > Shown then Some(|pending| - Shown) else None
  }

  /** Cards and the overflow line together account for every pending submission. */
  lemma CardsAndOverflowCoverAll<T>(pending: seq<T>)
    ensures |ShownSubmissions(pending)| + OverflowCount(pending).GetOr(0) == |pending|
  {
  }
}
