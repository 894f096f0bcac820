/**
 * The discussion page: who may moderate, the like toggle, the reply
 * list's updates (new reply, edit, delete, accepted answer), the pin
 * toggle, the relative age of a post and the set of expanded replies.
 * A service call the page awaits is a parameter: `succeeded` says
 * whether it returned, and a created reply is `None` when the call
 * failed or the server sent no reply with a string id.
 */
module ForumDetail {
  import opened Wrappers
  import opened JsString
  import opened Roles
  import opened Lists

  /** A post or a reply; the page holds both as `ForumPost`. */
  datatype ForumPost = ForumPost(
    id: string, authorId: string, content: string,
    isLiked: bool, likesCount: int, repliesCount: Option<int>,
    isAnswer: bool, isAnswered: bool, isPinned: bool)

  datatype SessionUser = SessionUser(id: string, role: Role)

  /** The parts of the page's state that its handlers change. */
  datatype PageState = PageState(
    post: Option<ForumPost>, replies: seq<ForumPost>,
    replyContent: string, replyingTo: Option<string>,
    editingReply: Option<string>, editContent: string)

  datatype ReplyData = ReplyData(content: string, parentId: Option<string>)

  // ---- Who may moderate ----

  /** `user?.id === post?.authorId`: also true when both are missing. */
  predicate IsOwner(user: Option<SessionUser>, post: Option<ForumPost>) {
    (if user.Some? then Some(user.value.id) else None) == (if post.Some? then Some(post.value.authorId) else None)
  }

  /** `canModerate`: the owner, a lecturer or an admin. */
  function CanModerate(user: Option<SessionUser>, post: Option<ForumPost>): (b: bool)
    ensures b <==> IsOwner(user, post) || (user.Some? && user.value.role in {Lecturer, Admin})
    ensures user.Some? && post.Some? && user.value.role == Student ==> (b <==> user.value.id == post.value.authorId)
  {
    IsOwner(user, post) || (user.Some? && user.value.role == Lecturer) || (user.Some? && user.value.role == Admin)
  }

  // ---- Likes ----

  /** `handleLikePost` on the post: the flag flips and the count follows it. */
  function ToggleLike(p: ForumPost): (r: ForumPost)
    ensures r.isLiked == !p.isLiked
    ensures r.likesCount == if p.isLiked then p.likesCount - 1 else p.likesCount + 1
    ensures r.(isLiked := p.isLiked, likesCount := p.likesCount) == p
  {
    p.(isLiked := !p.isLiked, likesCount := if p.isLiked then p.likesCount - 1 else p.likesCount + 1)
  }

  /** Liking twice gives back the original post. */
  lemma ToggleLikeTwice(p: ForumPost)
    ensures ToggleLike(ToggleLike(p)) == p
  {
  }

  /** A liked post has a count one higher than the same post not liked. */
  lemma ToggleLikeCountsTheUser(p: ForumPost)
    requires !p.isLiked
    ensures ToggleLike(p).isLiked && ToggleLike(p).likesCount == p.likesCount + 1
  {
  }

  // ---- Replies ----

  function OrZero(n: Option<int>): int {
    if n.Some? then n.value else 0
  }

  /**
   * The request `handleSubmitReply` sends: `None` for blank text or a
   * post not loaded; otherwise the trimmed text, with a parent only
   * when a (non-empty) reply is being answered.
   */
  function ReplyRequest(st: PageState): (r: Option<ReplyData>)
    ensures r.Some? <==> !IsBlank(st.replyContent) && st.post.Some?
    ensures r.Some? ==> r.value.content == Trim(st.replyContent) && r.value.content != []
    ensures r.Some? ==> (r.value.parentId.Some? <==> Truthy(st.replyingTo))
    ensures r.Some? && r.value.parentId.Some? ==> r.value.parentId == st.replyingTo
  {
    IsBlankIffTrimEmpty(st.replyContent);
    if IsBlank(st.replyContent) || st.post.None? then None
    else Some(ReplyData(Trim(st.replyContent), if Truthy(st.replyingTo) then st.replyingTo else None))
  }

  /**
   * The state after `handleSubmitReply`: when the request was sent (the
   * text is not blank and the post is loaded) and the server created
   * `created`, it is appended last, the editor is cleared and the post's
   * reply count rises by one (a missing count being 0); otherwise
   * nothing changes.
   */
  function SubmitReply(st: PageState, created: Option<ForumPost>): (r: PageState)
    ensures IsBlank(st.replyContent) || st.post.None? || created.None? ==> r == st
    ensures !IsBlank(st.replyContent) && st.post.Some? && created.Some? ==>
      && r.replies == st.replies + [created.value]
      && r.replyContent == [] && r.replyingTo.None?
      && r.post == Some(st.post.value.(repliesCount := Some(OrZero(st.post.value.repliesCount) + 1)))
      && r.editingReply == st.editingReply && r.editContent == st.editContent
  {
    if IsBlank(st.replyContent) || st.post.None? || created.None? then st
    else
      var p := st.post.value;
      st.(replies := st.replies + [created.value], replyContent := [], replyingTo := None,
          post := Some(p.(repliesCount := Some(OrZero(p.repliesCount) + 1))))
  }

  /**
   * The replies after `handleUpdateReply`: the reply with that id gets
   * the edited text as typed (untrimmed); every other reply is kept.
   */
  function WithContent(replies: seq<ForumPost>, replyId: string, content: string): (r: seq<ForumPost>)
    ensures |r| == |replies|
    ensures forall i :: 0 <= i < |r| ==>
      r[i] == if replies[i].id == replyId then replies[i].(content := content) else replies[i]
  {
    seq(|replies|, i requires 0 <= i < |replies| =>
      if replies[i].id == replyId then replies[i].(content := content) else replies[i])
  }

  /**
   * `handleUpdateReply`: refused for blank text; once the service call
   * returns, the reply's text is replaced and the editor closed.
   */
  function UpdateReply(st: PageState, replyId: string, succeeded: bool): (r: PageState)
    ensures IsBlank(st.editContent) || !succeeded ==> r == st
    ensures !IsBlank(st.editContent) && succeeded ==>
      && r.replies == WithContent(st.replies, replyId, st.editContent)
      && r.editingReply.None? && r.editContent == []
      && r.post == st.post && r.replyContent == st.replyContent && r.replyingTo == st.replyingTo
  {
    if IsBlank(st.editContent) || !succeeded then st
    else st.(replies := WithContent(st.replies, replyId, st.editContent), editingReply := None, editContent := [])
  }

  /** An edit touches only the content of the replies with that id. */
  lemma EditTouchesOnlyTarget(replies: seq<ForumPost>, replyId: string, content: string, i: nat)
    requires i < |replies|
    ensures var r := WithContent(replies, replyId, content);
      && (replies[i].id != replyId ==> r[i] == replies[i])
      && r[i].(content := replies[i].content) == replies[i]
      && (replies[i].id == replyId ==> r[i].content == content)
  {
  }

  /** The replies other than the one with that id, in their order. */
  function WithoutReply(replies: seq<ForumPost>, replyId: string): (r: seq<ForumPost>)
    ensures forall x :: x in r <==> x in replies && x.id != replyId
    ensures |r| <= |replies|
    ensures (forall x :: x in replies ==> x.id != replyId) ==> r == replies
  {
    var keep := (x: ForumPost) => x.id != replyId;
    if forall x :: x in replies ==> keep(x) then FilterKeepsAll(replies, keep); Filter(replies, keep)
    else Filter(replies, keep)
  }

  /** A delete keeps the remaining replies in their order. */
  lemma WithoutReplyKeepsOrder(replies: seq<ForumPost>, replyId: string)
    ensures IsSubsequence(WithoutReply(replies, replyId), replies)
  {
    FilterIsSubsequence(replies, (x: ForumPost) => x.id != replyId);
  }

  /**
   * `handleDeleteReply`: once confirmed and deleted, the reply leaves the
   * list and a defined reply count drops by one; an undefined count
   * stays undefined.
   */
  function DeleteReply(st: PageState, replyId: string, confirmed: bool, succeeded: bool): (r: PageState)
    ensures !confirmed || !succeeded ==> r == st
    ensures confirmed && succeeded ==>
      && r.replies == WithoutReply(st.replies, replyId)
      && (st.post.Some? && st.post.value.repliesCount.Some? ==>
            r.post == Some(st.post.value.(repliesCount := Some(st.post.value.repliesCount.value - 1))))
      && (st.post.None? || st.post.value.repliesCount.None? ==> r.post == st.post)
      && r.replyContent == st.replyContent && r.replyingTo == st.replyingTo
      && r.editingReply == st.editingReply && r.editContent == st.editContent
  {
    if !confirmed || !succeeded then st
    else
      var post := if st.post.Some? && st.post.value.repliesCount.Some?
        then Some(st.post.value.(repliesCount := Some(st.post.value.repliesCount.value - 1)))
        else st.post;
      st.(replies := WithoutReply(st.replies, replyId), post := post)
  }

  /** After a delete no reply with that id is left. */
  lemma DeletedReplyIsGone(st: PageState, replyId: string)
    ensures forall x :: x in DeleteReply(st, replyId, true, true).replies ==> x.id != replyId
  {
  }

  /** Every reply marked as the answer exactly when its id is the chosen one. */
  function MarkAnswer(replies: seq<ForumPost>, replyId: string): (r: seq<ForumPost>)
    ensures |r| == |replies|
    ensures forall i :: 0 <= i < |r| ==> r[i] == replies[i].(isAnswer := replies[i].id == replyId)
  {
    seq(|replies|, i requires 0 <= i < |replies| => replies[i].(isAnswer := replies[i].id == replyId))
  }

  /**
   * `handleMarkAsAnswer`: a no-op unless the post is loaded and the user
   * owns it; afterwards exactly the replies with that id are the answer
   * and the post counts as answered.
   */
  function MarkAsAnswer(st: PageState, replyId: string, isOwner: bool, succeeded: bool): (r: PageState)
    ensures st.post.None? || !isOwner || !succeeded ==> r == st
    ensures st.post.Some? && isOwner && succeeded ==>
      && r.replies == MarkAnswer(st.replies, replyId)
      && (forall i :: 0 <= i < |r.replies| ==> (r.replies[i].isAnswer <==> r.replies[i].id == replyId))
      && r.post == Some(st.post.value.(isAnswered := true))
      && r.replyContent == st.replyContent && r.replyingTo == st.replyingTo
      && r.editingReply == st.editingReply && r.editContent == st.editContent
  {
    if st.post.None? || !isOwner || !succeeded then st
    else st.(replies := MarkAnswer(st.replies, replyId), post := Some(st.post.value.(isAnswered := true)))
  }

  /** Marking an answer twice, with two ids, leaves only the second one marked. */
  lemma LaterAnswerReplacesEarlier(replies: seq<ForumPost>, first: string, second: string)
    ensures MarkAnswer(MarkAnswer(replies, first), second) == MarkAnswer(replies, second)
  {
  }

  /** `handlePinPost`: a moderator flips the pin of a loaded post. */
  function TogglePin(post: Option<ForumPost>, canModerate: bool, succeeded: bool): (r: Option<ForumPost>)
    ensures post.None? || !canModerate || !succeeded ==> r == post
    ensures post.Some? && canModerate && succeeded ==> r == Some(post.value.(isPinned := !post.value.isPinned))
  {
    if post.None? || !canModerate || !succeeded then post
    else Some(post.value.(isPinned := !post.value.isPinned))
  }

  // ---- Relative age ----

  datatype TimeUnit = TimeUnit(name: string, seconds: nat)

  /** The units `getTimeAgo` tries, largest first; a month is 30 days and a year 365. */
  const Units: seq<TimeUnit> := [
    TimeUnit("tahun", 31536000), TimeUnit("bulan", 2592000), TimeUnit("minggu", 604800),
    TimeUnit("hari", 86400), TimeUnit("jam", 3600), TimeUnit("menit", 60)]

  const JustNow := "Baru saja"

  function AgoText(count: int, unit: string): string {
    IntToString(count) + " " + unit + " yang lalu"
  }

  /** Unit `k` is the first whose whole count in `seconds` is at least 1. */
  ghost predicate FirstFit(seconds: int, k: nat) {
    && k < |Units|
    && seconds / Units[k].seconds >= 1
    && forall j :: 0 <= j < k ==> seconds / Units[j].seconds < 1
  }

  /**
   * `getTimeAgo`: whole seconds elapsed (floor of the milliseconds over
   * 1000), then the first unit of which at least one whole unit has
   * elapsed names the age; under a minute, or in the future, it is
   * "Baru saja".
   */
  method TimeAgo(nowMs: int, dateMs: int) returns (text: string)
    ensures (nowMs - dateMs) / 1000 < 60 ==> text == JustNow
    ensures (nowMs - dateMs) / 1000 >= 60 ==>
      exists k: nat :: FirstFit((nowMs - dateMs) / 1000, k)
        && text == AgoText((nowMs - dateMs) / 1000 / Units[k].seconds, Units[k].name)
  {
    var seconds := (nowMs - dateMs) / 1000;
    var i := 0;
    while i < |Units|
      invariant 0 <= i <= |Units|
      invariant forall j :: 0 <= j < i ==> seconds / Units[j].seconds < 1
    {
      var interval := seconds / Units[i].seconds;
      if interval >= 1 {
        assert FirstFit(seconds, i);
        return AgoText(interval, Units[i].name);
      }
      i := i + 1;
    }
    assert seconds / Units[5].seconds < 1;
    text := JustNow;
  }

  /** The count a chosen unit reports is at least one. */
  lemma FirstFitCountsOne(seconds: int, k: nat)
    requires FirstFit(seconds, k)
    ensures seconds >= Units[k].seconds
    ensures seconds >= 60
  {
  }

  /** Between one hour and one day the age is given in hours. */
  lemma HoursBetweenHourAndDay(seconds: int)
    requires 3600 <= seconds < 86400
    ensures FirstFit(seconds, 4)
  {
  }

  // ---- Expanded replies ----

  /** `after` is `before` with the membership of `id`, and only of `id`, flipped. */
  ghost predicate Toggled(before: set<string>, id: string, after: set<string>) {
    && (id in after <==> id !in before)
    && forall x :: x != id ==> (x in after <==> x in before)
  }

  /** `toggleReplyExpansion`: a copy of the set with the reply added or removed. */
  method ToggleReplyExpansion(expanded: set<string>, replyId: string) returns (r: set<string>)
    ensures Toggled(expanded, replyId, r)
  {
    r := expanded;
    if replyId in r {
      r := r - {replyId};
    } else {
      r := r + {replyId};
    }
  }

  /** Toggling the same reply twice gives back the original set. */
  lemma ToggledTwiceIsIdentity(a: set<string>, b: set<string>, c: set<string>, id: string)
    requires Toggled(a, id, b) && Toggled(b, id, c)
    ensures c == a
  {
    forall x ensures x in c <==> x in a {
      if x == id {
      }
    }
  }
}
