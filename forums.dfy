/**
 * The forum list: the posts gathered for one course or for all of the
 * user's courses, sorted in place by the chosen mode, the quick
 * reaction, and the "load more" button. Dates are timestamps.
 */
module Forums {
  import opened Wrappers
  import opened Lists
  import opened ArraySort

  datatype Post = Post(id: string, courseId: string, createdAt: int, likesCount: Option<int>)

  /** One course's request: it failed, or it answered with a possibly missing `data`. */
  datatype Fetch = Failed | Fetched(data: Option<seq<Post>>)

  datatype SortMode = Latest | Popular | Oldest

  /** `response.data || []`; a failed request was already turned into `{ data: [] }`. */
  function PostsOf(f: Fetch): seq<Post> {
    if f.Fetched? && f.data.Some? then f.data.value else []
  }

  /** `postsResponses.flatMap(r => r.data || [])`: each course's posts, in course order. */
  function AllPosts(fetches: seq<Fetch>): seq<Post> {
    if fetches == [] then [] else PostsOf(fetches[0]) + AllPosts(fetches[1..])
  }

  /** A post is gathered iff some course's response holds it. */
  lemma {:induction false} AllPostsMembers(fetches: seq<Fetch>, p: Post)
    ensures p in AllPosts(fetches) <==> exists i :: 0 <= i < |fetches| && p in PostsOf(fetches[i])
  {
    if fetches != [] {
      AllPostsMembers(fetches[1..], p);
      if p in AllPosts(fetches[1..]) {
        var j :| 0 <= j < |fetches[1..]| && p in PostsOf(fetches[1..][j]);
        assert p in PostsOf(fetches[j + 1]);
      }
      if exists i :: 0 <= i < |fetches| && p in PostsOf(fetches[i]) {
        var i :| 0 <= i < |fetches| && p in PostsOf(fetches[i]);
        if i > 0 {
          assert fetches[1..][i - 1] == fetches[i];
        }
      }
    }
  }

  /** The posts gathered for the courses are exactly as many as their responses hold. */
  lemma {:induction false} AllPostsLength(fetches: seq<Fetch>)
    ensures |AllPosts(fetches)| == Sum(seq(|fetches|, i requires 0 <= i < |fetches| => |PostsOf(fetches[i])|))
  {
    if fetches != [] {
      AllPostsLength(fetches[1..]);
      assert seq(|fetches|, i requires 0 <= i < |fetches| => |PostsOf(fetches[i])|)[1..]
        == seq(|fetches[1..]|, i requires 0 <= i < |fetches[1..]| => |PostsOf(fetches[1..][i])|);
    }
  }

  function Sum(s: seq<nat>): nat {
    if s == [] then 0 else s[0] + Sum(s[1..])
  }

  /** Gathering distributes over the course list. */
  lemma {:induction false} AllPostsConcat(a: seq<Fetch>, b: seq<Fetch>)
    ensures AllPosts(a + b) == AllPosts(a) + AllPosts(b)
  {
    if a == [] {
      assert a + b == b;
    } else {
      assert (a + b)[1..] == a[1..] + b;
      AllPostsConcat(a[1..], b);
    }
  }

  /** A course whose request failed contributes no post and hides no other. */
  lemma FailedCourseContributesNothing(a: seq<Fetch>, b: seq<Fetch>)
    ensures AllPosts(a + [Failed] + b) == AllPosts(a) + AllPosts(b)
  {
    AllPostsConcat(a + [Failed], b);
    AllPostsConcat(a, [Failed]);
    assert [Failed][1..] == [];
    assert AllPosts([Failed]) == [];
    assert AllPosts(a + [Failed]) == AllPosts(a);
  }

  /** The posts gathered before sorting: the chosen course's, or every course's. */
  function Gathered(allCourses: bool, single: Option<seq<Post>>, fetches: seq<Fetch>): seq<Post> {
    if !allCourses then (if single.Some? then single.value else []) else AllPosts(fetches)
  }

  function LikesOf(p: Post): int {
    p.likesCount.GetOr(0)
  }

  /** The comparator of each mode, as "no later than". */
  function ModeOrder(mode: SortMode): (Post, Post) -> bool {
    match mode
    case Latest => DescendingBy((p: Post) => p.createdAt)
    case Popular => DescendingBy(LikesOf)
    case Oldest => AscendingBy((p: Post) => p.createdAt)
  }

  lemma ModeOrderIsPreorder(mode: SortMode)
    ensures TotalPreorder(ModeOrder(mode))
  {
    KeyOrdersArePreorders((p: Post) => p.createdAt);
    KeyOrdersArePreorders(LikesOf);
  }

  /**
   * The end of `fetchData`: the gathered posts in a new array, sorted in
   * place: newest first for 'latest', oldest first for 'oldest', most
   * likes (missing = 0) first for 'popular'.
   */
  method SortedPosts(allCourses: bool, single: Option<seq<Post>>, fetches: seq<Fetch>, mode: SortMode)
    returns (posts: array<Post>)
    ensures fresh(posts)
    ensures multiset(posts[..]) == multiset(Gathered(allCourses, single, fetches))
    ensures mode == Latest ==> forall i, j :: 0 <= i < j < posts.Length ==> posts[i].createdAt >= posts[j].createdAt
    ensures mode == Oldest ==> forall i, j :: 0 <= i < j < posts.Length ==> posts[i].createdAt <= posts[j].createdAt
    ensures mode == Popular ==> forall i, j :: 0 <= i < j < posts.Length ==> LikesOf(posts[i]) >= LikesOf(posts[j])
  {
    var all := Gathered(allCourses, single, fetches);
    posts := ArrayOf(all);
    ModeOrderIsPreorder(mode);
    SortInPlace(posts, ModeOrder(mode));
    assert Sorted(posts[..], ModeOrder(mode));
    forall i, j | 0 <= i < j < posts.Length ensures ModeOrder(mode)(posts[i], posts[j]) {
      assert posts[..][i] == posts[i] && posts[..][j] == posts[j];
    }
  }

  /**
   * `handleQuickReact`: once the like is recorded, the post with that id
   * gains one like (a missing count being 0); every other post is kept.
   */
  function QuickReact(posts: seq<Post>, postId: string, succeeded: bool): (r: seq<Post>)
    ensures |r| == |posts|
    ensures !succeeded ==> r == posts
    ensures succeeded ==> forall i :: 0 <= i < |r| ==>
      if posts[i].id == postId then r[i] == posts[i].(likesCount := Some(LikesOf(posts[i]) + 1)) else r[i] == posts[i]
  {
    if !succeeded then posts
    else
      seq(|posts|, i requires 0 <= i < |posts| =>
        if posts[i].id == postId then posts[i].(likesCount := Some(LikesOf(posts[i]) + 1)) else posts[i])
  }

  /** A reaction adds exactly one like in total when exactly one post has that id. */
  lemma QuickReactAddsOne(posts: seq<Post>, postId: string, k: nat)
    requires k < |posts| && posts[k].id == postId
    requires forall i :: 0 <= i < |posts| && i != k ==> posts[i].id != postId
    ensures TotalLikes(QuickReact(posts, postId, true)) == TotalLikes(posts) + 1
  {
    TotalLikesReplace(posts, k, QuickReact(posts, postId, true)[k]);
    assert QuickReact(posts, postId, true) == posts[k := QuickReact(posts, postId, true)[k]];
  }

  function TotalLikes(posts: seq<Post>): int {
    if posts == [] then 0 else LikesOf(posts[0]) + TotalLikes(posts[1..])
  }

  lemma {:induction false} TotalLikesReplace(posts: seq<Post>, k: nat, p: Post)
    requires k < |posts|
    ensures TotalLikes(posts[k := p]) == TotalLikes(posts) - LikesOf(posts[k]) + LikesOf(p)
  {
    if k > 0 {
      assert posts[k := p][1..] == posts[1..][k - 1 := p];
      TotalLikesReplace(posts[1..], k - 1, p);
    } else {
      assert posts[k := p][1..] == posts[1..];
    }
  }

  /** The "Muat Lebih Banyak" button: shown iff at least ten posts are listed. */
  predicate ShowLoadMore(posts: seq<Post>) {
    |posts| >= 10
  }

  /** The button depends on how many posts there are, not on their order: sorting never shows or hides it. */
  lemma LoadMoreIgnoresOrder(a: seq<Post>, b: seq<Post>)
    requires multiset(a) == multiset(b)
    ensures ShowLoadMore(a) <==> ShowLoadMore(b)
  {
    assert |a| == |multiset(a)| == |multiset(b)| == |b|;
  }
}
