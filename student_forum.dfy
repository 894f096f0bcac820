/**
 * The student's own discussions: the list filtered by the search text
 * (title or content, ignoring ASCII case) and by the kind of post.
 */
module StudentForum {
  import opened Wrappers
  import opened JsString
  import opened Lists

  /** A post; `parentId` is present exactly when the post is an answer to another. */
  datatype Post = Post(id: string, title: string, content: string, postType: string, parentId: Option<string>)

  datatype FilterType = All | Questions | Answers

  predicate MatchesSearch(p: Post, query: string) {
    Includes(ToLower(p.title), ToLower(query)) || Includes(ToLower(p.content), ToLower(query))
  }

  predicate MatchesFilter(p: Post, filterType: FilterType) {
    || filterType == All
    || (filterType == Questions && p.postType == "question")
    || (filterType == Answers && p.parentId.Some?)
  }

  /** `filteredPosts`: the posts passing both tests, in their order. */
  function FilteredPosts(myPosts: seq<Post>, query: string, filterType: FilterType): (r: seq<Post>)
    ensures forall p :: p in r <==> p in myPosts && MatchesSearch(p, query) && MatchesFilter(p, filterType)
    ensures filterType == Questions ==> forall p :: p in r ==> p.postType == "question"
    ensures filterType == Answers ==> forall p :: p in r ==> p.parentId.Some?
  {
    Filter(myPosts, (p: Post) => MatchesSearch(p, query) && MatchesFilter(p, filterType))
  }

  /** The result keeps the order of `myPosts`. */
  lemma FilteredPostsIsSubsequence(myPosts: seq<Post>, query: string, filterType: FilterType)
    ensures IsSubsequence(FilteredPosts(myPosts, query, filterType), myPosts)
  {
    FilterIsSubsequence(myPosts, (p: Post) => MatchesSearch(p, query) && MatchesFilter(p, filterType));
  }

  /** The empty search text matches every post. */
  lemma EmptyQueryMatchesAll(p: Post)
    ensures MatchesSearch(p, [])
  {
    IncludesEmpty(ToLower(p.title));
    assert ToLower([]) == [];
  }

  /** With no search text and no type restriction every post is listed, in order. */
  lemma NothingFilteredOut(myPosts: seq<Post>)
    ensures FilteredPosts(myPosts, [], All) == myPosts
  {
    forall p | p in myPosts ensures MatchesSearch(p, []) && MatchesFilter(p, All) {
      EmptyQueryMatchesAll(p);
    }
    FilterKeepsAll(myPosts, (p: Post) => MatchesSearch(p, []) && MatchesFilter(p, All));
  }

  /** Questions and answers are each among the posts of the 'all' view. */
  lemma TypeFiltersNarrowAll(myPosts: seq<Post>, query: string, filterType: FilterType)
    ensures forall p :: p in FilteredPosts(myPosts, query, filterType) ==> p in FilteredPosts(myPosts, query, All)
  {
  }
}
