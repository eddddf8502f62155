/**
 * The home page's `filteredPosts`: the fetched posts narrowed by the search
 * box and by the selected category tile.
 */
module PostFilter {
  import opened Wrappers
  import opened JsString

  /** The fields of a fetched post that the filter reads, with the post's id. */
  datatype Post = Post(id: string, title: string, content: string, category: Option<string>)

  /** The lower-cased search term occurs in the lower-cased title or the lower-cased content. */
  predicate MatchesSearch(post: Post, searchTerm: string) {
    Includes(ToLowerCase(post.title), ToLowerCase(searchTerm)) ||
    Includes(ToLowerCase(post.content), ToLowerCase(searchTerm))
  }

  /** No category is selected, or the post has one equal to the selection ignoring case. */
  predicate MatchesCategory(post: Post, selected: Option<string>) {
    !Truthy(selected) ||
    (Truthy(post.category) && ToLowerCase(post.category.value) == ToLowerCase(selected.value))
  }

  /** The callback passed to `posts.filter`. */
  predicate Keep(post: Post, searchTerm: string, selected: Option<string>) {
    MatchesSearch(post, searchTerm) && MatchesCategory(post, selected)
  }

  /** `r` is `s` with some elements left out and the rest in their order. */
  predicate IsSubsequence(r: seq<Post>, s: seq<Post>) {
    r == [] || (|s| > 0 && ((r[0] == s[0] && IsSubsequence(r[1..], s[1..])) || IsSubsequence(r, s[1..])))
  }

  /**
   * `posts.filter(keep)`: the posts that pass, in their order, each as often
   * as it occurs in the input.
   */
  function Filter(posts: seq<Post>, searchTerm: string, selected: Option<string>): (r: seq<Post>)
    ensures IsSubsequence(r, posts)
    ensures forall p :: multiset(r)[p] == if Keep(p, searchTerm, selected) then multiset(posts)[p] else 0
  {
    if posts == [] then []
    else
      var rest := Filter(posts[1..], searchTerm, selected);
      assert posts == [posts[0]] + posts[1..];
      if Keep(posts[0], searchTerm, selected) then
        assert ([posts[0]] + rest)[1..] == rest;
        [posts[0]] + rest
      else rest
  }

  /** `filteredPosts`: no posts while the query has not produced any, else the filtered list. */
  function FilteredPosts(posts: Option<seq<Post>>, searchTerm: string, selected: Option<string>): (r: seq<Post>)
    ensures posts.None? ==> r == []
    ensures posts.Some? ==> IsSubsequence(r, posts.value)
  {
    match posts
    case None => []
    case Some(ps) => Filter(ps, searchTerm, selected)
  }

  /** A post that is kept contains the search term and, when a category is selected, has that category. */
  lemma KeptPostMatches(posts: seq<Post>, searchTerm: string, selected: Option<string>, p: Post)
    requires p in Filter(posts, searchTerm, selected)
    ensures p in posts
    ensures (exists i :: OccursAt(ToLowerCase(p.title), ToLowerCase(searchTerm), i)) ||
            (exists i :: OccursAt(ToLowerCase(p.content), ToLowerCase(searchTerm), i))
    ensures Truthy(selected) ==>
              Truthy(p.category) && ToLowerCase(p.category.value) == ToLowerCase(selected.value)
  {
    assert multiset(Filter(posts, searchTerm, selected))[p] > 0;
    IncludesIff(ToLowerCase(p.title), ToLowerCase(searchTerm));
    IncludesIff(ToLowerCase(p.content), ToLowerCase(searchTerm));
  }

  /** With an empty search term and no category selected, every post is shown. */
  lemma {:induction false} NoCriteriaKeepsEveryPost(posts: seq<Post>, selected: Option<string>)
    requires !Truthy(selected)
    ensures Filter(posts, "", selected) == posts
  {
    if posts != [] {
      NoCriteriaKeepsEveryPost(posts[1..], selected);
      IncludesEmpty(ToLowerCase(posts[0].title));
      assert ToLowerCase("") == "";
      assert posts == [posts[0]] + posts[1..];
    }
  }

  /** A falsy selection (undefined or "") filters exactly as no selection. */
  lemma {:induction false} NoSelectionIgnoresCategory(posts: seq<Post>, searchTerm: string, selected: Option<string>)
    requires !Truthy(selected)
    ensures Filter(posts, searchTerm, selected) == Filter(posts, searchTerm, None)
  {
    if posts != [] {
      NoSelectionIgnoresCategory(posts[1..], searchTerm, selected);
    }
  }

  /** Filtering the filtered list again with the same search and selection changes nothing. */
  lemma {:induction false} FilterIdempotent(posts: seq<Post>, searchTerm: string, selected: Option<string>)
    ensures Filter(Filter(posts, searchTerm, selected), searchTerm, selected) == Filter(posts, searchTerm, selected)
  {
    if posts != [] {
      var rest := Filter(posts[1..], searchTerm, selected);
      FilterIdempotent(posts[1..], searchTerm, selected);
      if Keep(posts[0], searchTerm, selected) {
        assert ([posts[0]] + rest)[0] == posts[0];
        assert ([posts[0]] + rest)[1..] == rest;
      }
    }
  }
}
