/**
 * The post filter of the search page (`filteredPosts`): a post is kept when
 * the search text occurs, ignoring case, in its title, excerpt or author, and
 * it carries at least one of the selected tags (any post does when no tag is
 * selected). The kept posts stay in dataset order.
 */
module PostFilter {
  import opened Text
  import opened Blog
  import opened Seqs

  /** `matchesSearch`: case-insensitive substring test on title, excerpt and author. */
  predicate MatchesSearch(p: Post, term: string) {
    var needle := Lower(term);
    Contains(Lower(p.title), needle) || Contains(Lower(p.excerpt), needle) || Contains(Lower(p.author), needle)
  }

  /** `matchesTags`: no tag selected, or some selected tag is among the post's tags. */
  predicate MatchesTags(p: Post, selected: seq<string>) {
    |selected| == 0 || exists t :: t in selected && t in p.tags
  }

  predicate Keep(p: Post, term: string, selected: seq<string>) {
    MatchesSearch(p, term) && MatchesTags(p, selected)
  }

  /** `posts.filter(...)`: the posts that pass both tests, in their original order. */
  function Filter(posts: seq<Post>, term: string, selected: seq<string>): (r: seq<Post>)
    ensures IsSubsequence(r, posts)
    ensures forall p :: p in r <==> p in posts && Keep(p, term, selected)
    ensures forall p :: multiset(r)[p] == if Keep(p, term, selected) then multiset(posts)[p] else 0
  {
    if posts == [] then []
    else
      var rest := Filter(posts[1..], term, selected);
      assert posts == [posts[0]] + posts[1..];
      if Keep(posts[0], term, selected) then
        SubsequenceRefl(posts[..1]);
        [posts[0]] + rest
      else
        SubsequenceCons(rest, posts[0], posts[1..]);
        rest
  }

  /** The empty search text is found in every post. */
  lemma EmptySearchMatches(p: Post)
    ensures MatchesSearch(p, "")
  {
    assert Lower("") == "";
    ContainsEmpty(Lower(p.title));
  }

  /** Case is ignored in the search text too: folding it first changes nothing. */
  lemma SearchIgnoresCase(p: Post, term: string)
    ensures MatchesSearch(p, Lower(term)) <==> MatchesSearch(p, term)
  {
    LowerIdempotent(term);
  }

  /** Empty search and no selected tag: the whole list comes back unchanged. */
  lemma {:induction false} FilterNoConstraints(posts: seq<Post>)
    ensures Filter(posts, "", []) == posts
  {
    if posts != [] {
      EmptySearchMatches(posts[0]);
      FilterNoConstraints(posts[1..]);
      assert posts == [posts[0]] + posts[1..];
    }
  }

  /** Filtering the result again with the same search and tags returns it unchanged. */
  lemma {:induction false} FilterIdempotent(posts: seq<Post>, term: string, selected: seq<string>)
    ensures Filter(Filter(posts, term, selected), term, selected) == Filter(posts, term, selected)
  {
    if posts != [] {
      FilterIdempotent(posts[1..], term, selected);
      var rest := Filter(posts[1..], term, selected);
      if Keep(posts[0], term, selected) {
        assert ([posts[0]] + rest)[1..] == rest;
      }
    }
  }

  /**
   * Only the membership of the selected tags matters, not their order or
   * repetition: two selections with the same members filter alike.
   */
  lemma {:induction false} FilterSameTagSet(posts: seq<Post>, term: string, s1: seq<string>, s2: seq<string>)
    requires forall t :: t in s1 <==> t in s2
    ensures Filter(posts, term, s1) == Filter(posts, term, s2)
  {
    if posts != [] {
      FilterSameTagSet(posts[1..], term, s1, s2);
      assert |s1| > 0 ==> s1[0] in s2;
      assert |s2| > 0 ==> s2[0] in s1;
      assert MatchesTags(posts[0], s1) <==> MatchesTags(posts[0], s2);
    }
  }
}
