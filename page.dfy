/**
 * The search page's own state and the events that change it: typing in the
 * search box, clicking a tag, the end of the simulated loading delay, and the
 * scroll sentinel coming into view (which reveals two more results).
 */
module SearchPage {
  import opened Blog
  import opened Seqs
  import opened PostFilter
  import opened Tags

  /** Results rendered before the first reveal (`useState(2)`). */
  const InitialVisible: nat := 2

  /** Results added by each reveal (`prev + 2`). */
  const RevealStep: nat := 2

  function Min(a: int, b: int): int {
    if a <= b then a else b
  }

  /**
   * `Math.min(prev + 2, filteredPosts.length)`: the count after one reveal,
   * never past the end of the results and never more than one step ahead.
   */
  function NextVisible(prev: nat, count: nat): (r: nat)
    ensures r <= count && r <= prev + RevealStep
    ensures r == count || r == prev + RevealStep
  {
    Min(prev + RevealStep, count)
  }

  /** The count after `k` reveals in a row, with the results unchanged in between. */
  function RevealRepeatedly(prev: nat, count: nat, k: nat): nat {
    if k == 0 then prev else NextVisible(RevealRepeatedly(prev, count, k - 1), count)
  }

  /**
   * After at least one reveal the count is the initial one plus two per
   * reveal, clamped to the number of results; in particular enough reveals
   * show every result.
   */
  lemma {:induction false} RevealRepeatedlyClamps(prev: nat, count: nat, k: nat)
    requires k >= 1
    ensures RevealRepeatedly(prev, count, k) == Min(prev + RevealStep * k, count)
  {
    if k > 1 {
      RevealRepeatedlyClamps(prev, count, k - 1);
    }
  }

  /** `filteredPosts.slice(0, visiblePosts)`: the first `n` results, or all of them when there are fewer. */
  function Window(posts: seq<Post>, n: nat): (r: seq<Post>)
    ensures r <= posts
    ensures |r| == Min(n, |posts|)
  {
    if n <= |posts| then posts[..n] else posts
  }

  class Page {
    /** The dataset the page renders (`BLOG_POSTS`). */
    const posts: seq<Post>
    var searchTerm: string
    var selectedTags: seq<string>
    var isLoading: bool
    var visiblePosts: nat

    /**
     * Selected tags only ever come from clicking an offered tag, and a click
     * toggles membership, so the selection is a duplicate-free list of
     * dataset tags.
     */
    ghost predicate Valid()
      reads this`selectedTags
    {
      NoDup(selectedTags) && forall t :: t in selectedTags ==> t in AvailableTags()
    }

    /** `filteredPosts` for the current search text and tag selection. */
    function FilteredPosts(): (r: seq<Post>)
      reads this`searchTerm, this`selectedTags
      ensures forall p :: p in r <==> p in posts && Keep(p, searchTerm, selectedTags)
    {
      Filter(posts, searchTerm, selectedTags)
    }

    /** The result cards rendered once loading is over. */
    function ShownPosts(): (r: seq<Post>)
      reads this
      ensures r <= FilteredPosts()
      ensures |r| == Min(visiblePosts, |FilteredPosts()|)
    {
      Window(FilteredPosts(), visiblePosts)
    }

    constructor ()
      ensures posts == BlogPosts
      ensures searchTerm == "" && selectedTags == []
      ensures isLoading && visiblePosts == InitialVisible
      ensures Valid()
    {
      posts := BlogPosts;
      searchTerm := "";
      selectedTags := [];
      isLoading := true;
      visiblePosts := InitialVisible;
    }

    /** Typing in the search box. The reveal count is deliberately left as it is. */
    method SetSearch(term: string)
      modifies this
      ensures searchTerm == term
      ensures selectedTags == old(selectedTags) && isLoading == old(isLoading)
      ensures visiblePosts == old(visiblePosts)
      ensures old(Valid()) ==> Valid()
    {
      searchTerm := term;
    }

    /** Clicking one of the offered tag buttons. The reveal count is left as it is. */
    method ToggleTag(tag: string)
      requires Valid() && tag in AvailableTags()
      modifies this
      ensures selectedTags == Toggle(old(selectedTags), tag)
      ensures searchTerm == old(searchTerm) && isLoading == old(isLoading)
      ensures visiblePosts == old(visiblePosts)
      ensures Valid()
    {
      ToggleNoDup(selectedTags, tag);
      selectedTags := Toggle(selectedTags, tag);
    }

    /** The loading timer fires: the page leaves the loading state for good. */
    method LoadingDone()
      modifies this
      ensures !isLoading
      ensures searchTerm == old(searchTerm) && selectedTags == old(selectedTags)
      ensures visiblePosts == old(visiblePosts)
      ensures old(Valid()) ==> Valid()
    {
      isLoading := false;
    }

    /**
     * An observer is attached. The observer effect runs when loading ends and
     * whenever the results change, and watches the card then rendered at index
     * `visiblePosts - 1`, the one holding the sentinel reference. With more
     * posts allowed than there are results, no card has that index and nothing
     * is observed. Between effect runs only reveals change `visiblePosts`, and
     * they keep it within the results, so the condition stays as it was when
     * the effect ran.
     */
    predicate HasSentinel()
      reads this
    {
      !isLoading && 0 < visiblePosts <= |FilteredPosts()|
    }

    /**
     * The observed card came into view: up to two more results are allowed.
     * The event needs an attached observer, so it never shrinks the count.
     */
    method Reveal()
      requires HasSentinel()
      modifies this
      ensures visiblePosts == NextVisible(old(visiblePosts), |FilteredPosts()|)
      ensures searchTerm == old(searchTerm) && selectedTags == old(selectedTags)
      ensures !isLoading
      ensures old(visiblePosts) <= visiblePosts <= old(visiblePosts) + RevealStep
      ensures visiblePosts <= |FilteredPosts()| && ShownPosts() == FilteredPosts()[..visiblePosts]
      ensures old(Valid()) ==> Valid()
    {
      visiblePosts := NextVisible(visiblePosts, |FilteredPosts()|);
    }
  }

  /** Two clicks on the same tag leave the results as they were. */
  lemma ToggleTwiceSameResults(term: string, selected: seq<string>, tag: string)
    ensures Filter(BlogPosts, term, Toggle(Toggle(selected, tag), tag)) == Filter(BlogPosts, term, selected)
  {
    ToggleTwiceSameMembers(selected, tag);
    FilterSameTagSet(BlogPosts, term, Toggle(Toggle(selected, tag), tag), selected);
  }
}
