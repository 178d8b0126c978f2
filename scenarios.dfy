/**
 * What the page shows for the fixed dataset: a search for "react", the tag
 * "javascript", a search that matches nothing, the tag buttons offered, and
 * the screens after loading.
 */
module Scenarios {
  import opened Text
  import opened Seqs
  import opened Blog
  import opened PostFilter
  import opened Tags
  import opened SearchPage
  import opened LoweredTexts

  /** Post 1 lowered: the texts the search is compared against. */
  lemma LoweredPost1()
    ensures Lower(BlogPosts[0].title) == "introduction to react hooks"
    ensures Lower(BlogPosts[0].author) == "jane doe"
    ensures Lower(BlogPosts[0].excerpt) == "discover the power of " + "react hooks and how they " + "revolutionize state " + "management..."
  {
    LowerTitle1();
    LowerAuthor1();
    LoweredExcerpt1("Discover the power of ", "React Hooks and how they ", "revolutionize state ", "management...");
  }

  lemma NoMatchInPost1()
    ensures !MatchesSearch(BlogPosts[0], "zzz-no-match")
  {
    LowerNoMatch();
    LoweredPost1();
    NoMatchInTexts1("introduction to react hooks", "jane doe", "discover the power of ", "react hooks and how they ", "revolutionize state ", "management...");
  }

  /** Post 2 lowered: the texts the search is compared against. */
  lemma LoweredPost2()
    ensures Lower(BlogPosts[1].title) == "tailwind css best practices"
    ensures Lower(BlogPosts[1].author) == "john smith"
    ensures Lower(BlogPosts[1].excerpt) == "learn how to create " + "efficient and responsive " + "designs with tailwind " + "css..."
  {
    LowerTitle2();
    LowerAuthor2();
    LoweredExcerpt2("Learn how to create ", "efficient and responsive ", "designs with Tailwind ", "CSS...");
  }

  lemma ReactNotInPost2()
    ensures !MatchesSearch(BlogPosts[1], "react")
  {
    LowerReact();
    LoweredPost2();
    NoReactInTexts2("tailwind css best practices", "john smith", "learn how to create ", "efficient and responsive ", "designs with tailwind ", "css...");
  }

  lemma NoMatchInPost2()
    ensures !MatchesSearch(BlogPosts[1], "zzz-no-match")
  {
    LowerNoMatch();
    LoweredPost2();
    NoMatchInTexts2("tailwind css best practices", "john smith", "learn how to create ", "efficient and responsive ", "designs with tailwind ", "css...");
  }

  /** Post 3 lowered: the texts the search is compared against. */
  lemma LoweredPost3()
    ensures Lower(BlogPosts[2].title) == "advanced javascript techniques"
    ensures Lower(BlogPosts[2].author) == "alice johnson"
    ensures Lower(BlogPosts[2].excerpt) == "explore advanced " + "javascript methods and " + "functional programming " + "concepts..."
  {
    LowerTitle3();
    LowerAuthor3();
    LoweredExcerpt3("Explore advanced ", "JavaScript methods and ", "functional programming ", "concepts...");
  }

  lemma ReactNotInPost3()
    ensures !MatchesSearch(BlogPosts[2], "react")
  {
    LowerReact();
    LoweredPost3();
    NoReactInTexts3("advanced javascript techniques", "alice johnson", "explore advanced ", "javascript methods and ", "functional programming ", "concepts...");
  }

  lemma NoMatchInPost3()
    ensures !MatchesSearch(BlogPosts[2], "zzz-no-match")
  {
    LowerNoMatch();
    LoweredPost3();
    NoMatchInTexts3("advanced javascript techniques", "alice johnson", "explore advanced ", "javascript methods and ", "functional programming ", "concepts...");
  }

  /** Post 4 lowered: the texts the search is compared against. */
  lemma LoweredPost4()
    ensures Lower(BlogPosts[3].title) == "web performance optimization"
    ensures Lower(BlogPosts[3].author) == "bob williams"
    ensures Lower(BlogPosts[3].excerpt) == "strategies to improve " + "your web application's " + "speed and efficiency..."
  {
    LowerTitle4();
    LowerAuthor4();
    LoweredExcerpt4("Strategies to improve ", "your web application's ", "speed and efficiency...");
  }

  lemma ReactNotInPost4()
    ensures !MatchesSearch(BlogPosts[3], "react")
  {
    LowerReact();
    LoweredPost4();
    NoReactInTexts4("web performance optimization", "bob williams", "strategies to improve ", "your web application's ", "speed and efficiency...");
  }

  lemma NoMatchInPost4()
    ensures !MatchesSearch(BlogPosts[3], "zzz-no-match")
  {
    LowerNoMatch();
    LoweredPost4();
    NoMatchInTexts4("web performance optimization", "bob williams", "strategies to improve ", "your web application's ", "speed and efficiency...");
  }

  /** The title of post 1 contains "react", at index 16 once lowered. */
  lemma ReactInPost1()
    ensures MatchesSearch(BlogPosts[0], "react")
  {
    LowerReact();
    LoweredPost1();
    ReactInTitle1("introduction to react hooks");
  }

  /** One step of the filter: the first post, when kept, followed by what the rest gives. */
  function KeptOne(p: Post, term: string, selected: seq<string>): seq<Post> {
    if Keep(p, term, selected) then [p] else []
  }

  lemma FilterCons(posts: seq<Post>, term: string, selected: seq<string>)
    requires posts != []
    ensures Filter(posts, term, selected) == KeptOne(posts[0], term, selected) + Filter(posts[1..], term, selected)
  {
  }

  /** The filter over a list of four posts, written out one post at a time. */
  lemma FilterOfFour(posts: seq<Post>, term: string, selected: seq<string>)
    requires |posts| == 4
    ensures Filter(posts, term, selected)
      == KeptOne(posts[0], term, selected) + (KeptOne(posts[1], term, selected)
       + (KeptOne(posts[2], term, selected) + KeptOne(posts[3], term, selected)))
  {
    var rest1, rest2, rest3 := posts[1..], posts[2..], posts[3..];
    assert rest1[1..] == rest2 && rest2[1..] == rest3 && rest3[1..] == [];
    assert Filter(rest3, term, selected) == KeptOne(posts[3], term, selected);
    FilterCons(rest2, term, selected);
    FilterCons(rest1, term, selected);
    FilterCons(posts, term, selected);
  }

  /** Searching "react" finds the post "Introduction to React Hooks" (id 1) and nothing else. */
  lemma SearchReact()
    ensures Filter(BlogPosts, "react", []) == [BlogPosts[0]]
    ensures BlogPosts[0].id == 1
  {
    ReactInPost1();
    ReactNotInPost2();
    ReactNotInPost3();
    ReactNotInPost4();
    FilterOfFour(BlogPosts, "react", []);
  }

  /** A search found in no post leaves the result list empty (the "No results found" panel). */
  lemma SearchWithoutMatch()
    ensures Filter(BlogPosts, "zzz-no-match", []) == []
  {
    NoMatchInPost1();
    NoMatchInPost2();
    NoMatchInPost3();
    NoMatchInPost4();
    FilterOfFour(BlogPosts, "zzz-no-match", []);
  }

  /** Selecting the tag "javascript" alone keeps posts 1 and 3. */
  lemma TagJavascript()
    ensures Filter(BlogPosts, "", ["javascript"]) == [BlogPosts[0], BlogPosts[2]]
    ensures BlogPosts[0].id == 1 && BlogPosts[2].id == 3
  {
    KeptForJavascript();
    FilterOfFour(BlogPosts, "", ["javascript"]);
  }

  lemma KeptForJavascript()
    ensures Keep(BlogPosts[0], "", ["javascript"]) && Keep(BlogPosts[2], "", ["javascript"])
    ensures !Keep(BlogPosts[1], "", ["javascript"]) && !Keep(BlogPosts[3], "", ["javascript"])
  {
    EmptySearchMatches(BlogPosts[0]);
    EmptySearchMatches(BlogPosts[2]);
    JavascriptTagged();
  }

  lemma JavascriptTagged()
    ensures MatchesTags(BlogPosts[0], ["javascript"]) && MatchesTags(BlogPosts[2], ["javascript"])
    ensures !MatchesTags(BlogPosts[1], ["javascript"]) && !MatchesTags(BlogPosts[3], ["javascript"])
  {
    assert "javascript" in ["javascript"];
    assert "javascript" in BlogPosts[0].tags && "javascript" in BlogPosts[2].tags;
  }

  /** Every tag of the dataset, post after post, repeats included. */
  lemma DatasetTags()
    ensures AllTags(BlogPosts) == BlogPosts[0].tags + BlogPosts[1].tags + BlogPosts[2].tags + BlogPosts[3].tags
  {
    var rest1, rest2, rest3 := BlogPosts[1..], BlogPosts[2..], BlogPosts[3..];
    assert rest1[1..] == rest2 && rest2[1..] == rest3 && rest3[1..] == [];
    assert AllTags(rest3) == BlogPosts[3].tags;
    AllTagsCons(rest2);
    AllTagsCons(rest1);
    AllTagsCons(BlogPosts);
  }

  lemma FirstTagsDistinct(a: seq<string>)
    requires a == ["react", "javascript", "programming"]
    ensures NoDup(a)
  {
  }

  lemma SecondTagsNew(a: seq<string>, b: seq<string>)
    requires a == ["react", "javascript", "programming"] && b == ["css", "design", "tailwind"]
    ensures NoDup(b) && forall x :: x in b ==> x !in a
  {
  }

  lemma ThirdTagsSeen(a: seq<string>, c: seq<string>)
    requires a == ["react", "javascript", "programming"] && c == ["javascript", "programming"]
    ensures forall x :: x in c ==> x in a
  {
  }

  lemma FourthTagsNew(ab: seq<string>, d: seq<string>)
    requires ab == ["react", "javascript", "programming", "css", "design", "tailwind"]
    requires d == ["performance", "web", "optimization"]
    ensures NoDup(d) && forall x :: x in d ==> x !in ab
  {
  }

  /**
   * The Set over the four tag lists: the first two posts bring new tags, the
   * third only repeats ones already seen, the fourth brings new ones again.
   */
  lemma TagGroups(a: seq<string>, b: seq<string>, c: seq<string>, d: seq<string>)
    requires a == ["react", "javascript", "programming"] && b == ["css", "design", "tailwind"]
    requires c == ["javascript", "programming"] && d == ["performance", "web", "optimization"]
    ensures Dedup(a + b + c + d) == a + b + d
  {
    FirstTagsDistinct(a);
    SecondTagsNew(a, b);
    ThirdTagsSeen(a, c);
    FourthTagsNew(a + b, d);
    DedupGroups(a, b, c, d);
  }

  /** The tag buttons: nine tags, each once, in the order they first appear in the dataset. */
  lemma AvailableTagsInOrder()
    ensures AvailableTags()
      == ["react", "javascript", "programming", "css", "design", "tailwind", "performance", "web", "optimization"]
  {
    DatasetTags();
    TagGroups(BlogPosts[0].tags, BlogPosts[1].tags, BlogPosts[2].tags, BlogPosts[3].tags);
  }

  /** After the loading delay, with no search and no tag, the first two posts are on screen. */
  method FirstScreen() returns (shown: seq<Post>)
    ensures shown == BlogPosts[..2]
  {
    var page := new Page();
    page.LoadingDone();
    FilterNoConstraints(BlogPosts);
    shown := page.ShownPosts();
  }

  /**
   * One reveal on the first screen brings all four posts. The observer stays
   * attached, so another reveal can still fire, and it changes nothing.
   */
  method ScrollToEnd() returns (afterFirst: nat, sentinel: bool, shown: seq<Post>, visible: nat)
    ensures afterFirst == 4 && sentinel
    ensures shown == BlogPosts && visible == 4
  {
    var page := new Page();
    page.LoadingDone();
    FilterNoConstraints(BlogPosts);
    page.Reveal();
    afterFirst := page.visiblePosts;
    sentinel := page.HasSentinel();
    page.Reveal();
    shown := page.ShownPosts();
    visible := page.visiblePosts;
  }

  /**
   * Searching "react" after loading: one result is shown, the reveal count
   * stays at two, and no card carries the sentinel, so no reveal can follow.
   */
  method SearchAfterLoading() returns (shown: seq<Post>, visible: nat, sentinel: bool)
    ensures shown == [BlogPosts[0]] && visible == 2 && !sentinel
  {
    var page := new Page();
    page.LoadingDone();
    page.SetSearch("react");
    SearchReact();
    shown := page.ShownPosts();
    visible := page.visiblePosts;
    sentinel := page.HasSentinel();
  }
}
