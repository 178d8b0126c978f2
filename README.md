# Blog search page, modelled in Dafny

The modelled system is a single React component, `SearchPage` in `src/App.js`. It shows a fixed list of four blog posts (`BLOG_POSTS`). The user can type a search text and click tag buttons to narrow the list. The page starts with a loading spinner. Results are revealed two at a time as the last rendered card scrolls into view.

The model covers the component's logic, not its markup:

- `Blog`: the post record and the four hard-coded posts, with their exact ids, titles, excerpts, tags and authors.
- `Text`: `toLowerCase` and `includes`, the two string operations the search uses. `Lower` folds characters and `Contains` is the substring test. The module also relates `Contains` to a positional definition of a substring.
- `PostFilter`: `filteredPosts`. A post is kept when both tests hold:
  - the lowered search text occurs in its lowered title, excerpt or author;
  - no tag is selected, or one of the selected tags is among its tags.

  The kept posts stay in dataset order. The lemmas cover these properties:
  - soundness and completeness of the result;
  - the empty search matching every post;
  - idempotence;
  - indifference to the order of the selected tags.
- `Tags`: two operations.
  - `toggleTag`: a click appends an unselected tag, or removes every copy of a selected one.
  - `availableTags` (`[...new Set(flatMap tags)]`): `Dedup` adds the flattened tags one at a time, as a `Set` does. Its result is proved duplicate-free and complete. It is also proved to be in first-occurrence order, and to be the only list with those three properties.
- `SearchPage`: the component's state as a class. It has the four fields `searchTerm`, `selectedTags`, `isLoading` and `visiblePosts`, plus the dataset it renders. One method per event changes the state:
  - `SetSearch`: typing in the search box;
  - `ToggleTag`: clicking a tag button;
  - `LoadingDone`: the loading timer fires;
  - `Reveal`: the observed card becomes visible.

  The derived values `FilteredPosts` and `ShownPosts` are functions of the state.
- `Scenarios`: what the page shows for the actual dataset:
  - searching "react" gives only post 1;
  - a search that matches nothing gives the empty list;
  - the tag "javascript" gives posts 1 and 3;
  - the nine tag buttons, in order;
  - the first screen after loading, one scroll to the end, and a search after loading.
- `LoweredTexts`: the lowered text of each post and the substring facts the scenarios need. Each literal is handled in its own small lemma.
- `Seqs`: the sequence notions the contracts use: subsequence, no duplicates, first index.

A search or tag change does not reset `visiblePosts`, so the count can be larger than the number of results. `SearchAfterLoading` shows one result with `visiblePosts` still 2. The model keeps this behaviour as the code has it. A bound "`visiblePosts` never exceeds the result count" holds only right after a reveal, and `Reveal` states that.

A reveal needs an observed card. Only the card rendered at index `visiblePosts - 1` carries `lastPostRef` (`src/App.js:162`). The observer effect (`src/App.js:79-101`) runs again only when loading ends or the results change. Each run watches the card that holds `lastPostRef` at that moment, if there is one. Between runs `visiblePosts` only grows, by clamped steps, from a value no larger than the result count. So an observer is attached exactly when loading is over and `0 < visiblePosts <= results`. `HasSentinel` states this condition, and `Reveal` requires it. As a result a reveal never lowers the count. The card being watched is the one that was last when the effect last ran. After a reveal that is no longer the last rendered card (see "## Left out").

## Model

| member | source | states |
|---|---|---|
| Text.LowerChar | src/App.js:58-60 | `toLowerCase` on one character: `A`-`Z` move to `a`-`z`, anything else is kept, and no upper-case letter remains |
| Text.Lower | src/App.js:58-60 | `toLowerCase` keeps the length and folds each character (ASCII `A`-`Z` to `a`-`z`, everything else kept) |
| Text.LowerIdempotent | src/App.js:58-60 | lowering an already lowered string changes nothing |
| Text.LowerConcat | src/App.js:58-60 | lowering distributes over concatenation |
| Text.ContainsIff | src/App.js:58-60 | `includes` holds exactly when the needle occurs at some position of the haystack |
| Text.ContainsEmpty | src/App.js:58-60 | the empty needle is found in every string |
| Text.MissingCharNotContained | src/App.js:58-60 | a needle holding a character the haystack lacks is not found |
| Text.ContainsConcat | src/App.js:58-60 | across a seam ending in a character the needle lacks, the needle is in the join iff it is in one of the parts |
| PostFilter.Filter | src/App.js:55-68 | the result is a subsequence of the posts (order kept); a post is in it iff it is in the input and passes the search and tag tests; each kept post keeps its multiplicity, every other one has none |
| PostFilter.EmptySearchMatches | src/App.js:57-60 | the empty search text matches every post |
| PostFilter.SearchIgnoresCase | src/App.js:57-60 | a search text and its lowered form match the same posts |
| PostFilter.FilterNoConstraints | src/App.js:55-68 | empty search and no tag: the whole list, unchanged |
| PostFilter.FilterIdempotent | src/App.js:55-68 | filtering the result again with the same inputs returns it unchanged |
| PostFilter.FilterSameTagSet | src/App.js:62-64 | two tag selections with the same members filter alike (order and repeats do not matter) |
| Tags.RemoveAll | src/App.js:106 | `prev.filter((t) => t !== tag)`: the tag is gone, every other value keeps its membership and its count, order kept |
| Tags.Toggle | src/App.js:104-108 | the tag is in the new selection iff it was not in the old; other tags keep their membership; an absent tag is appended at the end; a present one is removed everywhere, the rest kept in order |
| Tags.RemoveAllAbsent | src/App.js:106 | removing a tag that is not there gives back the same list |
| Tags.RemoveAllNoDup | src/App.js:106 | removal keeps a duplicate-free list duplicate-free |
| Tags.RemoveAllSnoc | src/App.js:106 | removing the tag from a list that ends in it equals removing it from the rest |
| Tags.ToggleTwiceSameMembers | src/App.js:105-107 | two clicks on the same tag restore the set of selected tags |
| Tags.ToggleTwiceRestores | src/App.js:105-107 | from a selection without the tag, two clicks restore the exact list |
| Tags.ToggleTwiceMovesTagToEnd | src/App.js:105-107 | from any selection holding the tag, two clicks give the selection without the tag, followed by the tag once at the end (members kept, order not) |
| Tags.ToggleTwiceReorders | src/App.js:105-107 | example: `["react", "css"]` clicked twice on "react" becomes `["css", "react"]` |
| Tags.ToggleNoDup | src/App.js:105-107 | a click never introduces a duplicate into a duplicate-free selection |
| Tags.AllTags | src/App.js:50 | `flatMap`: a tag is in the flattened list iff some post carries it |
| Tags.Dedup | src/App.js:50 | `[...new Set(s)]`: duplicate-free, with exactly the members of `s` |
| Tags.DedupAppendKnown | src/App.js:50 | adding values already present leaves the Set as it is |
| Tags.DedupAppendFresh | src/App.js:50 | adding distinct new values appends them in order |
| Tags.DedupGroups | src/App.js:50 | new values, then repeats, then new values again: the repeats are dropped, the rest kept in order |
| Tags.DedupFirstOccurrenceOrder | src/App.js:50 | the Set lists values in the order of their first occurrence |
| Tags.DedupUnique | src/App.js:50 | any duplicate-free list with the same members in first-occurrence order is the Set's list |
| Tags.OrderedUnique | src/App.js:50 | two duplicate-free lists with the same members, both in first-occurrence order, are equal |
| Tags.AvailableTags | src/App.js:49-52 | each dataset tag exactly once, and nothing else |
| SearchPage.NextVisible | src/App.js:85 | `Math.min(prev + 2, length)`: at most the result count, at most two more than before, and equal to one of the two |
| SearchPage.RevealRepeatedlyClamps | src/App.js:85 | after `k >= 1` reveals with unchanged results the count is `min(prev + 2k, count)` |
| SearchPage.Window | src/App.js:159 | `slice(0, n)` is a prefix of the results, of length `min(n, length)` |
| SearchPage.Page.FilteredPosts | src/App.js:55-68 | a post is a result iff it is in the dataset and passes the current search and tags |
| SearchPage.Page.ShownPosts | src/App.js:159-162 | the rendered cards are the prefix of the results of length `min(visiblePosts, results)` |
| SearchPage.Page.constructor | src/App.js:41-44 | empty search, no tag, loading, two posts allowed |
| SearchPage.Page.SetSearch | src/App.js:129 | only the search text changes; `visiblePosts` is not reset; the selection invariant is kept |
| SearchPage.Page.ToggleTag | src/App.js:104-108 | the selection becomes `Toggle(old, tag)`; nothing else changes; the selection stays duplicate-free and drawn from the offered tags |
| SearchPage.Page.LoadingDone | src/App.js:71-76 | loading is over; nothing else changes |
| SearchPage.Page.Reveal | src/App.js:79-101 | `visiblePosts` becomes `min(prev + 2, results)`: it does not decrease, grows by at most two and stays within the results; the shown cards are then exactly the first `visiblePosts` results; loading stays over, search and tags unchanged |
| SearchPage.ToggleTwiceSameResults | src/App.js:104-108 | two clicks on the same tag leave the results unchanged |
| Scenarios.SearchReact | src/App.js:55-68 | searching "react" gives exactly post id 1 |
| Scenarios.SearchWithoutMatch | src/App.js:55-68 | a search found in no post gives the empty list ("No results found") |
| Scenarios.TagJavascript | src/App.js:62-64 | the tag "javascript" alone gives posts 1 and 3, in that order |
| Scenarios.DatasetTags | src/App.js:5-38 | the dataset's tags, flattened, are the four posts' tag lists in order |
| Scenarios.TagGroups | src/App.js:50 | the Set over the four tag lists drops the third post's repeats |
| Scenarios.AvailableTagsInOrder | src/App.js:49-52 | the tag buttons are react, javascript, programming, css, design, tailwind, performance, web, optimization |
| Scenarios.FirstScreen | src/App.js:44 | after loading, with no search and no tag, the first two posts are shown |
| Scenarios.ScrollToEnd | src/App.js:85 | the first reveal after loading takes `visiblePosts` from 2 to 4 and a card still sits at index 3; a second reveal leaves the count at 4 with all four posts shown |
| Scenarios.SearchAfterLoading | src/App.js:159-162 | after searching "react" one card is shown, `visiblePosts` stays 2 and no card carries the sentinel |

`isLoading` starts true (`Page.constructor`). `LoadingDone` and `Reveal` leave it false, and `SetSearch` and `ToggleTag` keep it as it was. So once it is false it stays false.

## Left out

- Rendering: JSX, Tailwind class strings, icons and the spinner markup. These are presentation only. The "No results found" panel shows exactly when the result list is empty, which `Scenarios.SearchWithoutMatch` covers.
- The `IntersectionObserver`: its construction, threshold, `observe`, `disconnect` and `observerRef`. This is a browser API. Its only effect on state is the `Reveal` event, and `Page.HasSentinel` stands for "an observer is attached".
- The 1500 ms `setTimeout` and its cleanup. Timing is left out and modelled as the single `LoadingDone` event.
- `useMemo` caching. The derived values are recomputed functions of the state (`FilteredPosts`, `AvailableTags`), which gives the same values without the caching. The `useEffect` dependency array `[isLoading, filteredPosts]` is not modelled as such. Only its effect on when a reveal can happen is captured, through `Page.HasSentinel`.
- Which card the observer watches. After a reveal the observer keeps watching the card that was last at the previous effect run, not the new last card, because the effect does not depend on `visiblePosts`. With the four posts of the dataset, one reveal reaches the end, so this makes no difference. With more posts, later reveals would fire only when that older card crosses the visibility threshold again. The model lets `Reveal` happen whenever an observer is attached, and leaves out the scroll position that decides when it fires.
- Text.LowerChar: folds only ASCII `A`-`Z`. Full Unicode `toLowerCase` (including context-dependent and length-changing mappings) is left out. All dataset texts are ASCII.
- Page.Reveal: requires the sentinel card to exist. Events that the browser could deliver for a stale reference after a search are left out.
- Blog.BlogPosts: each excerpt is written as a concatenation of word-aligned pieces. The resulting values equal the original strings character for character.
- The scenario lemmas are about the fixed four-post dataset only. The general properties are proved for any posts and selections.
