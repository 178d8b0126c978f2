/**
 * Tag handling of the search page: the tag buttons offered (`availableTags`,
 * every tag of the dataset once, in order of first appearance) and the
 * selection update a click performs (`toggleTag`).
 */
module Tags {
  import opened Seqs
  import opened Blog

  /** `prev.filter((t) => t !== tag)`: every occurrence of `tag` removed, the rest kept in order. */
  function RemoveAll(s: seq<string>, tag: string): (r: seq<string>)
    ensures tag !in r
    ensures forall x :: x != tag ==> (x in r <==> x in s)
    ensures multiset(r) == multiset(s)[tag := 0]
    ensures IsSubsequence(r, s)
  {
    if s == [] then []
    else
      var rest := RemoveAll(s[1..], tag);
      assert s == [s[0]] + s[1..];
      if s[0] == tag then
        SubsequenceCons(rest, s[0], s[1..]);
        rest
      else
        [s[0]] + rest
  }

  /**
   * The selection after a click on `tag`: a tag not yet selected is appended
   * at the end; a selected one is removed, every occurrence of it, with the
   * other tags kept in their order.
   */
  function Toggle(selected: seq<string>, tag: string): (r: seq<string>)
    ensures tag in r <==> tag !in selected
    ensures forall x :: x != tag ==> (x in r <==> x in selected)
    ensures tag !in selected ==> r == selected + [tag]
    ensures tag in selected ==> IsSubsequence(r, selected) && multiset(r) == multiset(selected)[tag := 0]
  {
    if tag in selected then RemoveAll(selected, tag) else selected + [tag]
  }

  /** Removing a tag that is not there gives back the same list. */
  lemma {:induction false} RemoveAllAbsent(s: seq<string>, tag: string)
    requires tag !in s
    ensures RemoveAll(s, tag) == s
  {
    if s != [] {
      RemoveAllAbsent(s[1..], tag);
    }
  }

  /** Removal keeps a duplicate-free list duplicate-free. */
  lemma {:induction false} RemoveAllNoDup(s: seq<string>, tag: string)
    requires NoDup(s)
    ensures NoDup(RemoveAll(s, tag))
  {
    if s != [] {
      assert NoDup(s[1..]);
      RemoveAllNoDup(s[1..], tag);
      assert s[0] !in s[1..];
    }
  }

  /** Two clicks on the same tag give back the same set of selected tags. */
  lemma ToggleTwiceSameMembers(selected: seq<string>, tag: string)
    ensures forall x :: x in Toggle(Toggle(selected, tag), tag) <==> x in selected
  {
  }

  /** Starting from a selection without the tag, two clicks give back the very same list. */
  lemma ToggleTwiceRestores(selected: seq<string>, tag: string)
    requires tag !in selected
    ensures Toggle(Toggle(selected, tag), tag) == selected
  {
    RemoveAllAbsent(selected, tag);
    assert RemoveAll(selected + [tag], tag) == RemoveAll(selected, tag) by {
      RemoveAllSnoc(selected, tag);
    }
  }

  /** Removing `tag` from a list that ends in it is removing it from the rest. */
  lemma {:induction false} RemoveAllSnoc(s: seq<string>, tag: string)
    ensures RemoveAll(s + [tag], tag) == RemoveAll(s, tag)
  {
    if s == [] {
      assert [] + [tag] == [tag];
    } else {
      RemoveAllSnoc(s[1..], tag);
      assert (s + [tag])[1..] == s[1..] + [tag];
    }
  }

  /**
   * When the tag was already selected, two clicks restore the members but not
   * the order: the first click removes every copy of the tag, the second puts
   * it back once, at the end.
   */
  lemma ToggleTwiceMovesTagToEnd(selected: seq<string>, tag: string)
    requires tag in selected
    ensures Toggle(Toggle(selected, tag), tag) == RemoveAll(selected, tag) + [tag]
  {
  }

  /** For instance, "react" selected before "css" comes back after it. */
  lemma ToggleTwiceReorders()
    ensures Toggle(Toggle(["react", "css"], "react"), "react") == ["css", "react"]
  {
    assert Toggle(["react", "css"], "react") == ["css"] by {
      assert RemoveAll(["css"], "react") == ["css"];
    }
  }

  /** A click never introduces a duplicate into a duplicate-free selection. */
  lemma ToggleNoDup(selected: seq<string>, tag: string)
    requires NoDup(selected)
    ensures NoDup(Toggle(selected, tag))
  {
    if tag in selected {
      RemoveAllNoDup(selected, tag);
    }
  }

  /** `posts.flatMap((post) => post.tags)`: all tags of all posts, post by post. */
  function AllTags(posts: seq<Post>): (r: seq<string>)
    ensures forall t :: t in r <==> exists p :: p in posts && t in p.tags
  {
    if posts == [] then []
    else
      assert forall p :: p in posts ==> p == posts[0] || p in posts[1..];
      posts[0].tags + AllTags(posts[1..])
  }

  /**
   * `[...new Set(s)]`: a Set keeps the first insertion of each value, so the
   * result is `s` with every repeated element dropped. Defined by adding the
   * elements of `s` one at a time, as the Set constructor does.
   */
  function Dedup(s: seq<string>): (r: seq<string>)
    ensures NoDup(r)
    ensures forall x :: x in r <==> x in s
  {
    if s == [] then []
    else
      var d := Dedup(s[..|s| - 1]);
      var x := s[|s| - 1];
      assert s == s[..|s| - 1] + [x];
      if x in d then d else d + [x]
  }

  /** Adding one more value to the Set: kept at the end when new, dropped when already there. */
  lemma DedupSnoc(s: seq<string>, x: string)
    ensures Dedup(s + [x]) == if x in Dedup(s) then Dedup(s) else Dedup(s) + [x]
  {
    assert (s + [x])[..|s|] == s;
  }

  /** Values already in the Set change nothing when added again. */
  lemma {:induction false} DedupAppendKnown(s: seq<string>, t: seq<string>)
    requires forall x :: x in t ==> x in s
    ensures Dedup(s + t) == Dedup(s)
    decreases |t|
  {
    if t != [] {
      var init, y := t[..|t| - 1], t[|t| - 1];
      assert s + t == (s + init) + [y];
      assert forall x :: x in init ==> x in t;
      DedupAppendKnown(s, init);
      DedupSnoc(s + init, y);
    } else {
      assert s + t == s;
    }
  }

  /** Distinct new values are added to the Set in order, each at the end. */
  lemma {:induction false} DedupAppendFresh(s: seq<string>, t: seq<string>)
    requires NoDup(t) && forall x :: x in t ==> x !in s
    ensures Dedup(s + t) == Dedup(s) + t
    decreases |t|
  {
    if t != [] {
      var init, y := t[..|t| - 1], t[|t| - 1];
      assert s + t == (s + init) + [y];
      assert t == init + [y];
      NoDupSnoc(init, y);
      assert forall x :: x in init ==> x in t;
      DedupAppendFresh(s, init);
      DedupSnoc(s + init, y);
    } else {
      assert s + t == s;
    }
  }

  /** New values, then repeats of earlier ones, then new values again. */
  lemma DedupGroups(a: seq<string>, b: seq<string>, c: seq<string>, d: seq<string>)
    requires NoDup(a)
    requires NoDup(b) && forall x :: x in b ==> x !in a
    requires forall x :: x in c ==> x in a
    requires NoDup(d) && forall x :: x in d ==> x !in a + b
    ensures Dedup(a + b + c + d) == a + b + d
  {
    DedupAppendFresh([], a);
    assert [] + a == a;
    DedupAppendFresh(a, b);
    assert forall x :: x in c ==> x in a + b;
    DedupAppendKnown(a + b, c);
    assert forall x :: x in d ==> x !in a + b + c;
    DedupAppendFresh(a + b + c, d);
  }

  /** Dedup lists the elements in the order of their first occurrence in `s`. */
  lemma {:induction false} DedupFirstOccurrenceOrder(s: seq<string>)
    ensures forall i, j :: 0 <= i < j < |Dedup(s)| ==> IndexOf(s, Dedup(s)[i]) < IndexOf(s, Dedup(s)[j])
  {
    if s != [] {
      var init, x := s[..|s| - 1], s[|s| - 1];
      assert s == init + [x];
      DedupFirstOccurrenceOrder(init);
      var d := Dedup(init);
      forall y | y in init ensures IndexOf(s, y) == IndexOf(init, y) {
        IndexOfAppend(init, x, y);
      }
      if x !in init {
        IndexOfAppendNew(init, x);
      }
    }
  }

  /**
   * The three properties above determine the result: any duplicate-free list
   * with the same members, in order of first occurrence, is Dedup(s).
   */
  lemma DedupUnique(s: seq<string>, r: seq<string>)
    requires NoDup(r)
    requires forall x :: x in r <==> x in s
    requires forall i, j :: 0 <= i < j < |r| ==> IndexOf(s, r[i]) < IndexOf(s, r[j])
    ensures r == Dedup(s)
  {
    DedupFirstOccurrenceOrder(s);
    OrderedUnique(s, r, Dedup(s));
  }

  /** Two duplicate-free lists of the same members, both ordered by first occurrence in `s`, are equal. */
  lemma {:induction false} OrderedUnique<T>(s: seq<T>, a: seq<T>, b: seq<T>)
    requires forall x :: x in a ==> x in s
    requires NoDup(a) && NoDup(b)
    requires forall x :: x in a <==> x in b
    requires forall i, j :: 0 <= i < j < |a| ==> IndexOf(s, a[i]) < IndexOf(s, a[j])
    requires forall i, j :: 0 <= i < j < |b| ==> IndexOf(s, b[i]) < IndexOf(s, b[j])
    ensures a == b
    decreases |a|
  {
    if a == [] {
      if b != [] {
        HeadIsMember(b);
        assert false;
      }
    } else {
      assert a[0] in b;
      assert b != [] && b[0] in a;
      var k :| 0 <= k < |b| && b[k] == a[0];
      var m :| 0 <= m < |a| && a[m] == b[0];
      assert a[0] == b[0];
      forall x ensures x in a[1..] <==> x in b[1..] {
        assert x in a <==> x == a[0] || x in a[1..];
        assert x in b <==> x == b[0] || x in b[1..];
        assert a[0] !in a[1..] && b[0] !in b[1..];
      }
      OrderedUnique(s, a[1..], b[1..]);
    }
  }

  /** One step of the flattening: the first post's tags, then those of the rest. */
  lemma AllTagsCons(posts: seq<Post>)
    requires posts != []
    ensures AllTags(posts) == posts[0].tags + AllTags(posts[1..])
  {
  }

  /** `availableTags`: every tag of the dataset once, in order of first appearance. */
  function AvailableTags(): (r: seq<string>)
    ensures NoDup(r)
    ensures forall t :: t in r <==> exists p :: p in BlogPosts && t in p.tags
  {
    Dedup(AllTags(BlogPosts))
  }
}
