/**
 * The texts of the dataset once lowered, and which searches they answer.
 * Every title, author and excerpt piece is lowered on its own (`toLowerCase`),
 * and facts about one lowered text are stated of a parameter equal to it:
 * each proof then looks at a single literal, which keeps it small.
 *
 * The lemmas come in families, one member per literal (`LowerTitle1`,
 * `NoHyphenExcerpt2a`, `NoReactAuthor3`, ...). Members of a family share their
 * contract and differ only in the literal. They are not folded into one lemma
 * per post: the solver's cost of a fact about a string literal grows quickly
 * with the number of literals in view, and a lemma holding all the texts of
 * one post does not fit the resource limit where each single-literal lemma
 * does. Each family is proved once per literal and combined by the
 * per-post `LoweredExcerpt` lemmas and the generic `JoinedNotContains` and
 * `LacksHyphen`.
 */
module LoweredTexts {
  import opened Text

  /** `toLowerCase` of every title, author and excerpt piece of the dataset. */
  lemma LowerTitle1() ensures Lower("Introduction to React Hooks") == "introduction to react hooks" { }
  lemma LowerAuthor1() ensures Lower("Jane Doe") == "jane doe" { }
  lemma LowerExcerpt1a() ensures Lower("Discover the power of ") == "discover the power of " { }
  lemma LowerExcerpt1b() ensures Lower("React Hooks and how they ") == "react hooks and how they " { }
  lemma LowerExcerpt1c() ensures Lower("revolutionize state ") == "revolutionize state " { }
  lemma LowerExcerpt1d() ensures Lower("management...") == "management..." { }

  lemma LowerTitle2() ensures Lower("Tailwind CSS Best Practices") == "tailwind css best practices" { }
  lemma LowerAuthor2() ensures Lower("John Smith") == "john smith" { }
  lemma LowerExcerpt2a() ensures Lower("Learn how to create ") == "learn how to create " { }
  lemma LowerExcerpt2b() ensures Lower("efficient and responsive ") == "efficient and responsive " { }
  lemma LowerExcerpt2c() ensures Lower("designs with Tailwind ") == "designs with tailwind " { }
  lemma LowerExcerpt2d() ensures Lower("CSS...") == "css..." { }

  lemma LowerTitle3() ensures Lower("Advanced JavaScript Techniques") == "advanced javascript techniques" { }
  lemma LowerAuthor3() ensures Lower("Alice Johnson") == "alice johnson" { }
  lemma LowerExcerpt3a() ensures Lower("Explore advanced ") == "explore advanced " { }
  lemma LowerExcerpt3b() ensures Lower("JavaScript methods and ") == "javascript methods and " { }
  lemma LowerExcerpt3c() ensures Lower("functional programming ") == "functional programming " { }
  lemma LowerExcerpt3d() ensures Lower("concepts...") == "concepts..." { }

  lemma LowerTitle4() ensures Lower("Web Performance Optimization") == "web performance optimization" { }
  lemma LowerAuthor4() ensures Lower("Bob Williams") == "bob williams" { }
  lemma LowerExcerpt4a() ensures Lower("Strategies to improve ") == "strategies to improve " { }
  lemma LowerExcerpt4b() ensures Lower("your web application's ") == "your web application's " { }
  lemma LowerExcerpt4c() ensures Lower("speed and efficiency...") == "speed and efficiency..." { }

  lemma LowerReact() ensures Lower("react") == "react" { }
  lemma LowerNoMatch() ensures Lower("zzz-no-match") == "zzz-no-match" { }

  /** The excerpt of post 1, lowered piece by piece. */
  lemma LoweredExcerpt1(a: string, b: string, c: string, d: string)
    requires a == "Discover the power of " && b == "React Hooks and how they " && c == "revolutionize state " && d == "management..."
    ensures Lower(a + b + c + d) == "discover the power of " + "react hooks and how they " + "revolutionize state " + "management..."
  {
    LowerExcerpt1a();
    LowerExcerpt1b();
    LowerExcerpt1c();
    LowerExcerpt1d();
    LowerConcat(a, b);
    LowerConcat(a + b, c);
    LowerConcat(a + b + c, d);
  }

  /** The excerpt of post 2, lowered piece by piece. */
  lemma LoweredExcerpt2(a: string, b: string, c: string, d: string)
    requires a == "Learn how to create " && b == "efficient and responsive " && c == "designs with Tailwind " && d == "CSS..."
    ensures Lower(a + b + c + d) == "learn how to create " + "efficient and responsive " + "designs with tailwind " + "css..."
  {
    LowerExcerpt2a();
    LowerExcerpt2b();
    LowerExcerpt2c();
    LowerExcerpt2d();
    LowerConcat(a, b);
    LowerConcat(a + b, c);
    LowerConcat(a + b + c, d);
  }

  /** The excerpt of post 3, lowered piece by piece. */
  lemma LoweredExcerpt3(a: string, b: string, c: string, d: string)
    requires a == "Explore advanced " && b == "JavaScript methods and " && c == "functional programming " && d == "concepts..."
    ensures Lower(a + b + c + d) == "explore advanced " + "javascript methods and " + "functional programming " + "concepts..."
  {
    LowerExcerpt3a();
    LowerExcerpt3b();
    LowerExcerpt3c();
    LowerExcerpt3d();
    LowerConcat(a, b);
    LowerConcat(a + b, c);
    LowerConcat(a + b + c, d);
  }

  /** The excerpt of post 4, lowered piece by piece. */
  lemma LoweredExcerpt4(a: string, b: string, c: string)
    requires a == "Strategies to improve " && b == "your web application's " && c == "speed and efficiency..."
    ensures Lower(a + b + c) == "strategies to improve " + "your web application's " + "speed and efficiency..."
  {
    LowerExcerpt4a();
    LowerExcerpt4b();
    LowerExcerpt4c();
    LowerConcat(a, b);
    LowerConcat(a + b, c);
  }

  /** An occurrence of "react" starts with the letters r, e, a, c. */
  lemma ReactStart(h: string, i: int)
    ensures !OccursAt(h, "react", i) || (h[i] == 'r' && h[i + 1] == 'e' && h[i + 2] == 'a' && h[i + 3] == 'c')
  {
    if OccursAt(h, "react", i) {
      OccursAtChars(h, "react", i);
    }
  }

  /** A needle absent from two pieces, the first ending in a character it lacks, is absent from the two joined. */
  lemma NotInJoin(a: string, b: string, needle: string)
    requires |a| > 0 && a[|a| - 1] !in needle
    requires !Contains(a, needle) && !Contains(b, needle)
    ensures !Contains(a + b, needle)
  {
    ContainsConcat(a, b, needle);
  }

  /** Pieces that each end in a space: a needle without spaces absent from every piece is absent from the whole. */
  lemma JoinedNotContains3(a: string, b: string, c: string, needle: string)
    requires ' ' !in needle
    requires |a| > 0 && a[|a| - 1] == ' ' && |b| > 0 && b[|b| - 1] == ' '
    requires !Contains(a, needle) && !Contains(b, needle) && !Contains(c, needle)
    ensures !Contains(a + b + c, needle)
  {
    NotInJoin(a, b, needle);
    NotInJoin(a + b, c, needle);
  }

  lemma JoinedNotContains4(a: string, b: string, c: string, d: string, needle: string)
    requires ' ' !in needle
    requires |a| > 0 && a[|a| - 1] == ' ' && |b| > 0 && b[|b| - 1] == ' ' && |c| > 0 && c[|c| - 1] == ' '
    requires !Contains(a, needle) && !Contains(b, needle) && !Contains(c, needle) && !Contains(d, needle)
    ensures !Contains(a + b + c + d, needle)
  {
    JoinedNotContains3(a, b, c, needle);
    NotInJoin(a + b + c, d, needle);
  }

  /** A text without a hyphen cannot contain "zzz-no-match". */
  lemma LacksHyphen(h: string)
    requires '-' !in h
    ensures !Contains(h, "zzz-no-match")
  {
    MissingCharNotContained(h, "zzz-no-match", '-');
  }

  /** The lowered title of post 1 contains "react", at index 16. */
  lemma ReactInTitle1(t: string)
    requires t == "introduction to react hooks"
    ensures Contains(t, "react")
  {
    assert t[16..21] == "react";
    assert OccursAt(t, "react", 16);
    ContainsIff(t, "react");
  }

  /** No lowered text of post 1 holds a hyphen. */
  lemma NoHyphenTitle1(h: string) requires h == "introduction to react hooks" ensures '-' !in h { }
  lemma NoHyphenAuthor1(h: string) requires h == "jane doe" ensures '-' !in h { }
  lemma NoHyphenExcerpt1a(h: string) requires h == "discover the power of " ensures '-' !in h { }
  lemma NoHyphenExcerpt1b(h: string) requires h == "react hooks and how they " ensures '-' !in h { }
  lemma NoHyphenExcerpt1c(h: string) requires h == "revolutionize state " ensures '-' !in h { }
  lemma NoHyphenExcerpt1d(h: string) requires h == "management..." ensures '-' !in h { }

  lemma NoMatchInTexts1(title: string, author: string, a: string, b: string, c: string, d: string)
    requires title == "introduction to react hooks" && author == "jane doe"
    requires a == "discover the power of " && b == "react hooks and how they " && c == "revolutionize state " && d == "management..."
    ensures !Contains(title, "zzz-no-match") && !Contains(author, "zzz-no-match")
    ensures !Contains(a + b + c + d, "zzz-no-match")
  {
    NoHyphenTitle1(title);
    NoHyphenAuthor1(author);
    NoHyphenExcerpt1a(a);
    NoHyphenExcerpt1b(b);
    NoHyphenExcerpt1c(c);
    NoHyphenExcerpt1d(d);
    LacksHyphen(title);
    LacksHyphen(author);
    LacksHyphen(a + b + c + d);
  }

  /** No lowered text of post 2 holds a hyphen. */
  lemma NoHyphenTitle2(h: string) requires h == "tailwind css best practices" ensures '-' !in h { }
  lemma NoHyphenAuthor2(h: string) requires h == "john smith" ensures '-' !in h { }
  lemma NoHyphenExcerpt2a(h: string) requires h == "learn how to create " ensures '-' !in h { }
  lemma NoHyphenExcerpt2b(h: string) requires h == "efficient and responsive " ensures '-' !in h { }
  lemma NoHyphenExcerpt2c(h: string) requires h == "designs with tailwind " ensures '-' !in h { }
  lemma NoHyphenExcerpt2d(h: string) requires h == "css..." ensures '-' !in h { }

  lemma NoMatchInTexts2(title: string, author: string, a: string, b: string, c: string, d: string)
    requires title == "tailwind css best practices" && author == "john smith"
    requires a == "learn how to create " && b == "efficient and responsive " && c == "designs with tailwind " && d == "css..."
    ensures !Contains(title, "zzz-no-match") && !Contains(author, "zzz-no-match")
    ensures !Contains(a + b + c + d, "zzz-no-match")
  {
    NoHyphenTitle2(title);
    NoHyphenAuthor2(author);
    NoHyphenExcerpt2a(a);
    NoHyphenExcerpt2b(b);
    NoHyphenExcerpt2c(c);
    NoHyphenExcerpt2d(d);
    LacksHyphen(title);
    LacksHyphen(author);
    LacksHyphen(a + b + c + d);
  }

  /** No lowered text of post 2 contains "react". */
  lemma NoReactTitle2(h: string) requires h == "tailwind css best practices" ensures !Contains(h, "react") {
    forall i ensures !OccursAt(h, "react", i) { ReactStart(h, i); }
    ContainsIff(h, "react");
  }
  lemma NoReactAuthor2(h: string) requires h == "john smith" ensures !Contains(h, "react") {
    MissingCharNotContained(h, "react", 'r');
  }
  lemma NoReactExcerpt2a(h: string) requires h == "learn how to create " ensures !Contains(h, "react") {
    forall i ensures !OccursAt(h, "react", i) { ReactStart(h, i); }
    ContainsIff(h, "react");
  }
  lemma NoReactExcerpt2b(h: string) requires h == "efficient and responsive " ensures !Contains(h, "react") {
    forall i ensures !OccursAt(h, "react", i) { ReactStart(h, i); }
    ContainsIff(h, "react");
  }
  lemma NoReactExcerpt2c(h: string) requires h == "designs with tailwind " ensures !Contains(h, "react") {
    MissingCharNotContained(h, "react", 'r');
  }
  lemma NoReactExcerpt2d(h: string) requires h == "css..." ensures !Contains(h, "react") {
    MissingCharNotContained(h, "react", 'r');
  }

  lemma NoReactInTexts2(title: string, author: string, a: string, b: string, c: string, d: string)
    requires title == "tailwind css best practices" && author == "john smith"
    requires a == "learn how to create " && b == "efficient and responsive " && c == "designs with tailwind " && d == "css..."
    ensures !Contains(title, "react") && !Contains(author, "react")
    ensures !Contains(a + b + c + d, "react")
  {
    NoReactTitle2(title);
    NoReactAuthor2(author);
    NoReactInExcerpt2(a, b, c, d);
  }

  lemma NoReactInExcerpt2(a: string, b: string, c: string, d: string)
    requires a == "learn how to create " && b == "efficient and responsive " && c == "designs with tailwind " && d == "css..."
    ensures !Contains(a + b + c + d, "react")
  {
    NoReactExcerpt2a(a);
    NoReactExcerpt2b(b);
    NoReactExcerpt2c(c);
    NoReactExcerpt2d(d);
    JoinedNotContains4(a, b, c, d, "react");
  }

  /** No lowered text of post 3 holds a hyphen. */
  lemma NoHyphenTitle3(h: string) requires h == "advanced javascript techniques" ensures '-' !in h { }
  lemma NoHyphenAuthor3(h: string) requires h == "alice johnson" ensures '-' !in h { }
  lemma NoHyphenExcerpt3a(h: string) requires h == "explore advanced " ensures '-' !in h { }
  lemma NoHyphenExcerpt3b(h: string) requires h == "javascript methods and " ensures '-' !in h { }
  lemma NoHyphenExcerpt3c(h: string) requires h == "functional programming " ensures '-' !in h { }
  lemma NoHyphenExcerpt3d(h: string) requires h == "concepts..." ensures '-' !in h { }

  lemma NoMatchInTexts3(title: string, author: string, a: string, b: string, c: string, d: string)
    requires title == "advanced javascript techniques" && author == "alice johnson"
    requires a == "explore advanced " && b == "javascript methods and " && c == "functional programming " && d == "concepts..."
    ensures !Contains(title, "zzz-no-match") && !Contains(author, "zzz-no-match")
    ensures !Contains(a + b + c + d, "zzz-no-match")
  {
    NoHyphenTitle3(title);
    NoHyphenAuthor3(author);
    NoHyphenExcerpt3a(a);
    NoHyphenExcerpt3b(b);
    NoHyphenExcerpt3c(c);
    NoHyphenExcerpt3d(d);
    LacksHyphen(title);
    LacksHyphen(author);
    LacksHyphen(a + b + c + d);
  }

  /** No lowered text of post 3 contains "react". */
  lemma NoReactTitle3(h: string) requires h == "advanced javascript techniques" ensures !Contains(h, "react") {
    forall i ensures !OccursAt(h, "react", i) { ReactStart(h, i); }
    ContainsIff(h, "react");
  }
  lemma NoReactAuthor3(h: string) requires h == "alice johnson" ensures !Contains(h, "react") {
    MissingCharNotContained(h, "react", 'r');
  }
  lemma NoReactExcerpt3a(h: string) requires h == "explore advanced " ensures !Contains(h, "react") {
    MissingCharNotContained(h, "react", 't');
  }
  lemma NoReactExcerpt3b(h: string) requires h == "javascript methods and " ensures !Contains(h, "react") {
    forall i ensures !OccursAt(h, "react", i) { ReactStart(h, i); }
    ContainsIff(h, "react");
  }
  lemma NoReactExcerpt3c(h: string) requires h == "functional programming " ensures !Contains(h, "react") {
    MissingCharNotContained(h, "react", 'e');
  }
  lemma NoReactExcerpt3d(h: string) requires h == "concepts..." ensures !Contains(h, "react") {
    MissingCharNotContained(h, "react", 'r');
  }

  lemma NoReactInTexts3(title: string, author: string, a: string, b: string, c: string, d: string)
    requires title == "advanced javascript techniques" && author == "alice johnson"
    requires a == "explore advanced " && b == "javascript methods and " && c == "functional programming " && d == "concepts..."
    ensures !Contains(title, "react") && !Contains(author, "react")
    ensures !Contains(a + b + c + d, "react")
  {
    NoReactTitle3(title);
    NoReactAuthor3(author);
    NoReactInExcerpt3(a, b, c, d);
  }

  lemma NoReactInExcerpt3(a: string, b: string, c: string, d: string)
    requires a == "explore advanced " && b == "javascript methods and " && c == "functional programming " && d == "concepts..."
    ensures !Contains(a + b + c + d, "react")
  {
    NoReactExcerpt3a(a);
    NoReactExcerpt3b(b);
    NoReactExcerpt3c(c);
    NoReactExcerpt3d(d);
    JoinedNotContains4(a, b, c, d, "react");
  }

  /** No lowered text of post 4 holds a hyphen. */
  lemma NoHyphenTitle4(h: string) requires h == "web performance optimization" ensures '-' !in h { }
  lemma NoHyphenAuthor4(h: string) requires h == "bob williams" ensures '-' !in h { }
  lemma NoHyphenExcerpt4a(h: string) requires h == "strategies to improve " ensures '-' !in h { }
  lemma NoHyphenExcerpt4b(h: string) requires h == "your web application's " ensures '-' !in h { }
  lemma NoHyphenExcerpt4c(h: string) requires h == "speed and efficiency..." ensures '-' !in h { }

  lemma NoMatchInTexts4(title: string, author: string, a: string, b: string, c: string)
    requires title == "web performance optimization" && author == "bob williams"
    requires a == "strategies to improve " && b == "your web application's " && c == "speed and efficiency..."
    ensures !Contains(title, "zzz-no-match") && !Contains(author, "zzz-no-match")
    ensures !Contains(a + b + c, "zzz-no-match")
  {
    NoHyphenTitle4(title);
    NoHyphenAuthor4(author);
    NoHyphenExcerpt4a(a);
    NoHyphenExcerpt4b(b);
    NoHyphenExcerpt4c(c);
    LacksHyphen(title);
    LacksHyphen(author);
    LacksHyphen(a + b + c);
  }

  /** No lowered text of post 4 contains "react". */
  lemma NoReactTitle4(h: string) requires h == "web performance optimization" ensures !Contains(h, "react") {
    forall i ensures !OccursAt(h, "react", i) { ReactStart(h, i); }
    ContainsIff(h, "react");
  }
  lemma NoReactAuthor4(h: string) requires h == "bob williams" ensures !Contains(h, "react") {
    MissingCharNotContained(h, "react", 'r');
  }
  lemma NoReactExcerpt4a(h: string) requires h == "strategies to improve " ensures !Contains(h, "react") {
    MissingCharNotContained(h, "react", 'c');
  }
  lemma NoReactExcerpt4b(h: string) requires h == "your web application's " ensures !Contains(h, "react") {
    forall i ensures !OccursAt(h, "react", i) { ReactStart(h, i); }
    ContainsIff(h, "react");
  }
  lemma NoReactExcerpt4c(h: string) requires h == "speed and efficiency..." ensures !Contains(h, "react") {
    MissingCharNotContained(h, "react", 'r');
  }

  lemma NoReactInTexts4(title: string, author: string, a: string, b: string, c: string)
    requires title == "web performance optimization" && author == "bob williams"
    requires a == "strategies to improve " && b == "your web application's " && c == "speed and efficiency..."
    ensures !Contains(title, "react") && !Contains(author, "react")
    ensures !Contains(a + b + c, "react")
  {
    NoReactTitle4(title);
    NoReactAuthor4(author);
    NoReactInExcerpt4(a, b, c);
  }

  lemma NoReactInExcerpt4(a: string, b: string, c: string)
    requires a == "strategies to improve " && b == "your web application's " && c == "speed and efficiency..."
    ensures !Contains(a + b + c, "react")
  {
    NoReactExcerpt4a(a);
    NoReactExcerpt4b(b);
    NoReactExcerpt4c(c);
    JoinedNotContains3(a, b, c, "react");
  }
}
