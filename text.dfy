/**
 * Case folding and substring search on strings, as the search box uses them:
 * `s.toLowerCase()` and `haystack.includes(needle)`.
 */
module Text {

  predicate IsUpper(c: char) {
    'A' <= c <= 'Z'
  }

  /** `toLowerCase` on one character, restricted to the ASCII letters. */
  function LowerChar(c: char): (r: char)
    ensures IsUpper(c) ==> r as int == c as int + 32
    ensures !IsUpper(c) ==> r == c
    ensures !IsUpper(r)
  {
    if IsUpper(c) then (c as int + 32) as char else c
  }

  /** `toLowerCase` on a string: every character folded, the length kept. */
  function Lower(s: string): (r: string)
    ensures |r| == |s|
    ensures forall i :: 0 <= i < |s| ==> r[i] == LowerChar(s[i])
  {
    seq(|s|, i requires 0 <= i < |s| => LowerChar(s[i]))
  }

  /** Folding twice folds once: a lowered string has no upper-case letter left. */
  lemma LowerIdempotent(s: string)
    ensures Lower(Lower(s)) == Lower(s)
  {
    assert forall i :: 0 <= i < |s| ==> LowerChar(LowerChar(s[i])) == LowerChar(s[i]);
  }

  /** Folding works character by character, so it distributes over concatenation. */
  lemma LowerConcat(a: string, b: string)
    ensures Lower(a + b) == Lower(a) + Lower(b)
  {
    assert forall i :: 0 <= i < |a + b| ==> Lower(a + b)[i] == (Lower(a) + Lower(b))[i];
  }

  predicate IsPrefix(needle: string, s: string) {
    |needle| <= |s| && s[..|needle|] == needle
  }

  /** `haystack.includes(needle)`: the needle starts at some position of the haystack. */
  predicate Contains(haystack: string, needle: string)
    decreases |haystack|
  {
    IsPrefix(needle, haystack) || (|haystack| > 0 && Contains(haystack[1..], needle))
  }

  /** The needle occurs in the haystack starting at position `i`. */
  predicate OccursAt(haystack: string, needle: string, i: int) {
    0 <= i && i + |needle| <= |haystack| && haystack[i..i + |needle|] == needle
  }

  /** Contains agrees with the positional definition of a substring, both ways. */
  lemma {:induction false} ContainsIff(haystack: string, needle: string)
    ensures Contains(haystack, needle) <==> exists i :: OccursAt(haystack, needle, i)
  {
    if IsPrefix(needle, haystack) {
      assert OccursAt(haystack, needle, 0);
    } else if |haystack| == 0 {
    } else {
      var tail := haystack[1..];
      ContainsIff(tail, needle);
      if Contains(tail, needle) {
        var i :| OccursAt(tail, needle, i);
        assert haystack[i + 1..i + 1 + |needle|] == needle;
        assert OccursAt(haystack, needle, i + 1);
      } else {
        forall i | 0 <= i && i + |needle| <= |haystack|
          ensures !OccursAt(haystack, needle, i)
        {
          if i == 0 {
            assert haystack[..|needle|] == haystack[0..0 + |needle|];
          } else {
            assert haystack[i..i + |needle|] == tail[i - 1..i - 1 + |needle|];
            assert !OccursAt(tail, needle, i - 1);
          }
        }
      }
    }
  }

  /** An occurrence pins every character of the needle to a character of the haystack. */
  lemma OccursAtChars(haystack: string, needle: string, i: int)
    requires OccursAt(haystack, needle, i)
    ensures forall k :: 0 <= k < |needle| ==> haystack[i + k] == needle[k]
  {
    forall k | 0 <= k < |needle| ensures haystack[i + k] == needle[k] {
      assert haystack[i..i + |needle|][k] == needle[k];
    }
  }

  /** The empty needle is found in every string, the empty string included. */
  lemma ContainsEmpty(haystack: string)
    ensures Contains(haystack, "")
  {
    assert IsPrefix("", haystack);
  }

  /** A needle holding a character the haystack lacks is not found. */
  lemma MissingCharNotContained(haystack: string, needle: string, c: char)
    requires c in needle && c !in haystack
    ensures !Contains(haystack, needle)
  {
    ContainsIff(haystack, needle);
    if Contains(haystack, needle) {
      var i :| OccursAt(haystack, needle, i);
      OccursAtChars(haystack, needle, i);
      assert false;
    }
  }

  /** A character that no character of `s` lowers to is not in `Lower(s)`. */
  lemma LowerMissingChar(s: string, c: char)
    requires forall x :: x in s ==> LowerChar(x) != c
    ensures c !in Lower(s)
  {
    forall i | 0 <= i < |s| ensures Lower(s)[i] != c {
      assert s[i] in s;
    }
  }

  /**
   * When the left part ends in a character that the needle does not hold (a
   * space between words, say), no occurrence straddles the seam: the needle
   * is in the concatenation exactly when it is in one of the parts.
   */
  lemma ContainsConcat(a: string, b: string, needle: string)
    requires |a| > 0 && a[|a| - 1] !in needle
    ensures Contains(a + b, needle) <==> Contains(a, needle) || Contains(b, needle)
  {
    ContainsIff(a + b, needle);
    ContainsIff(a, needle);
    ContainsIff(b, needle);
    if Contains(a + b, needle) {
      var i :| OccursAt(a + b, needle, i);
      if i + |needle| <= |a| {
        assert (a + b)[i..i + |needle|] == a[i..i + |needle|];
        assert OccursAt(a, needle, i);
      } else if i >= |a| {
        assert (a + b)[i..i + |needle|] == b[i - |a|..i - |a| + |needle|];
        assert OccursAt(b, needle, i - |a|);
      } else {
        NoStraddle(a, b, needle, i);
        assert false;
      }
    }
    if Contains(a, needle) {
      var i :| OccursAt(a, needle, i);
      assert (a + b)[i..i + |needle|] == a[i..i + |needle|];
      assert OccursAt(a + b, needle, i);
    }
    if Contains(b, needle) {
      var i :| OccursAt(b, needle, i);
      assert (a + b)[|a| + i..|a| + i + |needle|] == b[i..i + |needle|];
      assert OccursAt(a + b, needle, |a| + i);
    }
  }

  /** An occurrence across the seam would have to cover the last character of `a`. */
  lemma NoStraddle(a: string, b: string, needle: string, i: int)
    requires |a| > 0 && a[|a| - 1] !in needle
    requires 0 <= i < |a| < i + |needle| <= |a| + |b|
    ensures !OccursAt(a + b, needle, i)
  {
    var window := (a + b)[i..i + |needle|];
    var k := |a| - 1 - i;
    assert window[k] == a[|a| - 1];
    assert needle[k] in needle;
  }
}
