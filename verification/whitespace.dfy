/**
 Python's argument-less `str.strip()`: it removes, from both ends, every
 character for which `str.isspace()` holds.
 */
module Whitespace {

  /**
   The characters Python's `str.isspace()` accepts: the ASCII controls
   TAB through CR and FS through US, SPACE, NEXT LINE, NO-BREAK SPACE,
   OGHAM SPACE MARK, the spaces U+2000 to U+200A, LINE and PARAGRAPH
   SEPARATOR, NARROW NO-BREAK SPACE, MEDIUM MATHEMATICAL SPACE and
   IDEOGRAPHIC SPACE.
   */
  predicate IsSpace(c: char) {
    var n := c as int;
    || (0x09 <= n <= 0x0D)
    || (0x1C <= n <= 0x20)
    || n == 0x85 || n == 0xA0 || n == 0x1680
    || (0x2000 <= n <= 0x200A)
    || n == 0x2028 || n == 0x2029 || n == 0x202F || n == 0x205F || n == 0x3000
  }

  /** Every character of `s` is whitespace. */
  predicate AllSpace(s: string) {
    forall i :: 0 <= i < |s| ==> IsSpace(s[i])
  }

  /** `s` neither begins nor ends with whitespace. */
  predicate IsStripped(s: string) {
    |s| == 0 || (!IsSpace(s[0]) && !IsSpace(s[|s| - 1]))
  }

  /**
   `r` sits at offset `k` of `s` and everything of `s` before and after it
   is whitespace.
   */
  predicate Padded(s: string, r: string, k: int) {
    && 0 <= k && k + |r| <= |s|
    && s[k..k + |r|] == r
    && AllSpace(s[..k])
    && AllSpace(s[k + |r|..])
  }

  /** Python's `s.lstrip()`: the suffix of `s` left after dropping leading whitespace. */
  function StripLeading(s: string): (r: string)
    ensures |r| <= |s| && r == s[|s| - |r|..]
    ensures AllSpace(s[..|s| - |r|])
    ensures |r| > 0 ==> !IsSpace(r[0])
    decreases |s|
  {
    if |s| > 0 && IsSpace(s[0]) then StripLeading(s[1..]) else s
  }

  /** Python's `s.rstrip()`: the prefix of `s` left after dropping trailing whitespace. */
  function StripTrailing(s: string): (r: string)
    ensures |r| <= |s| && r == s[..|r|]
    ensures AllSpace(s[|r|..])
    ensures |r| > 0 ==> !IsSpace(r[|r| - 1])
    decreases |s|
  {
    if |s| > 0 && IsSpace(s[|s| - 1]) then StripTrailing(s[..|s| - 1]) else s
  }

  /**
   Python's `s.strip()`: the result is the part of `s` between a whitespace
   prefix and a whitespace suffix, and it neither begins nor ends with
   whitespace itself.
   */
  function Strip(s: string): (r: string)
    ensures IsStripped(r)
    ensures exists k :: Padded(s, r, k)
  {
    var t := StripLeading(s);
    var r := StripTrailing(t);
    var k := |s| - |t|;
    assert s[k..k + |r|] == r;
    assert s[k + |r|..] == t[|r|..];
    assert |r| > 0 ==> r[0] == t[0];
    assert Padded(s, r, k);
    r
  }

  /** Stripping is all-or-nothing on blank text: the result is empty exactly when `s` is all whitespace. */
  lemma StripEmptyIffBlank(s: string)
    ensures Strip(s) == "" <==> AllSpace(s)
  {
    var k :| Padded(s, Strip(s), k);
    if Strip(s) == "" {
      forall i | 0 <= i < |s|
        ensures IsSpace(s[i])
      {
        if i < k {
          assert s[..k][i] == s[i];
        } else {
          assert s[k..][i - k] == s[i];
        }
      }
    } else {
      assert s[k] == Strip(s)[0];
    }
  }

  /** Whitespace padding around an already-stripped, non-empty text is exactly what `Strip` removes. */
  lemma {:induction false} StripPadding(pre: string, w: string, post: string)
    requires AllSpace(pre) && AllSpace(post)
    requires |w| > 0 && IsStripped(w)
    ensures Strip(pre + w + post) == w
  {
    StripLeadingSpaces(pre, w, post);
    StripTrailingSpaces(w, post);
    StripIsBothEnds(pre + w + post);
  }

  /** `strip` is `lstrip` followed by `rstrip`. */
  lemma StripIsBothEnds(s: string)
    ensures Strip(s) == StripTrailing(StripLeading(s))
  {
  }

  lemma {:induction false} StripLeadingSpaces(pre: string, w: string, post: string)
    requires AllSpace(pre)
    requires |w| > 0 && !IsSpace(w[0])
    ensures StripLeading(pre + w + post) == w + post
    decreases |pre|
  {
    if |pre| == 0 {
      assert pre + w + post == w + post;
    } else {
      assert (pre + w + post)[1..] == pre[1..] + w + post;
      StripLeadingSpaces(pre[1..], w, post);
    }
  }

  lemma {:induction false} StripTrailingSpaces(w: string, post: string)
    requires AllSpace(post)
    requires |w| > 0 && !IsSpace(w[|w| - 1])
    ensures StripTrailing(w + post) == w
    decreases |post|
  {
    if |post| == 0 {
      assert w + post == w;
    } else {
      var s := w + post;
      assert s[|s| - 1] == post[|post| - 1];
      assert s[..|s| - 1] == w + post[..|post| - 1];
      StripTrailingSpaces(w, post[..|post| - 1]);
    }
  }
}
