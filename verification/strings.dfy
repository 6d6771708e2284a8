/**
 Plain, case-sensitive substring matching and Python-style `str.replace`
 on strings (`seq<char>`). Nothing here parses URLs or JSON: matching is
 character-for-character, exactly as the Python `in` operator and
 `str.replace` behave (the latter for a non-empty pattern).
 */
module Strings {

  /** `p` is a prefix of `s`. */
  predicate StartsWith(s: string, p: string) {
    |p| <= |s| && s[..|p|] == p
  }

  /** `p` is a suffix of `s` (Python's `s.endswith(p)`). */
  predicate EndsWith(s: string, p: string) {
    |p| <= |s| && s[|s| - |p|..] == p
  }

  /** `p` occurs in `s` starting at index `i`. */
  predicate OccursAt(s: string, p: string, i: int) {
    0 <= i && i + |p| <= |s| && s[i..i + |p|] == p
  }

  /** Python's `p in s`: `p` occurs somewhere in `s` (the empty string occurs everywhere). */
  predicate Contains(s: string, p: string)
    ensures |p| == 0 ==> Contains(s, p)
    ensures Contains(s, p) ==> |p| <= |s|
    decreases |s|
  {
    StartsWith(s, p) || (|s| > 0 && Contains(s[1..], p))
  }

  /** Every character after the first differs from the first one. */
  predicate UniqueHead(b: string) {
    forall i :: 1 <= i < |b| ==> b[i] != b[0]
  }

  /**
   Python's `s.replace(pat, rep)` for a non-empty `pat`: scanning left to
   right, every leftmost, non-overlapping occurrence of `pat` is replaced
   by `rep`; all other characters are kept in order.
   */
  function ReplaceAll(s: string, pat: string, rep: string): (r: string)
    requires |pat| > 0
    ensures |rep| <= |pat| ==> |r| <= |s|
    ensures |pat| <= |rep| ==> |s| <= |r|
    decreases |s|
  {
    if |s| == 0 then s
    else if StartsWith(s, pat) then rep + ReplaceAll(s[|pat|..], pat, rep)
    else [s[0]] + ReplaceAll(s[1..], pat, rep)
  }

  /** A text in which the pattern does not occur comes back unchanged. */
  lemma {:induction false} ReplaceAllPassThrough(s: string, pat: string, rep: string)
    requires |pat| > 0 && !Contains(s, pat)
    ensures ReplaceAll(s, pat, rep) == s
    decreases |s|
  {
    if |s| > 0 {
      ReplaceAllPassThrough(s[1..], pat, rep);
      assert s == [s[0]] + s[1..];
    }
  }

  /** A text in which the pattern occurs gives a result in which the replacement occurs. */
  lemma {:induction false} ReplaceAllIntroduces(s: string, pat: string, rep: string)
    requires |pat| > 0 && Contains(s, pat)
    ensures Contains(ReplaceAll(s, pat, rep), rep)
    decreases |s|
  {
    var r := ReplaceAll(s, pat, rep);
    if StartsWith(s, pat) {
      assert r == rep + ReplaceAll(s[|pat|..], pat, rep);
      assert r[..|rep|] == rep;
    } else {
      var tail := ReplaceAll(s[1..], pat, rep);
      ReplaceAllIntroduces(s[1..], pat, rep);
      assert r == [s[0]] + tail;
      assert r[1..] == tail;
    }
  }

  /** The recursive `Contains` agrees with the index-based definition of an occurrence. */
  lemma {:induction false} ContainsIffOccurs(s: string, p: string)
    ensures Contains(s, p) <==> exists i :: OccursAt(s, p, i)
    decreases |s|
  {
    if StartsWith(s, p) {
      assert OccursAt(s, p, 0);
    } else if |s| == 0 {
    } else {
      ContainsIffOccurs(s[1..], p);
      if Contains(s[1..], p) {
        var j :| OccursAt(s[1..], p, j);
        assert s[1..][j..j + |p|] == s[j + 1..j + 1 + |p|];
        assert OccursAt(s, p, j + 1);
      }
      if exists i :: OccursAt(s, p, i) {
        var i :| OccursAt(s, p, i);
        if i == 0 {
          assert false;
        } else {
          assert s[1..][i - 1..i - 1 + |p|] == s[i..i + |p|];
          assert OccursAt(s[1..], p, i - 1);
        }
      }
    }
  }

  /** Position `i` is no candidate for an occurrence of `p` in `s`, or `s` disagrees with `p` at offset `j1` or `j2`. */
  predicate MismatchAt(s: string, p: string, j1: int, j2: int, i: int)
    requires 0 <= j1 < |p| && 0 <= j2 < |p|
  {
    0 <= i && i + |p| <= |s| ==> s[i + j1] != p[j1] || s[i + j2] != p[j2]
  }

  /**
   `p` does not occur in `s` when every candidate position disagrees with `p`
   at offset `j1` or at offset `j2` (take `j1 == j2` for a single character).
   */
  lemma NotContainsByMismatch(s: string, p: string, j1: int, j2: int)
    requires 0 <= j1 < |p| && 0 <= j2 < |p|
    requires forall i :: MismatchAt(s, p, j1, j2, i)
    ensures !Contains(s, p)
  {
    forall i
      ensures !OccursAt(s, p, i)
    {
      assert MismatchAt(s, p, j1, j2, i);
      if 0 <= i && i + |p| <= |s| {
        assert s[i..i + |p|][j1] == s[i + j1];
        assert s[i..i + |p|][j2] == s[i + j2];
      }
    }
    ContainsIffOccurs(s, p);
  }

  /** An occurrence of `y` inside an occurrence of `x` in `s` is an occurrence of `y` in `s`. */
  lemma ContainsTransitive(s: string, x: string, y: string)
    requires Contains(s, x) && Contains(x, y)
    ensures Contains(s, y)
  {
    ContainsIffOccurs(s, x);
    ContainsIffOccurs(x, y);
    var i :| OccursAt(s, x, i);
    var j :| OccursAt(x, y, j);
    forall k | 0 <= k < |y|
      ensures s[i + j + k] == y[k]
    {
      assert y[k] == x[j + k] == s[i..i + |x|][j + k];
    }
    assert s[i + j..i + j + |y|] == y;
    assert OccursAt(s, y, i + j);
    ContainsIffOccurs(s, y);
  }

  /** A slice of `s` occurs in `s`. */
  lemma ContainsSlice(s: string, lo: int, hi: int)
    requires 0 <= lo <= hi <= |s|
    ensures Contains(s, s[lo..hi])
  {
    assert OccursAt(s, s[lo..hi], lo);
    ContainsIffOccurs(s, s[lo..hi]);
  }

  /** Dropping the last character keeps every occurrence that does not end on it. */
  lemma ContainsDropLast(s: string, p: string)
    requires Contains(s, p) && |s| > 0 && |p| > 0
    requires p[|p| - 1] != s[|s| - 1]
    ensures Contains(s[..|s| - 1], p)
  {
    ContainsIffOccurs(s, p);
    var i :| OccursAt(s, p, i);
    OccursDropLast(s, p, i);
    ContainsIffOccurs(s[..|s| - 1], p);
  }

  lemma OccursDropLast(s: string, p: string, i: int)
    requires OccursAt(s, p, i) && |p| > 0
    requires p[|p| - 1] != s[|s| - 1]
    ensures OccursAt(s[..|s| - 1], p, i)
  {
    assert s[i..i + |p|][|p| - 1] == s[i + |p| - 1];
    assert s[..|s| - 1][i..i + |p|] == s[i..i + |p|];
  }

  /** An occurrence in `u + x` past the end of `u` is an occurrence in `x`, and back. */
  lemma OccursShift(u: string, x: string, p: string, i: int)
    requires |u| <= i
    ensures OccursAt(u + x, p, i) <==> OccursAt(x, p, i - |u|)
  {
    if i + |p| <= |u| + |x| {
      assert (u + x)[i..i + |p|] == x[i - |u|..i - |u| + |p|];
    }
  }

  /**
   If the output of a replacement starts with `w`, and `w` avoids the first
   character of the replacement text, then the input already started with `w`:
   the replacement cannot have produced any of those characters.
   */
  lemma {:induction false} ReplaceAllKeepsPrefix(t: string, a: string, b: string, w: string)
    requires |a| > 0 && |b| > 0
    requires forall i :: 0 <= i < |w| ==> w[i] != b[0]
    requires StartsWith(ReplaceAll(t, a, b), w)
    ensures StartsWith(t, w)
    decreases |t|
  {
    if |t| > 0 && |w| > 0 {
      var r := ReplaceAll(t, a, b);
      ReplaceAllFirst(t, a, b);
      assert r[..|w|][0] == r[0];
      if StartsWith(t, a) {
        assert false;
      } else {
        var tail := ReplaceAll(t[1..], a, b);
        assert ReplaceAll(t, a, b) == [t[0]] + tail;
        ConsPrefix(t[0], tail, w);
        ReplaceAllKeepsPrefix(t[1..], a, b, w[1..]);
        ConsPrefix(t[0], t[1..], w);
        assert t == [t[0]] + t[1..];
      }
    }
  }

  /** The first character of a replacement's output: that of `rep` when a match starts the input, else the input's own. */
  lemma ReplaceAllFirst(t: string, a: string, b: string)
    requires |a| > 0 && |b| > 0 && |t| > 0
    ensures |ReplaceAll(t, a, b)| > 0
    ensures ReplaceAll(t, a, b)[0] == if StartsWith(t, a) then b[0] else t[0]
  {
  }

  /** A text built from a first character `c` and a rest `x` starts with `p` exactly when `c` starts `p` and `x` starts the rest of `p`. */
  lemma ConsPrefix(c: char, x: string, p: string)
    requires |p| > 0
    ensures StartsWith([c] + x, p) <==> c == p[0] && StartsWith(x, p[1..])
  {
    var r := [c] + x;
    if |p| <= |r| {
      assert r[..|p|] == [c] + x[..|p| - 1];
      assert p == [p[0]] + p[1..];
    }
  }

  /**
   Keeping the first character of `s` and replacing in the rest cannot make
   the output start with `b` unless `s` already did.
   */
  lemma NoNewHead(s: string, a: string, b: string)
    requires |a| > 0 && |b| > 0 && UniqueHead(b)
    requires |s| > 0 && !StartsWith(s, b)
    ensures !StartsWith([s[0]] + ReplaceAll(s[1..], a, b), b)
  {
    var x := ReplaceAll(s[1..], a, b);
    var r := [s[0]] + x;
    ConsPrefix(s[0], s[1..], b);
    assert s == [s[0]] + s[1..];
    if StartsWith(r, b) {
      ConsPrefix(s[0], x, b);
      forall k | 0 <= k < |b[1..]|
        ensures b[1..][k] != b[0]
      {
        assert b[1..][k] == b[k + 1];
      }
      ReplaceAllKeepsPrefix(s[1..], a, b, b[1..]);
      assert false;
    }
  }

  /** A prefix of `s` contains nothing that `s` does not. */
  lemma ContainsPrefix(s: string, k: int, p: string)
    requires 0 <= k <= |s| && Contains(s[..k], p)
    ensures Contains(s, p)
  {
    ContainsSlice(s, 0, k);
    assert s[0..k] == s[..k];
    ContainsTransitive(s, s[..k], p);
  }

  /** A suffix of `s` contains nothing that `s` does not. */
  lemma ContainsSuffix(s: string, k: int, p: string)
    requires 0 <= k <= |s| && Contains(s[k..], p)
    ensures Contains(s, p)
  {
    ContainsSlice(s, k, |s|);
    assert s[k..|s|] == s[k..];
    ContainsTransitive(s, s[k..], p);
  }

  /**
   Replacing `a` by `b` and then `b` by `a` gives back the input, provided the
   input did not already contain `b` and the first character of `b` does not
   occur again inside `b`.
   */
  lemma {:induction false} ReplaceAllUndo(s: string, a: string, b: string)
    requires |a| > 0 && |b| > 0 && UniqueHead(b)
    requires !Contains(s, b)
    ensures ReplaceAll(ReplaceAll(s, a, b), b, a) == s
    decreases |s|
  {
    if |s| == 0 {
    } else if StartsWith(s, a) {
      var rest := s[|a|..];
      if Contains(rest, b) {
        ContainsSuffix(s, |a|, b);
      }
      ReplaceAllUndo(rest, a, b);
      var x := ReplaceAll(rest, a, b);
      assert ReplaceAll(s, a, b) == b + x;
      assert StartsWith(b + x, b);
      assert (b + x)[|b|..] == x;
      assert ReplaceAll(b + x, b, a) == a + ReplaceAll(x, b, a);
      assert s == a + rest;
    } else {
      var x := ReplaceAll(s[1..], a, b);
      var r := [s[0]] + x;
      assert ReplaceAll(s, a, b) == r;
      NoNewHead(s, a, b);
      if Contains(s[1..], b) {
        ContainsSuffix(s, 1, b);
      }
      ReplaceAllUndo(s[1..], a, b);
      assert r[1..] == x;
      assert ReplaceAll(r, b, a) == [s[0]] + ReplaceAll(x, b, a);
    }
  }

  /**
   When the replacement `b` extends the pattern `a` and its first character
   does not recur in it, every occurrence of `a` in the output is the start
   of an inserted `b`: no occurrence of `a` survives unreplaced.
   */
  lemma {:induction false} ReplaceAllExtendsEvery(t: string, a: string, b: string)
    requires |a| > 0 && StartsWith(b, a) && UniqueHead(b)
    ensures forall i :: OccursAt(ReplaceAll(t, a, b), a, i) ==> OccursAt(ReplaceAll(t, a, b), b, i)
    decreases |t|
  {
    var r := ReplaceAll(t, a, b);
    if |t| == 0 {
    } else if StartsWith(t, a) {
      var x := ReplaceAll(t[|a|..], a, b);
      ReplaceAllExtendsEvery(t[|a|..], a, b);
      assert r == b + x;
      forall i | OccursAt(r, a, i)
        ensures OccursAt(r, b, i)
      {
        if i == 0 {
          assert r[..|b|] == b;
        } else if i < |b| {
          assert false;
        } else {
          OccursShift(b, x, a, i);
          OccursShift(b, x, b, i);
        }
      }
    } else {
      var x := ReplaceAll(t[1..], a, b);
      ReplaceAllExtendsEvery(t[1..], a, b);
      assert r == [t[0]] + x;
      ConsPrefix(t[0], t[1..], a);
      assert t == [t[0]] + t[1..];
      forall i | OccursAt(r, a, i)
        ensures OccursAt(r, b, i)
      {
        if i == 0 {
          assert StartsWith(r, a);
          ConsPrefix(t[0], x, a);
          forall k | 0 <= k < |a[1..]|
            ensures a[1..][k] != b[0]
          {
            assert a[1..][k] == b[k + 1];
          }
          ReplaceAllKeepsPrefix(t[1..], a, b, a[1..]);
          assert false;
        } else {
          OccursShift([t[0]], x, a, i);
          OccursShift([t[0]], x, b, i);
        }
      }
    }
  }

  /**
   A prefix that cannot begin a match (it avoids the pattern's first
   character) passes through a replacement untouched.
   */
  lemma {:induction false} ReplaceAllSkipsPrefix(u: string, v: string, pat: string, rep: string)
    requires |pat| > 0
    requires forall i :: 0 <= i < |u| ==> u[i] != pat[0]
    ensures ReplaceAll(u + v, pat, rep) == u + ReplaceAll(v, pat, rep)
    decreases |u|
  {
    if |u| > 0 {
      var s := u + v;
      assert s[0] == u[0];
      assert !StartsWith(s, pat);
      assert s[1..] == u[1..] + v;
      var tail := ReplaceAll(s[1..], pat, rep);
      assert ReplaceAll(s, pat, rep) == [s[0]] + tail;
      ReplaceAllSkipsPrefix(u[1..], v, pat, rep);
      assert tail == u[1..] + ReplaceAll(v, pat, rep);
      assert [u[0]] + (u[1..] + ReplaceAll(v, pat, rep)) == u + ReplaceAll(v, pat, rep);
    } else {
      assert u + v == v;
    }
  }
}
