/**
 Clean-up applied to a language model's reply before it is handed to the JSON
 parser (`ai_integration.py`, lines 69 and 136): strip surrounding
 whitespace, then delete every "```json", then delete every "```".
 */
module Fences {
  import opened Strings
  import opened Whitespace

  /** Opening marker of a Markdown code block tagged as JSON. */
  const JsonFence: string := "```json"

  /** Bare Markdown code-block marker. */
  const Fence: string := "```"

  /** The text contains no backtick at all. */
  predicate NoBackticks(s: string) {
    forall i :: 0 <= i < |s| ==> s[i] != '`'
  }

  /**
   Strip, remove every "```json", then remove every "```", in that order.
   The result is never longer than the reply and holds no "```" any more.
   */
  function CleanFences(s: string): (r: string)
    ensures |r| <= |s|
    ensures !Contains(r, Fence)
    ensures !Contains(r, JsonFence)
  {
    var stripped := Strip(s);
    var noJson := ReplaceAll(stripped, JsonFence, "");
    var r := ReplaceAll(noJson, Fence, "");
    NoFenceSurvives(noJson);
    FenceFreeIsJsonFenceFree(r);
    StripShortens(s);
    r
  }

  lemma StripShortens(s: string)
    ensures |Strip(s)| <= |s|
  {
    var k :| Padded(s, Strip(s), k);
  }

  /** "```json" begins with "```", so text free of the latter is free of the former. */
  lemma FenceFreeIsJsonFenceFree(r: string)
    requires !Contains(r, Fence)
    ensures !Contains(r, JsonFence)
  {
    if Contains(r, JsonFence) {
      ContainsSlice(JsonFence, 0, 3);
      assert JsonFence[0..3] == Fence;
      ContainsTransitive(r, JsonFence, Fence);
    }
  }

  /** If the removal leaves text that starts with a backtick, the input started with one. */
  lemma FirstTick(t: string)
    requires |ReplaceAll(t, Fence, "")| > 0 && ReplaceAll(t, Fence, "")[0] == '`'
    ensures |t| > 0 && t[0] == '`'
  {
    if |t| > 0 && !StartsWith(t, Fence) {
      assert ReplaceAll(t, Fence, "") == [t[0]] + ReplaceAll(t[1..], Fence, "");
    }
  }

  /** If the removal leaves text that starts with two backticks, the input started with two. */
  lemma TwoTicks(t: string)
    requires StartsWith(ReplaceAll(t, Fence, ""), "``")
    ensures StartsWith(t, "``")
  {
    if StartsWith(t, Fence) {
      assert t[0] == Fence[0] && t[1] == Fence[1];
    } else {
      var x := ReplaceAll(t[1..], Fence, "");
      var r := ReplaceAll(t, Fence, "");
      assert r == [t[0]] + x;
      assert r[0] == '`' && r[1] == '`';
      assert x[0] == r[1];
      FirstTick(t[1..]);
    }
    assert t[..2] == [t[0], t[1]];
  }

  /**
   Deleting every "```" cannot glue two leftover backtick runs into a new
   "```": the leftmost scan would have matched such a run earlier.
   */
  lemma {:induction false} NoFenceSurvives(s: string)
    ensures !Contains(ReplaceAll(s, Fence, ""), Fence)
    decreases |s|
  {
    if |s| == 0 {
    } else if StartsWith(s, Fence) {
      NoFenceSurvives(s[3..]);
      assert ReplaceAll(s, Fence, "") == ReplaceAll(s[3..], Fence, "");
    } else {
      var x := ReplaceAll(s[1..], Fence, "");
      var r := [s[0]] + x;
      assert ReplaceAll(s, Fence, "") == r;
      NoFenceSurvives(s[1..]);
      assert r[1..] == x;
      if StartsWith(r, Fence) {
        assert StartsWith(x, "``") by {
          assert x[..2] == r[..3][1..];
        }
        TwoTicks(s[1..]);
        assert false;
      }
    }
  }

  /** Text without backticks contains neither marker. */
  lemma NoBackticksNoMarkers(s: string)
    requires NoBackticks(s)
    ensures !Contains(s, Fence) && !Contains(s, JsonFence)
  {
    NotContainsByMismatch(s, Fence, 0, 0);
    NotContainsByMismatch(s, JsonFence, 0, 0);
  }

  /** A reply with no surrounding whitespace and no backticks passes through unchanged. */
  lemma CleanFencesPassThrough(s: string)
    requires IsStripped(s) && NoBackticks(s)
    ensures CleanFences(s) == s
  {
    if |s| > 0 {
      StripPadding("", s, "");
      assert "" + s + "" == s;
    } else {
      var k :| Padded(s, Strip(s), k);
    }
    NoBackticksNoMarkers(s);
    ReplaceAllPassThrough(s, JsonFence, "");
    ReplaceAllPassThrough(s, Fence, "");
  }

  /** Deleting "```json" from a block removes its opening marker and nothing else. */
  lemma DropJsonFence(x: string)
    requires NoBackticks(x)
    ensures ReplaceAll(JsonFence + x + Fence, JsonFence, "") == x + Fence
  {
    var w := JsonFence + x + Fence;
    assert StartsWith(w, JsonFence);
    assert w[|JsonFence|..] == x + Fence;
    ReplaceAllSkipsPrefix(x, Fence, JsonFence, "");
    NotContainsByMismatch(Fence, JsonFence, 3, 3);
    ReplaceAllPassThrough(Fence, JsonFence, "");
  }

  /** Deleting "```" from a payload followed by the closing marker leaves the payload. */
  lemma DropClosingFence(x: string)
    requires NoBackticks(x)
    ensures ReplaceAll(x + Fence, Fence, "") == x
  {
    ReplaceAllSkipsPrefix(x, Fence, Fence, "");
    assert StartsWith(Fence, Fence);
    assert Fence[3..] == "";
  }

  /** `CleanFences` as its three steps, for a reply whose stripped form and first deletion are known. */
  lemma CleanFencesSteps(s: string, w: string, m: string)
    requires Strip(s) == w
    requires ReplaceAll(w, JsonFence, "") == m
    ensures CleanFences(s) == ReplaceAll(m, Fence, "")
  {
  }

  /** Stripping a block with whitespace around it leaves the block. */
  lemma StripBlock(pre: string, x: string, post: string)
    requires AllSpace(pre) && AllSpace(post)
    ensures Strip(pre + JsonFence + x + Fence + post) == JsonFence + x + Fence
  {
    var w := JsonFence + x + Fence;
    assert pre + JsonFence + x + Fence + post == pre + w + post;
    BlockIsStripped(x);
    StripPadding(pre, w, post);
  }

  /** A block starts and ends with a backtick, which is not whitespace. */
  lemma BlockIsStripped(x: string)
    ensures |JsonFence + x + Fence| > 0 && IsStripped(JsonFence + x + Fence)
  {
    var w := JsonFence + x + Fence;
    assert w[0] == JsonFence[0];
    assert w[|w| - 1] == Fence[2];
  }

  /**
   A payload wrapped in a "```json ... ```" block, with any whitespace
   around the block, comes out as exactly the payload, inner whitespace
   included.
   */
  lemma CleanFencesUnwrapsBlock(pre: string, x: string, post: string)
    requires AllSpace(pre) && AllSpace(post)
    requires NoBackticks(x)
    ensures CleanFences(pre + JsonFence + x + Fence + post) == x
  {
    StripBlock(pre, x, post);
    DropJsonFence(x);
    DropClosingFence(x);
    CleanFencesSteps(pre + JsonFence + x + Fence + post, JsonFence + x + Fence, x + Fence);
  }

  /** A block holding nothing cleans to the empty text. */
  lemma CleanFencesEmptyBlock(reply: string)
    requires reply == "```json```"
    ensures CleanFences(reply) == ""
  {
    var x := reply[..0];
    assert reply == x + JsonFence + x + Fence + x;
    CleanFencesUnwrapsBlock(x, x, x);
  }

  /** A block holding only a space does not clean to the empty text: the inner space survives. */
  lemma CleanFencesBlankBlock(reply: string)
    requires reply == " ```json ``` "
    ensures CleanFences(reply) == " "
  {
    var pre, x, post := reply[..1], reply[8..9], reply[12..];
    assert x == " " && AllSpace(pre) && AllSpace(post) && NoBackticks(x) by {
      assert IsSpace(' ');
    }
    assert reply == pre + JsonFence + x + Fence + post by {
      assert reply == reply[..1] + reply[1..8] + reply[8..9] + reply[9..12] + reply[12..];
    }
    CleanFencesUnwrapsBlock(pre, x, post);
  }

  /** A bare JSON object in a tagged block comes out as the bare object. */
  lemma CleanFencesTaggedObject(reply: string)
    requires reply == "```json{}```"
    ensures CleanFences(reply) == "{}"
  {
    var x := reply[7..9];
    assert reply == "" + JsonFence + x + Fence + "";
    CleanFencesUnwrapsBlock("", x, "");
  }

  /**
   The order of the two deletions matters: deleting "```" first would leave
   the "json" tag of the same reply behind.
   */
  lemma FencesInOtherOrderKeepTag(reply: string)
    requires reply == "```json{}```"
    ensures ReplaceAll(ReplaceAll(reply, Fence, ""), JsonFence, "") == "json{}"
  {
    var tag := reply[3..9];
    assert StartsWith(reply, Fence);
    assert reply[3..] == tag + Fence;
    ReplaceAllSkipsPrefix(tag, Fence, Fence, "");
    assert Fence[3..] == "";
    assert ReplaceAll(reply, Fence, "") == tag;
    NotContainsByMismatch(tag, JsonFence, 0, 0);
    ReplaceAllPassThrough(tag, JsonFence, "");
  }
}
