/**
 * Markdown fence removal, the first step of both JSON extractors:
 * `raw.replace(/```(?:json)?/gi, "")`. The regular expression is scanned left
 * to right; at each position it matches three backticks, followed greedily by
 * `json` in any letter case, and the scan resumes after the match.
 */
module Fences {
  import opened Base
  import opened Text

  /** Three backticks start at position `i`. */
  predicate FenceAt(s: string, i: int)
  {
    0 <= i && i + 3 <= |s| && s[i] == '`' && s[i + 1] == '`' && s[i + 2] == '`'
  }

  /** `s` contains no three consecutive backticks. */
  predicate NoFence(s: string)
  {
    forall i :: 0 <= i < |s| ==> !FenceAt(s, i)
  }

  /** `json` in any letter case. Under the `i` flag without `u`, only these eight
      ASCII letters fold onto the letters of `json`. */
  predicate IsJsonTag(t: string)
  {
    |t| == 4 && t[0] in "jJ" && t[1] in "sS" && t[2] in "oO" && t[3] in "nN"
  }

  /** Length of the marker matched at the start of `s`: the optional `json` group is greedy. */
  function MarkerLength(s: string): (n: nat)
    requires FenceAt(s, 0)
    ensures n <= |s|
    ensures n == 3 || n == 7
    ensures n == 7 <==> |s| >= 7 && IsJsonTag(s[3..7])
  {
    if |s| >= 7 && IsJsonTag(s[3..7]) then 7 else 3
  }

  /** `s.replace(/```(?:json)?/gi, "")`. */
  function StripFences(s: string): (r: string)
    ensures |r| <= |s|
    decreases |s|
  {
    if s == [] then []
    else if FenceAt(s, 0) then StripFences(s[MarkerLength(s)..])
    else [s[0]] + StripFences(s[1..])
  }

  /** Three backticks followed by `json` in any letter case are removed together. */
  lemma StripTaggedMarker(t: string, y: string)
    requires IsJsonTag(t)
    ensures StripFences("```" + t + y) == StripFences(y)
  {
    var s := "```" + t + y;
    assert FenceAt(s, 0);
    assert s[3..7] == t;
    assert s[7..] == y;
  }

  /** The tag's letter case does not matter: ```` ```JSON ```` and ```` ```Json ```` go whole. */
  lemma StripUppercaseMarker(y: string)
    ensures StripFences("```" + "JSON" + y) == StripFences(y)
    ensures StripFences("```" + "Json" + y) == StripFences(y)
  {
    assert IsJsonTag("JSON") && IsJsonTag("Json");
    StripTaggedMarker("JSON", y);
    StripTaggedMarker("Json", y);
  }

  /** Three backticks not followed by a `json` tag are removed alone. */
  lemma StripBareMarker(y: string)
    requires !(|y| >= 4 && IsJsonTag(y[..4]))
    ensures StripFences("```" + y) == StripFences(y)
  {
    var s := "```" + y;
    assert FenceAt(s, 0) && s[3..] == y;
    StripShortMarker(s, y);
  }

  lemma StripShortMarker(s: string, y: string)
    requires FenceAt(s, 0) && s[3..] == y
    requires !(|y| >= 4 && IsJsonTag(y[..4]))
    ensures StripFences(s) == StripFences(y)
  {
    assert |s| >= 7 ==> s[3..7] == y[..4];
    assert MarkerLength(s) == 3;
  }

  /** `a` can be obtained from `b` by deleting characters. */
  predicate IsSubsequence(a: string, b: string)
    decreases |b|
  {
    if a == [] then true
    else if b == [] then false
    else (a[0] == b[0] && IsSubsequence(a[1..], b[1..])) || IsSubsequence(a, b[1..])
  }

  // ---------------------------------------------------------------------------
  // No marker survives

  lemma HeadTick(t: string)
    ensures StripFences(t) != [] && StripFences(t)[0] == '`' ==> t != [] && t[0] == '`'
  {
  }

  lemma HeadTicks(t: string)
    ensures var r := StripFences(t);
      |r| >= 2 && r[0] == '`' && r[1] == '`' ==> |t| >= 2 && t[0] == '`' && t[1] == '`'
  {
    if t != [] && !FenceAt(t, 0) {
      HeadTick(t[1..]);
      assert StripFences(t) == [t[0]] + StripFences(t[1..]);
    }
  }

  /** Every triple backtick is removed, including any that deleting a marker
      might seem to bring together. */
  lemma {:induction false} StripFencesLeavesNoFence(s: string)
    ensures NoFence(StripFences(s))
    decreases |s|
  {
    if s == [] {
    } else if FenceAt(s, 0) {
      StripFencesLeavesNoFence(s[MarkerLength(s)..]);
    } else {
      var rest := StripFences(s[1..]);
      var r := [s[0]] + rest;
      StripFencesLeavesNoFence(s[1..]);
      HeadTicks(s[1..]);
      forall i | 0 <= i < |r|
        ensures !FenceAt(r, i)
      {
        if i > 0 {
          assert FenceAt(r, i) == FenceAt(rest, i - 1);
        } else if |r| >= 3 {
          assert r[1] == rest[0] && r[2] == rest[1];
        }
      }
    }
  }

  // ---------------------------------------------------------------------------
  // Nothing but markers is removed

  lemma {:induction false} SubsequenceOfSuffix(a: string, b: string, k: nat)
    requires k <= |b| && IsSubsequence(a, b[k..])
    ensures IsSubsequence(a, b)
    decreases k
  {
    if k > 0 {
      assert b[1..][k - 1..] == b[k..];
      SubsequenceOfSuffix(a, b[1..], k - 1);
      assert a == [] || IsSubsequence(a, b[1..]);
    }
  }

  /** The characters that survive keep their relative order. */
  lemma {:induction false} StripFencesIsSubsequence(s: string)
    ensures IsSubsequence(StripFences(s), s)
    decreases |s|
  {
    if s == [] {
    } else if FenceAt(s, 0) {
      StripFencesIsSubsequence(s[MarkerLength(s)..]);
      SubsequenceOfSuffix(StripFences(s), s, MarkerLength(s));
    } else {
      StripFencesIsSubsequence(s[1..]);
      var r := [s[0]] + StripFences(s[1..]);
      assert r[0] == s[0] && r[1..] == StripFences(s[1..]);
    }
  }

  /** Characters that can be part of a marker. */
  const MarkerChars: string := "`jsonJSON"

  lemma {:induction false} CountAbsent(t: string, c: char)
    requires c !in t
    ensures Count(t, c) == 0
  {
    if t != [] {
      CountAbsent(t[1..], c);
    }
  }

  /** Every character that cannot belong to a marker survives: braces, quotes
      and line breaks are neither lost nor added. */
  lemma {:induction false} StripFencesKeepsOtherChars(s: string, c: char)
    requires c !in MarkerChars
    ensures Count(StripFences(s), c) == Count(s, c)
    decreases |s|
  {
    if s == [] {
    } else if FenceAt(s, 0) {
      var m := MarkerLength(s);
      StripFencesKeepsOtherChars(s[m..], c);
      assert s == s[..m] + s[m..];
      CountAppend(s[..m], s[m..], c);
      assert forall k :: 0 <= k < m ==> s[..m][k] in MarkerChars;
      CountAbsent(s[..m], c);
    } else {
      StripFencesKeepsOtherChars(s[1..], c);
      CountAppend([s[0]], StripFences(s[1..]), c);
    }
  }

  // ---------------------------------------------------------------------------
  // Text without markers

  /** Text without a triple backtick is left alone. */
  lemma {:induction false} StripFencesIdentity(s: string)
    requires NoFence(s)
    ensures StripFences(s) == s
    decreases |s|
  {
    if s != [] {
      assert !FenceAt(s, 0);
      assert forall i :: 0 <= i < |s| - 1 ==> FenceAt(s[1..], i) == FenceAt(s, i + 1);
      StripFencesIdentity(s[1..]);
    }
  }

  /** Fence stripping changes a text exactly when it holds a triple backtick, so
      stripping twice is stripping once. */
  lemma StripFencesFixpoint(s: string)
    ensures StripFences(s) == s <==> NoFence(s)
    ensures StripFences(StripFences(s)) == StripFences(s)
  {
    StripFencesLeavesNoFence(s);
    if NoFence(s) {
      StripFencesIdentity(s);
    }
    StripFencesIdentity(StripFences(s));
  }

  /** A marker-free prefix that does not end in a backtick passes through unchanged,
      and the scan of the rest is unaffected by it. */
  lemma {:induction false} StripFencesPrefix(x: string, y: string)
    requires NoFence(x) && (x == [] || x[|x| - 1] != '`')
    ensures StripFences(x + y) == x + StripFences(y)
    decreases |x|
  {
    if x == [] {
      assert x + y == y;
    } else {
      var s := x + y;
      NoFenceHead(x, y);
      assert s[1..] == x[1..] + y;
      NoFenceSuffix(x, 1);
      StripFencesPrefix(x[1..], y);
      assert StripFences(s) == [x[0]] + (x[1..] + StripFences(y));
      ConcatAssoc([x[0]], x[1..], StripFences(y));
      assert [x[0]] + x[1..] == x;
    }
  }

  /** No marker starts at the head of a marker-free text that does not end in a
      backtick, whatever follows it. */
  lemma NoFenceHead(x: string, y: string)
    requires NoFence(x) && x != [] && x[|x| - 1] != '`'
    ensures !FenceAt(x + y, 0)
  {
    if |x| >= 3 {
      assert !FenceAt(x, 0);
      assert (x + y)[0] == x[0] && (x + y)[1] == x[1] && (x + y)[2] == x[2];
    } else {
      assert (x + y)[|x| - 1] == x[|x| - 1];
    }
  }

  lemma NoFenceSuffix(s: string, i: nat)
    requires NoFence(s) && i <= |s|
    ensures NoFence(s[i..])
  {
    var t := s[i..];
    forall k | 0 <= k < |t|
      ensures !FenceAt(t, k)
    {
      if k + 3 <= |t| {
        assert t[k] == s[i + k] && t[k + 1] == s[i + k + 1] && t[k + 2] == s[i + k + 2];
        assert !FenceAt(s, i + k);
      }
    }
  }

  lemma NoFencePrefix(s: string, j: nat)
    requires NoFence(s) && j <= |s|
    ensures NoFence(s[..j])
  {
    var t := s[..j];
    forall k | 0 <= k < |t|
      ensures !FenceAt(t, k)
    {
      if k + 3 <= |t| {
        assert !FenceAt(s, k);
      }
    }
  }

  /** Joining two marker-free texts with a non-backtick character creates no marker. */
  lemma NoFenceAround(a: string, c: char, b: string)
    requires NoFence(a) && NoFence(b) && c != '`'
    ensures NoFence(a + [c] + b)
  {
    var s := a + [c] + b;
    forall i | 0 <= i < |s|
      ensures !FenceAt(s, i)
    {
      if i + 3 <= |a| {
        assert FenceAt(s, i) == FenceAt(a, i);
      } else if i > |a| {
        assert FenceAt(s, i) == FenceAt(b, i - |a| - 1);
      } else {
        assert s[|a|] == c;
      }
    }
  }

  /** A text with no backtick at all holds no marker. */
  lemma NoFenceWithoutTicks(s: string)
    requires '`' !in s
    ensures NoFence(s)
  {
    forall i | 0 <= i < |s|
      ensures !FenceAt(s, i)
    {
      assert s[i] in s;
    }
  }
}
