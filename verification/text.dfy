/**
 * The JavaScript string primitives the application leans on: the `\s`
 * whitespace class and `trim`, `indexOf`/`lastIndexOf`, `Array.prototype.join`
 * and `String.prototype.split`. A `string` holds one `char` per UTF-16 code unit.
 */
module Text {
  import opened Base

  /** ECMAScript WhiteSpace and LineTerminator code points: the class matched by
      the regular-expression escape `\s` and removed by `String.prototype.trim`. */
  predicate IsWhitespace(c: char)
  {
    var u := c as int;
    u == 0x09 || u == 0x0A || u == 0x0B || u == 0x0C || u == 0x0D || u == 0x20
    || u == 0xA0 || u == 0x1680 || (0x2000 <= u <= 0x200A) || u == 0x2028
    || u == 0x2029 || u == 0x202F || u == 0x205F || u == 0x3000 || u == 0xFEFF
  }

  predicate AllWhitespace(s: string)
  {
    forall i :: 0 <= i < |s| ==> IsWhitespace(s[i])
  }

  /** Neither the first nor the last character is whitespace. */
  predicate WhitespaceFreeEnds(s: string)
  {
    s == [] || (!IsWhitespace(s[0]) && !IsWhitespace(s[|s| - 1]))
  }

  /** `String.prototype.trimStart`: the suffix left after the leading whitespace run. */
  function TrimStart(s: string): (r: string)
    ensures |r| <= |s| && r == s[|s| - |r|..]
    ensures AllWhitespace(s[..|s| - |r|])
    ensures r == [] || !IsWhitespace(r[0])
  {
    if s != [] && IsWhitespace(s[0]) then
      var r := TrimStart(s[1..]);
      TrimStartStep(s, r);
      r
    else s
  }

  /** One leading whitespace character more in front of a trimmed suffix. */
  lemma TrimStartStep(s: string, r: string)
    requires s != [] && IsWhitespace(s[0])
    requires |r| <= |s| - 1 && r == s[1..][|s| - 1 - |r|..]
    requires AllWhitespace(s[1..][..|s| - 1 - |r|])
    ensures r == s[|s| - |r|..]
    ensures AllWhitespace(s[..|s| - |r|])
  {
    var k := |s| - |r|;
    forall i | 0 <= i < k
      ensures IsWhitespace(s[i])
    {
      if i > 0 {
        assert s[i] == s[1..][..k - 1][i - 1];
      }
    }
    assert s[k..] == s[1..][k - 1..];
  }

  /** `String.prototype.trimEnd`: the prefix left before the trailing whitespace run. */
  function TrimEnd(s: string): (r: string)
    ensures |r| <= |s| && r == s[..|r|]
    ensures AllWhitespace(s[|r|..])
    ensures r == [] || !IsWhitespace(r[|r| - 1])
  {
    if s != [] && IsWhitespace(s[|s| - 1]) then TrimEnd(s[..|s| - 1]) else s
  }

  /** `String.prototype.trim`. */
  function Trim(s: string): (r: string)
    ensures |r| <= |s|
    ensures WhitespaceFreeEnds(r)
  {
    TrimEnd(TrimStart(s))
  }

  lemma {:induction false} TrimStartSkips(a: string, t: string)
    requires AllWhitespace(a)
    requires t == [] || !IsWhitespace(t[0])
    ensures TrimStart(a + t) == t
  {
    if a == [] {
      assert a + t == t;
    } else {
      assert (a + t)[1..] == a[1..] + t;
      TrimStartSkips(a[1..], t);
    }
  }

  lemma {:induction false} TrimEndSkips(t: string, b: string)
    requires AllWhitespace(b)
    requires t == [] || !IsWhitespace(t[|t| - 1])
    ensures TrimEnd(t + b) == t
  {
    if b == [] {
      assert t + b == t;
    } else {
      var b' := b[..|b| - 1];
      assert (t + b)[..|t + b| - 1] == t + b';
      TrimEndSkips(t, b');
    }
  }

  /** Text with whitespace-free ends is its own trim. */
  lemma TrimFree(m: string)
    requires WhitespaceFreeEnds(m)
    ensures Trim(m) == m
  {
    TrimUnique([], m, []);
    assert [] + m + [] == m;
  }

  /** Trim's result is the unique core `m` of `a + m + b` with whitespace `a`, `b`
      and no whitespace at either end of `m`. */
  lemma TrimUnique(a: string, m: string, b: string)
    requires AllWhitespace(a) && AllWhitespace(b)
    requires WhitespaceFreeEnds(m)
    ensures Trim(a + m + b) == m
  {
    if m == [] {
      assert a + m + b == (a + b) + [];
      TrimStartSkips(a + b, []);
    } else {
      assert a + m + b == a + (m + b);
      TrimStartSkips(a, m + b);
      TrimEndSkips(m, b);
    }
  }

  /** Trimming text that has a non-whitespace core `j` only trims the pieces around `j`. */
  lemma TrimAround(x: string, j: string, y: string)
    requires j != [] && WhitespaceFreeEnds(j)
    ensures Trim(x + j + y) == TrimStart(x) + j + TrimEnd(y)
  {
    var xs, ye := TrimStart(x), TrimEnd(y);
    var a, b := x[..|x| - |xs|], y[|ye|..];
    TrimStartParts(x);
    TrimEndParts(y);
    FreeEndsAround(xs, j, ye);
    Regroup5(a, xs, j, ye, b);
    TrimUnique(a, xs + j + ye, b);
  }

  lemma TrimStartParts(x: string)
    ensures x == x[..|x| - |TrimStart(x)|] + TrimStart(x)
  {
  }

  lemma TrimEndParts(y: string)
    ensures y == TrimEnd(y) + y[|TrimEnd(y)|..]
  {
  }

  lemma FreeEndsAround(xs: string, j: string, ye: string)
    requires j != [] && WhitespaceFreeEnds(j)
    requires xs == [] || !IsWhitespace(xs[0])
    requires ye == [] || !IsWhitespace(ye[|ye| - 1])
    ensures WhitespaceFreeEnds(xs + j + ye)
  {
    var m := xs + j + ye;
    assert m[0] == if xs == [] then j[0] else xs[0];
    assert m[|m| - 1] == if ye == [] then j[|j| - 1] else ye[|ye| - 1];
  }

  lemma Regroup5(a: string, xs: string, j: string, ye: string, b: string)
    ensures (a + xs) + j + (ye + b) == a + (xs + j + ye) + b
  {
  }

  /** `a` is a prefix of `b`. */
  predicate IsPrefix(a: string, b: string)
  {
    |a| <= |b| && a == b[..|a|]
  }

  /** `s.indexOf(c)`: the first position of `c`, or -1. */
  function IndexOf(s: string, c: char): (r: int)
    ensures -1 <= r < |s|
    ensures r == -1 <==> c !in s
    ensures 0 <= r ==> s[r] == c && c !in s[..r]
  {
    if s == [] then -1
    else if s[0] == c then 0
    else
      var k := IndexOf(s[1..], c);
      if k == -1 then -1
      else
        assert s[..k + 1] == [s[0]] + s[1..][..k];
        k + 1
  }

  /** `s.lastIndexOf(c)`: the last position of `c`, or -1. */
  function LastIndexOf(s: string, c: char): (r: int)
    ensures -1 <= r < |s|
    ensures r == -1 <==> c !in s
    ensures 0 <= r ==> s[r] == c && c !in s[r + 1..]
  {
    if s == [] then -1
    else if s[|s| - 1] == c then |s| - 1
    else
      var k := LastIndexOf(s[..|s| - 1], c);
      if k == -1 then
        assert s == s[..|s| - 1] + [s[|s| - 1]];
        -1
      else
        assert s[k + 1..] == s[..|s| - 1][k + 1..] + [s[|s| - 1]];
        k
  }

  /** `indexOf` finds nothing in a prefix that lacks `c`, and continues into the rest. */
  lemma {:induction false} IndexOfConcat(a: string, b: string, c: char)
    requires c !in a
    ensures IndexOf(a + b, c) == if c in b then |a| + IndexOf(b, c) else -1
  {
    if a == [] {
      assert a + b == b;
    } else {
      assert a[0] in a;
      assert (a + b)[1..] == a[1..] + b;
      IndexOfConcat(a[1..], b, c);
    }
  }

  /** `lastIndexOf` ignores a suffix that lacks `c`. */
  lemma {:induction false} LastIndexOfConcat(a: string, b: string, c: char)
    requires c !in b
    ensures LastIndexOf(a + b, c) == LastIndexOf(a, c)
  {
    if b == [] {
      assert a + b == a;
    } else {
      var b' := b[..|b| - 1];
      assert b[|b| - 1] in b;
      assert (a + b)[..|a + b| - 1] == a + b';
      LastIndexOfConcat(a, b', c);
    }
  }

  /** Every occurrence of `c` is at or after `indexOf`. */
  lemma {:induction false} IndexOfFirst(s: string, c: char, i: nat)
    requires i < |s| && s[i] == c
    ensures 0 <= IndexOf(s, c) <= i
  {
    if s[0] != c {
      IndexOfFirst(s[1..], c, i - 1);
    }
  }

  /** Every occurrence of `c` is at or before `lastIndexOf`. */
  lemma {:induction false} LastIndexOfLast(s: string, c: char, j: nat)
    requires j < |s| && s[j] == c
    ensures j <= LastIndexOf(s, c)
  {
    if s[|s| - 1] != c {
      LastIndexOfLast(s[..|s| - 1], c, j);
    }
  }

  /** `t` occurs in `s` starting at position `i`. */
  predicate OccursAt(s: string, t: string, i: int)
  {
    0 <= i && i + |t| <= |s| && s[i..i + |t|] == t
  }

  /** `s.indexOf(t)` for a non-empty `t`: the first position where `t` occurs, or -1. */
  function IndexOfSub(s: string, t: string): (r: int)
    requires |t| > 0
    ensures -1 <= r <= |s|
    ensures 0 <= r ==> OccursAt(s, t, r)
    ensures forall i :: 0 <= i < (if r < 0 then |s| else r) ==> !OccursAt(s, t, i)
    decreases |s|
  {
    if |s| < |t| then -1
    else if s[..|t|] == t then 0
    else
      var k := IndexOfSub(s[1..], t);
      OccursShift(s, t);
      assert s[0..|t|] == s[..|t|];
      assert !OccursAt(s, t, 0);
      if k < 0 then -1 else k + 1
  }

  lemma OccursShift(s: string, t: string)
    requires s != []
    ensures forall i :: 1 <= i < |s| ==> (OccursAt(s, t, i) <==> OccursAt(s[1..], t, i - 1))
  {
    forall i | 1 <= i < |s|
      ensures OccursAt(s, t, i) <==> OccursAt(s[1..], t, i - 1)
    {
      if i + |t| <= |s| {
        SliceOfTail(s, i - 1, i - 1 + |t|);
      }
    }
  }

  lemma SliceOfTail(s: string, i: nat, j: nat)
    requires s != [] && i <= j <= |s| - 1
    ensures s[1..][i..j] == s[i + 1..j + 1]
  {
  }

  /** `Array.prototype.join` on a list of strings. */
  function Join(xs: seq<string>, sep: string): (r: string)
    ensures |xs| > 0 ==> |r| == TotalLength(xs) + (|xs| - 1) * |sep|
  {
    if |xs| == 0 then ""
    else if |xs| == 1 then xs[0]
    else xs[0] + sep + Join(xs[1..], sep)
  }

  /** The summed lengths of the items. */
  function TotalLength(xs: seq<string>): nat
  {
    if xs == [] then 0 else |xs[0]| + TotalLength(xs[1..])
  }

  /** `String.prototype.split` with a non-empty separator string. */
  function Split(s: string, sep: string): (r: seq<string>)
    requires |sep| > 0
    ensures |r| > 0
    decreases |s|
  {
    var i := IndexOfSub(s, sep);
    if i < 0 then [s] else [s[..i]] + Split(s[i + |sep|..], sep)
  }

  /** Joining two non-empty lists is joining their joins. */
  lemma {:induction false} JoinConcat(a: seq<string>, b: seq<string>, sep: string)
    requires |a| > 0 && |b| > 0
    ensures Join(a + b, sep) == Join(a, sep) + sep + Join(b, sep)
  {
    if |a| == 1 {
      assert (a + b)[1..] == b;
    } else {
      assert (a + b)[1..] == a[1..] + b;
      JoinConcat(a[1..], b, sep);
    }
  }

  /** The character `sep[p]` occurs in `sep` only at position `p`. */
  predicate UniqueMarker(sep: string, p: nat)
  {
    p < |sep| && forall q :: 0 <= q < |sep| && q != p ==> sep[q] != sep[p]
  }

  lemma FirstSeparator(x: string, sep: string, rest: string, p: nat)
    requires UniqueMarker(sep, p) && sep[p] !in x
    ensures IndexOfSub(x + sep + rest, sep) == |x|
  {
    var s := x + sep + rest;
    assert s[|x|..|x| + |sep|] == sep;
    assert OccursAt(s, sep, |x|);
    forall i | 0 <= i < |x|
      ensures !OccursAt(s, sep, i)
    {
      if i + |sep| <= |s| {
        var q := i + p;
        assert s[i..i + |sep|][p] == s[q];
        if q < |x| {
          assert s[q] == x[q];
        } else {
          assert s[q] == sep[q - |x|];
        }
      }
    }
  }

  lemma NoSeparator(x: string, sep: string, p: nat)
    requires UniqueMarker(sep, p) && sep[p] !in x
    ensures IndexOfSub(x, sep) == -1
  {
    forall i | 0 <= i
      ensures !OccursAt(x, sep, i)
    {
      if i + |sep| <= |x| {
        assert x[i..i + |sep|][p] == x[i + p];
      }
    }
  }

  /** Splitting a join gives the list back, when the separator has a marker
      character `sep[p]` that no item contains. */
  lemma {:induction false} SplitJoin(xs: seq<string>, sep: string, p: nat)
    requires |xs| > 0 && UniqueMarker(sep, p)
    requires forall k :: 0 <= k < |xs| ==> sep[p] !in xs[k]
    ensures Split(Join(xs, sep), sep) == xs
  {
    if |xs| == 1 {
      NoSeparator(xs[0], sep, p);
    } else {
      var rest := Join(xs[1..], sep);
      var s := xs[0] + sep + rest;
      FirstSeparator(xs[0], sep, rest, p);
      assert s[..|xs[0]|] == xs[0];
      assert s[|xs[0]| + |sep|..] == rest;
      SplitJoin(xs[1..], sep, p);
    }
  }

  /** A text free of the separator character is the first piece of the split. */
  lemma SplitAtFirst(x: string, c: char, rest: string)
    requires c !in x
    ensures Split(x + [c] + rest, [c]) == [x] + Split(rest, [c])
  {
    assert UniqueMarker([c], 0);
    var s := x + [c] + rest;
    FirstSeparator(x, [c], rest, 0);
    assert s[..|x|] == x;
    assert s[|x| + 1..] == rest;
  }

  /** A text free of the separator character is not split. */
  lemma SplitPlain(x: string, c: char)
    requires c !in x
    ensures Split(x, [c]) == [x]
  {
    assert UniqueMarker([c], 0);
    NoSeparator(x, [c], 0);
  }

  /** Splitting at a one-character separator between two texts splits each text on its own. */
  lemma {:induction false} SplitAround(x: string, y: string, c: char)
    ensures Split(x + [c] + y, [c]) == Split(x, [c]) + Split(y, [c])
    decreases |x|
  {
    if c !in x {
      SplitAtFirst(x, c, y);
      SplitPlain(x, c);
    } else {
      var i := IndexOf(x, c);
      var x1, x2 := x[..i], x[i + 1..];
      assert x == x1 + [c] + x2 by {
        assert x[i] == c;
      }
      Regroup(x1, [c], x2, y);
      SplitAtFirst(x1, c, x2);
      SplitAtFirst(x1, c, x2 + [c] + y);
      SplitAround(x2, y, c);
      var s2, sy := Split(x2, [c]), Split(y, [c]);
      assert Split(x, [c]) == [x1] + s2;
      assert Split(x + [c] + y, [c]) == [x1] + (s2 + sy);
      ConcatAssoc([x1], s2, sy);
    }
  }

  lemma Regroup(a: string, sep: string, b: string, c: string)
    ensures (a + sep + b) + sep + c == a + sep + (b + sep + c)
  {
  }

  /** Each text of a list split on its own, the pieces in order. */
  function SplitEach(xs: seq<string>, sep: string): seq<string>
    requires |sep| > 0
  {
    if xs == [] then [] else Split(xs[0], sep) + SplitEach(xs[1..], sep)
  }

  /** Splitting a join on a one-character separator splits each item on its own,
      whatever the items contain. */
  lemma {:induction false} SplitJoinEach(xs: seq<string>, c: char)
    requires |xs| > 0
    ensures Split(Join(xs, [c]), [c]) == SplitEach(xs, [c])
  {
    if |xs| == 1 {
      assert xs[1..] == [];
      assert Split(xs[0], [c]) + [] == Split(xs[0], [c]);
    } else {
      SplitJoinEach(xs[1..], c);
      SplitAround(xs[0], Join(xs[1..], [c]), c);
    }
  }

  lemma {:induction false} SplitEachAppend(a: seq<string>, b: seq<string>, sep: string)
    requires |sep| > 0
    ensures SplitEach(a + b, sep) == SplitEach(a, sep) + SplitEach(b, sep)
  {
    if a == [] {
      assert a + b == b;
    } else {
      assert (a + b)[1..] == a[1..] + b;
      SplitEachAppend(a[1..], b, sep);
    }
  }

  /** Items without the separator character split into themselves. */
  lemma {:induction false} SplitEachPlain(xs: seq<string>, c: char)
    requires forall k :: 0 <= k < |xs| ==> c !in xs[k]
    ensures SplitEach(xs, [c]) == xs
  {
    if xs != [] {
      SplitPlain(xs[0], c);
      SplitEachPlain(xs[1..], c);
    }
  }
}
