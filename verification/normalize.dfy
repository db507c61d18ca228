/**
 * The input normaliser `truncate`, identical at both call sites: every
 * whitespace run becomes one space, the result is trimmed, then cut to at most
 * `max` UTF-16 code units. A missing input reads as the empty string.
 */
module Normalize {
  import opened Base
  import opened Text

  /** Character budgets of the three free-text inputs. */
  const MaxCvChars: nat := 6000
  const MaxJdChars: nat := 3000
  const MaxExpChars: nat := 1000

  /** Only plain spaces as whitespace, and never two whitespace characters in a row. */
  predicate IsCollapsed(s: string)
  {
    && (forall i :: 0 <= i < |s| && IsWhitespace(s[i]) ==> s[i] == ' ')
    && (forall i :: 0 < i < |s| ==> !WhitespacePair(s, i))
  }

  /** The characters at `i - 1` and `i` are both whitespace. */
  predicate WhitespacePair(s: string, i: int)
    requires 0 < i < |s|
  {
    IsWhitespace(s[i - 1]) && IsWhitespace(s[i])
  }

  /** The non-whitespace characters of `s`, in order. */
  function Visible(s: string): string
  {
    if s == [] then [] else (if IsWhitespace(s[0]) then [] else [s[0]]) + Visible(s[1..])
  }

  /** `s.replace(/\s+/g, " ")`: every maximal whitespace run becomes one space. */
  function Collapse(s: string): (r: string)
    ensures |r| <= |s|
    ensures r == [] <==> s == []
    decreases |s|
  {
    if s == [] then []
    else if IsWhitespace(s[0]) then " " + Collapse(TrimStart(s))
    else [s[0]] + Collapse(s[1..])
  }

  /** The collapsed, trimmed text that `truncate` cuts from. */
  function Normalized(s: string): string
  {
    Trim(Collapse(s))
  }

  /** `txt ?? ""`: a missing input reads as the empty string. */
  function OrEmpty(txt: Option<string>): string
  {
    if txt.Some? then txt.value else ""
  }

  /** `s.slice(0, end)`: a negative `end` counts back from the end of `s`. */
  function SliceTo(s: string, end: int): (r: string)
    ensures IsPrefix(r, s)
    ensures 0 <= end ==> |r| == Min(end, |s|)
  {
    if end >= |s| then s
    else if end >= 0 then s[..end]
    else if |s| + end >= 0 then s[..|s| + end]
    else []
  }

  /** `(txt ?? "").replace(/\s+/g, " ").trim().slice(0, max)`. */
  function Truncate(txt: Option<string>, max: int): (r: string)
    ensures txt.None? ==> r == ""
    ensures IsPrefix(r, Normalized(OrEmpty(txt)))
    ensures 0 <= max ==> |r| == Min(max, |Normalized(OrEmpty(txt))|)
    ensures 0 <= max ==> |r| <= max
    ensures IsCollapsed(r)
    ensures r == [] || !IsWhitespace(r[0])
  {
    var n := Normalized(OrEmpty(txt));
    var r := SliceTo(n, max);
    NormalizedShape(OrEmpty(txt));
    CollapsedPrefix(n, |r|);
    r
  }

  /** The three inputs after normalisation, as embedded in the prompt. */
  datatype Inputs = Inputs(cvText: string, experienceSummary: string, jobDescription: string)

  predicate WithinCaps(i: Inputs)
  {
    |i.cvText| <= MaxCvChars && |i.experienceSummary| <= MaxExpChars && |i.jobDescription| <= MaxJdChars
  }

  /** Normalises the CV, the experience summary and the job description, each with its own cap. */
  function NormalizeInputs(cv: Option<string>, exp: Option<string>, jd: Option<string>): (r: Inputs)
    ensures WithinCaps(r)
    ensures IsPrefix(r.cvText, Normalized(OrEmpty(cv)))
    ensures IsPrefix(r.experienceSummary, Normalized(OrEmpty(exp)))
    ensures IsPrefix(r.jobDescription, Normalized(OrEmpty(jd)))
    ensures |r.cvText| == Min(MaxCvChars, |Normalized(OrEmpty(cv))|)
    ensures |r.experienceSummary| == Min(MaxExpChars, |Normalized(OrEmpty(exp))|)
    ensures |r.jobDescription| == Min(MaxJdChars, |Normalized(OrEmpty(jd))|)
  {
    Inputs(Truncate(cv, MaxCvChars), Truncate(exp, MaxExpChars), Truncate(jd, MaxJdChars))
  }

  // ---------------------------------------------------------------------------
  // Properties of the whitespace collapse

  lemma {:induction false} CollapseHead(s: string)
    ensures Collapse(s) == [] <==> s == []
    ensures s != [] ==> (IsWhitespace(Collapse(s)[0]) <==> IsWhitespace(s[0]))
  {
  }

  lemma CollapsedSuffix(s: string, i: nat)
    requires IsCollapsed(s) && i <= |s|
    ensures IsCollapsed(s[i..])
  {
    var t := s[i..];
    forall k | 0 < k < |t|
      ensures !WhitespacePair(t, k)
    {
      assert t[k] == s[i + k] && t[k - 1] == s[i + k - 1];
      assert !WhitespacePair(s, i + k);
    }
  }

  lemma CollapsedPrefix(s: string, j: nat)
    requires IsCollapsed(s) && j <= |s|
    ensures IsCollapsed(s[..j])
  {
    var t := s[..j];
    forall k | 0 < k < |t|
      ensures !WhitespacePair(t, k)
    {
      assert !WhitespacePair(s, k);
    }
  }

  /** The collapse leaves only single spaces as whitespace. */
  lemma {:induction false} CollapseIsCollapsed(s: string)
    ensures IsCollapsed(Collapse(s))
    decreases |s|
  {
    if s == [] {
    } else if IsWhitespace(s[0]) {
      var t := TrimStart(s);
      CollapseIsCollapsed(t);
      CollapseHead(t);
      CollapsedCons(' ', Collapse(t));
    } else {
      CollapseIsCollapsed(s[1..]);
      CollapseHead(s[1..]);
      CollapsedCons(s[0], Collapse(s[1..]));
    }
  }

  /** Prepending a visible character, or a space before a visible one, keeps a
      text collapsed. */
  lemma CollapsedCons(c: char, t: string)
    requires IsCollapsed(t)
    requires IsWhitespace(c) ==> c == ' ' && (t == [] || !IsWhitespace(t[0]))
    ensures IsCollapsed([c] + t)
  {
    var r := [c] + t;
    forall k | 0 < k < |r|
      ensures !WhitespacePair(r, k)
    {
      assert r[k] == t[k - 1];
      if k > 1 {
        assert r[k - 1] == t[k - 2];
        assert !WhitespacePair(t, k - 1);
      }
    }
    forall k | 0 <= k < |r| && IsWhitespace(r[k])
      ensures r[k] == ' '
    {
      if k > 0 {
        assert r[k] == t[k - 1];
      }
    }
  }

  /** A visible character is kept as it is. */
  lemma CollapseVisibleHead(c: char, y: string)
    requires !IsWhitespace(c)
    ensures Collapse([c] + y) == [c] + Collapse(y)
  {
    assert ([c] + y)[1..] == y;
  }

  /** A whitespace run between two visible characters becomes exactly one
      space: words are neither merged nor split. */
  lemma CollapseGap(x: string, w: string, y: string)
    requires x == [] || !IsWhitespace(x[|x| - 1])
    requires w != [] && AllWhitespace(w)
    requires y == [] || !IsWhitespace(y[0])
    ensures Collapse(x + w + y) == Collapse(x) + " " + Collapse(y)
  {
    ConcatAssoc(x, w, y);
    ConcatAssoc(Collapse(x), " ", Collapse(y));
    GapBase(w, y);
    CollapseAppend(x, w + y);
  }

  /** Text ending in a visible character collapses independently of what follows. */
  lemma {:induction false} CollapseAppend(x: string, z: string)
    requires x == [] || !IsWhitespace(x[|x| - 1])
    ensures Collapse(x + z) == Collapse(x) + Collapse(z)
    decreases |x|
  {
    if x == [] {
      assert x + z == z;
    } else if !IsWhitespace(x[0]) {
      assert x[1..] == [] || x[1..][|x[1..]| - 1] == x[|x| - 1];
      CollapseAppend(x[1..], z);
      AppendVisibleStep(x, z);
    } else {
      TrimStartKeepsLast(x);
      CollapseAppend(TrimStart(x), z);
      AppendSpaceStep(x, z);
    }
  }

  lemma AppendVisibleStep(x: string, z: string)
    requires x != [] && !IsWhitespace(x[0])
    requires Collapse(x[1..] + z) == Collapse(x[1..]) + Collapse(z)
    ensures Collapse(x + z) == Collapse(x) + Collapse(z)
  {
    assert x == [x[0]] + x[1..];
    GapVisible(x[0], x[1..], z, Collapse(z));
  }

  lemma AppendSpaceStep(x: string, z: string)
    requires x != [] && IsWhitespace(x[0]) && TrimStart(x) != []
    requires Collapse(TrimStart(x) + z) == Collapse(TrimStart(x)) + Collapse(z)
    ensures Collapse(x + z) == Collapse(x) + Collapse(z)
  {
    var xt := TrimStart(x);
    var a := x[..|x| - |xt|];
    TrimStartParts(x);
    assert xt[0] != x[0];
    assert a != [] && AllWhitespace(a);
    GapSpace(a, xt, z, Collapse(z));
  }

  lemma GapBase(w: string, y: string)
    requires w != [] && AllWhitespace(w)
    requires y == [] || !IsWhitespace(y[0])
    ensures Collapse(w + y) == " " + Collapse(y)
  {
    assert IsWhitespace((w + y)[0]);
    TrimStartSkips(w, y);
  }

  /** The step for a leading visible character `c`. */
  lemma GapVisible(c: char, u: string, z: string, m: string)
    requires !IsWhitespace(c)
    requires Collapse(u + z) == Collapse(u) + m
    ensures Collapse([c] + u + z) == Collapse([c] + u) + m
  {
    ConcatAssoc([c], u, z);
    CollapseVisibleHead(c, u + z);
    CollapseVisibleHead(c, u);
    ConcatAssoc([c], Collapse(u), m);
  }

  /** The step for a leading whitespace run `a` before a core `xt` that starts
      with a visible character. */
  lemma GapSpace(a: string, xt: string, z: string, m: string)
    requires a != [] && AllWhitespace(a) && xt != [] && !IsWhitespace(xt[0])
    requires Collapse(xt + z) == Collapse(xt) + m
    ensures Collapse(a + xt + z) == Collapse(a + xt) + m
  {
    ConcatAssoc(a, xt, z);
    TrimStartSkips(a, xt + z);
    TrimStartSkips(a, xt);
    assert (a + xt)[0] == a[0] && (a + (xt + z))[0] == a[0];
    ConcatAssoc(" ", Collapse(xt), m);
  }

  /** A text ending in a visible character keeps it after `TrimStart`. */
  lemma {:induction false} TrimStartKeepsLast(x: string)
    requires x != [] && !IsWhitespace(x[|x| - 1])
    ensures TrimStart(x) != [] && TrimStart(x)[|TrimStart(x)| - 1] == x[|x| - 1]
  {
    var xt := TrimStart(x);
    assert x[..|x|] == x;
    assert !AllWhitespace(x);
    assert |xt| > 0;
    assert xt == x[|x| - |xt|..];
    assert xt[|xt| - 1] == x[|x| - 1];
  }

  lemma {:induction false} VisibleAppend(a: string, b: string)
    ensures Visible(a + b) == Visible(a) + Visible(b)
  {
    if a == [] {
      assert a + b == b;
    } else {
      assert (a + b)[1..] == a[1..] + b;
      VisibleAppend(a[1..], b);
    }
  }

  lemma {:induction false} VisibleOfWhitespace(a: string)
    requires AllWhitespace(a)
    ensures Visible(a) == []
  {
    if a != [] {
      VisibleOfWhitespace(a[1..]);
    }
  }

  /** The collapse keeps every non-whitespace character, in order, and adds none. */
  lemma {:induction false} CollapseKeepsVisible(s: string)
    ensures Visible(Collapse(s)) == Visible(s)
    decreases |s|
  {
    if s == [] {
    } else if IsWhitespace(s[0]) {
      var t := TrimStart(s);
      var a := s[..|s| - |t|];
      assert s == a + t;
      VisibleAppend(a, t);
      VisibleOfWhitespace(a);
      CollapseKeepsVisible(t);
      VisibleAppend(" ", Collapse(t));
    } else {
      CollapseKeepsVisible(s[1..]);
      VisibleAppend([s[0]], Collapse(s[1..]));
    }
  }

  /** Collapsing changes a text exactly when it is not already collapsed. */
  lemma {:induction false} CollapseFixpoint(s: string)
    ensures Collapse(s) == s <==> IsCollapsed(s)
    decreases |s|
  {
    CollapseIsCollapsed(s);
    if IsCollapsed(s) && s != [] {
      CollapsedSuffix(s, 1);
      CollapseFixpoint(s[1..]);
      CollapsedStep(s);
    }
  }

  /** A collapsed text whose tail is left alone is left alone. */
  lemma {:induction false} CollapsedStep(s: string)
    requires IsCollapsed(s) && s != [] && Collapse(s[1..]) == s[1..]
    ensures Collapse(s) == s
  {
    if IsWhitespace(s[0]) {
      CollapsedStepSpace(s);
    } else {
      CollapsedStepVisible(s);
    }
  }

  lemma CollapsedStepSpace(s: string)
    requires IsCollapsed(s) && s != [] && Collapse(s[1..]) == s[1..] && IsWhitespace(s[0])
    ensures Collapse(s) == s
  {
    CollapsedSpaceHead(s);
    assert Collapse(s) == " " + s[1..];
    assert s == [s[0]] + s[1..];
  }

  lemma CollapsedStepVisible(s: string)
    requires s != [] && Collapse(s[1..]) == s[1..] && !IsWhitespace(s[0])
    ensures Collapse(s) == s
  {
    assert Collapse(s) == [s[0]] + s[1..];
    assert s == [s[0]] + s[1..];
  }

  /** In a collapsed text a leading whitespace character is a lone space. */
  lemma CollapsedSpaceHead(s: string)
    requires IsCollapsed(s) && s != [] && IsWhitespace(s[0])
    ensures s[0] == ' ' && TrimStart(s) == s[1..]
  {
    assert |s| > 1 ==> !WhitespacePair(s, 1);
    assert s[1..] == [] || !IsWhitespace(s[1..][0]);
    assert TrimStart(s[1..]) == s[1..];
  }

  /** The normalised text is collapsed and has no whitespace at either end. */
  lemma NormalizedShape(s: string)
    ensures IsCollapsed(Normalized(s)) && WhitespaceFreeEnds(Normalized(s))
  {
    var c := Collapse(s);
    CollapseIsCollapsed(s);
    var t := TrimStart(c);
    CollapsedSuffix(c, |c| - |t|);
    CollapsedPrefix(t, |TrimEnd(t)|);
  }

  // ---------------------------------------------------------------------------
  // Repeated truncation

  /** An empty text stays empty. */
  lemma TruncateBlank(max: int)
    requires 0 <= max
    ensures Truncate(Some(""), max) == ""
  {
    assert Normalized("") == "";
  }

  /** Truncating twice is not truncating once: whenever the cut lands on a
      space, the second pass trims it, e.g. "a b" cut to 2 is "a " and then "a". */
  lemma TruncateNotIdempotent(x: char, y: char)
    requires !IsWhitespace(x) && !IsWhitespace(y)
    ensures Truncate(Some([x, ' ', y]), 2) == [x, ' ']
    ensures Truncate(Some(Truncate(Some([x, ' ', y]), 2)), 2) == [x]
  {
    NormalizedExamples(x, y);
    assert [x, ' ', y][..2] == [x, ' '];
  }

  lemma NormalizedExamples(x: char, y: char)
    requires !IsWhitespace(x) && !IsWhitespace(y)
    ensures Normalized([x, ' ', y]) == [x, ' ', y]
    ensures Normalized([x, ' ']) == [x]
  {
    CollapseExamples(x, y);
    TrimFree([x, ' ', y]);
    TrimOneTrailing(x);
  }

  lemma TrimOneTrailing(x: char)
    requires !IsWhitespace(x)
    ensures Trim([x, ' ']) == [x]
  {
    var s := [x, ' '];
    assert TrimStart(s) == s;
    assert s[..1] == [x];
    assert TrimEnd(s) == TrimEnd([x]) == [x];
  }

  lemma CollapseExamples(x: char, y: char)
    requires !IsWhitespace(x) && !IsWhitespace(y)
    ensures Collapse([x, ' ', y]) == [x, ' ', y]
    ensures Collapse([x, ' ']) == [x, ' ']
  {
    CollapseSpaceThen(y);
    assert [x, ' ', y][1..] == [' ', y];
    CollapseLoneSpace();
    assert [x, ' '][1..] == [' '];
  }

  lemma CollapseSpaceThen(y: char)
    requires !IsWhitespace(y)
    ensures Collapse([' ', y]) == [' ', y]
  {
    assert [' ', y][1..] == [y];
    assert TrimStart([' ', y]) == [y];
    assert [y][1..] == [];
    assert Collapse([y]) == [y];
  }

  lemma CollapseLoneSpace()
    ensures Collapse([' ']) == [' ']
  {
    assert [' '][1..] == [];
    assert TrimStart([' ']) == [];
  }

  /** What a second pass does: on text of the shape `Truncate` always returns
      (collapsed, no leading whitespace, within the cap) it drops at most the
      one trailing space the first cut may have left, and changes nothing else. */
  lemma {:induction false} TruncateTwice(t: string, max: int)
    requires IsCollapsed(t) && (t == [] || !IsWhitespace(t[0])) && |t| <= max
    ensures Truncate(Some(t), max) == TrimEnd(t)
    ensures |t| - |TrimEnd(t)| <= 1
  {
    NormalizedOfCollapsed(t);
    CollapsedTrailingSpace(t);
    SliceWhole(TrimEnd(t), max);
    TruncatePresent(t, max);
  }

  lemma TruncatePresent(s: string, max: int)
    ensures Truncate(Some(s), max) == SliceTo(Normalized(s), max)
  {
  }

  lemma SliceWhole(s: string, end: int)
    requires |s| <= end
    ensures SliceTo(s, end) == s
  {
  }

  /** Normalising text that is already collapsed and starts with a visible
      character only trims its end. */
  lemma NormalizedOfCollapsed(t: string)
    requires IsCollapsed(t) && (t == [] || !IsWhitespace(t[0]))
    ensures Normalized(t) == TrimEnd(t)
  {
    CollapseFixpoint(t);
    TrimStartSkips([], t);
    assert [] + t == t;
  }

  /** A collapsed text ends in at most one whitespace character. */
  lemma CollapsedTrailingSpace(t: string)
    requires IsCollapsed(t)
    ensures |t| - |TrimEnd(t)| <= 1
  {
    if t != [] && IsWhitespace(t[|t| - 1]) {
      var u := t[..|t| - 1];
      if |t| >= 2 {
        assert !WhitespacePair(t, |t| - 1);
        assert u[|u| - 1] == t[|t| - 2];
      }
      assert TrimEnd(t) == TrimEnd(u);
      assert TrimEnd(u) == u;
    }
  }
}
