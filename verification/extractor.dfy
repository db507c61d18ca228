/**
 * The tolerant JSON extractor `safeJsonParse`, in its two variants. Both strip
 * Markdown fences, trim, and cut the text from the first `{` through the last
 * `}`. The server hands that slice to `JSON.parse` as it is; the browser first
 * escapes raw line breaks inside string literals. `JSON.parse` itself is a
 * parameter: a function from the candidate text to a value or a diagnostic.
 */
module Extractor {
  import opened Base
  import opened Text
  import opened Fences
  import opened NewlineRepair

  /** Why extraction failed: no brace pair, or the parser refused the candidate. */
  datatype ExtractError = NoJsonObjectFound | InvalidJson(diagnostic: string)

  /** The `message` of the error the extractor throws. */
  function Message(e: ExtractError): (m: string)
    ensures e.NoJsonObjectFound? ==> m == "No JSON object found"
    ensures e.InvalidJson? ==> m == e.diagnostic
  {
    match e
    case NoJsonObjectFound => "No JSON object found"
    case InvalidJson(d) => d
  }

  /** The text after fence removal and trimming. */
  function Cleaned(raw: string): (c: string)
    ensures NoFence(c)
    ensures WhitespaceFreeEnds(c)
  {
    StripFencesLeavesNoFence(raw);
    TrimmedNoFence(StripFences(raw));
    Trim(StripFences(raw))
  }

  /** Trimming fence-free text keeps it fence-free. */
  lemma TrimmedNoFence(s: string)
    requires NoFence(s)
    ensures NoFence(Trim(s))
  {
    var t := TrimStart(s);
    NoFenceSuffix(s, |s| - |t|);
    NoFencePrefix(t, |TrimEnd(t)|);
  }

  /** Starts with `{` and ends with `}`. */
  predicate IsFramed(v: string)
  {
    |v| >= 2 && v[0] == '{' && v[|v| - 1] == '}'
  }

  /** Some `{` comes before some `}`. */
  predicate HasBracePair(c: string)
  {
    exists i, j :: 0 <= i < j < |c| && c[i] == '{' && c[j] == '}'
  }

  /** `v` sits inside `c` with no `{` before it and no `}` after it. */
  predicate Encloses(c: string, v: string)
  {
    exists i :: 0 <= i <= |c| - |v| && c[i..i + |v|] == v && '{' !in c[..i] && '}' !in c[i + |v|..]
  }

  /** The brace slice of the cleaned text, or "No JSON object found". */
  function Locate(c: string): (r: Result<string, ExtractError>)
    ensures r.Err? ==> r.error == NoJsonObjectFound
    ensures r.Ok? ==> IsFramed(r.value) && Encloses(c, r.value)
  {
    var first := IndexOf(c, '{');
    var last := LastIndexOf(c, '}');
    if first == -1 || last == -1 || last <= first then Err(NoJsonObjectFound)
    else
      var v := c[first..last + 1];
      assert c[first..first + |v|] == v;
      Ok(v)
  }

  /** The slice handed to `JSON.parse` by the server, and before repair by the browser. */
  function Candidate(raw: string): (r: Result<string, ExtractError>)
    ensures r.Err? <==> !HasBracePair(Cleaned(raw))
    ensures r.Err? ==> r.error == NoJsonObjectFound
    ensures r.Ok? ==> IsFramed(r.value) && Encloses(Cleaned(raw), r.value)
  {
    LocateFails(Cleaned(raw));
    Locate(Cleaned(raw))
  }

  /** The server variant: the slice goes to the parser unchanged. */
  function ServerParse<V>(raw: string, parse: string -> Result<V, string>): (r: Result<V, ExtractError>)
    ensures Candidate(raw).Err? ==> r == Err(NoJsonObjectFound)
    ensures Candidate(raw).Ok? ==> r == Parsed(parse(Candidate(raw).value))
  {
    match Candidate(raw)
    case Err(e) => Err(e)
    case Ok(j) => Parsed(parse(j))
  }

  /** The browser's candidate as the page computes it: the slice after the
      line-break repair loop, with its flag tracking as written. */
  function BrowserCandidateAsWritten(raw: string): (r: Result<string, ExtractError>)
    ensures r.Err? <==> Candidate(raw).Err?
    ensures r.Err? ==> r.error == NoJsonObjectFound
    ensures r.Ok? ==> Clean(r.value, false, false)
    ensures r.Ok? && '\n' !in Candidate(raw).value && '\r' !in Candidate(raw).value ==> r.value == Candidate(raw).value
  {
    match Candidate(raw)
    case Err(e) => Err(e)
    case Ok(j) =>
      ScanCleans(j, false, false);
      assert '\n' !in j && '\r' !in j ==> Repair(j) == j by {
        if '\n' !in j && '\r' !in j {
          RepairWithoutLineBreaks(j);
        }
      }
      Ok(Repair(j))
  }

  /** The browser variant as the page runs it: the slice, repaired as written,
      goes to the parser. */
  function BrowserParseAsWritten<V>(raw: string, parse: string -> Result<V, string>): (r: Result<V, ExtractError>)
    ensures Candidate(raw).Err? ==> r == Err(NoJsonObjectFound)
    ensures Candidate(raw).Ok? ==> r == Parsed(parse(BrowserCandidateAsWritten(raw).value))
  {
    match BrowserCandidateAsWritten(raw)
    case Err(e) => Err(e)
    case Ok(j) => Parsed(parse(j))
  }

  /** The corrected browser candidate: the slice after the line-break repair
      that tracks escapes as a JSON lexer does. */
  function BrowserCandidate(raw: string): (r: Result<string, ExtractError>)
    ensures r.Err? <==> Candidate(raw).Err?
    ensures r.Err? ==> r.error == NoJsonObjectFound
    ensures r.Ok? ==> JsonClean(r.value, false, false)
  {
    match Candidate(raw)
    case Err(e) => Err(e)
    case Ok(j) =>
      ScanJsonCleans(j, false, false);
      Ok(RepairJson(j))
  }

  /** The corrected browser variant: the slice, repaired by the corrected pass,
      goes to the parser. */
  function BrowserParse<V>(raw: string, parse: string -> Result<V, string>): (r: Result<V, ExtractError>)
    ensures BrowserCandidate(raw).Err? ==> r == Err(NoJsonObjectFound)
    ensures BrowserCandidate(raw).Ok? ==> r == Parsed(parse(BrowserCandidate(raw).value))
  {
    match BrowserCandidate(raw)
    case Err(e) => Err(e)
    case Ok(j) => Parsed(parse(j))
  }

  /** A parser refusal, wrapped as an extraction error. */
  function Parsed<V>(p: Result<V, string>): Result<V, ExtractError>
  {
    match p
    case Ok(v) => Ok(v)
    case Err(d) => Err(InvalidJson(d))
  }

  // ---------------------------------------------------------------------------
  // The brace slice

  /** Extraction fails exactly when no `{` comes before a `}`; equivalently, as
      the extractor tests it, when a brace is missing or the last `}` is at or
      before the first `{`. */
  lemma LocateFails(c: string)
    ensures Locate(c).Err? <==> !HasBracePair(c)
    ensures Locate(c).Err? <==> ('{' !in c || '}' !in c || LastIndexOf(c, '}') <= IndexOf(c, '{'))
  {
    var first := IndexOf(c, '{');
    var last := LastIndexOf(c, '}');
    if HasBracePair(c) {
      var i, j :| 0 <= i < j < |c| && c[i] == '{' && c[j] == '}';
      IndexOfFirst(c, '{', i);
      LastIndexOfLast(c, '}', j);
    }
    if first >= 0 && last > first {
      assert c[first] == '{' && c[last] == '}';
    }
  }

  /** The slice is determined by its surroundings: whatever precedes a framed
      `j` without a `{`, and follows it without a `}`, is cut away. */
  lemma LocateUnique(a: string, j: string, b: string)
    requires IsFramed(j) && '{' !in a && '}' !in b
    ensures Locate(a + j + b) == Ok(j)
  {
    var c := a + j + b;
    assert c == a + (j + b);
    assert (j + b)[0] == '{';
    IndexOfConcat(a, j + b, '{');
    assert c == (a + j) + b;
    assert (a + j)[|a + j| - 1] == '}';
    LastIndexOfConcat(a + j, b, '}');
    assert c[|a|..|a| + |j|] == j;
  }

  // ---------------------------------------------------------------------------
  // Round trips

  /** An opening ```` ```json ```` marker is removed whole. */
  lemma StripOpening(x: string)
    ensures StripFences("```json" + x) == StripFences(x)
  {
    var s := "```json" + x;
    assert FenceAt(s, 0);
    assert s[3..7] == "json";
    assert MarkerLength(s) == 7;
    assert s[7..] == x;
  }

  /** A closing ```` ``` ```` marker is removed, and prose after it that starts
      with neither `j` nor `J` and holds no backtick is kept. */
  lemma StripClosing(q: string)
    requires '`' !in q && (q == [] || (q[0] != 'j' && q[0] != 'J'))
    ensures StripFences("```" + q) == q
  {
    var s := "```" + q;
    assert FenceAt(s, 0);
    assert |s| >= 7 ==> s[3] == q[0];
    assert MarkerLength(s) == 3;
    assert s[3..] == q;
    NoFenceWithoutTicks(q);
    StripFencesIdentity(q);
  }

  /** A marker-free object between two line breaks holds no marker. */
  lemma FramedLines(j: string)
    requires NoFence(j)
    ensures NoFence("\n" + j + "\n")
  {
    NoFenceAround([], '\n', j);
    assert [] + ['\n'] + j == "\n" + j;
    NoFenceAround("\n" + j, '\n', []);
    assert ("\n" + j) + ['\n'] + [] == "\n" + j + "\n";
  }

  const Opening: string := "```json\n"
  const Closing: string := "\n```"

  /** A model reply: prose `p`, then `j` inside a ```` ```json ```` fence, then prose `q`. */
  function Fenced(p: string, j: string, q: string): string
  {
    p + Opening + j + Closing + q
  }

  lemma FencedShape(p: string, j: string, q: string)
    ensures Fenced(p, j, q) == p + ("```json" + (("\n" + j + "\n") + ("```" + q)))
  {
    assert Opening == "```json" + "\n";
    assert Closing == "\n" + "```";
    Reassoc(p, "```json", "\n", j, "\n", "```", q);
  }

  lemma Reassoc(p: string, o1: string, o2: string, j: string, c1: string, c2: string, q: string)
    ensures p + (o1 + o2) + j + (c1 + c2) + q == p + (o1 + ((o2 + j + c1) + (c2 + q)))
  {
  }

  /** Fence removal on a fenced reply keeps the prose and the object, each
      line break of the fence, and nothing of its markers. */
  lemma StripFenced(p: string, j: string, q: string)
    requires NoFence(j)
    requires '`' !in p && '`' !in q && (q == [] || (q[0] != 'j' && q[0] != 'J'))
    ensures StripFences(Fenced(p, j, q)) == (p + "\n") + j + ("\n" + q)
  {
    var mid := "\n" + j + "\n";
    var tail := "```" + q;
    var rest := "```json" + (mid + tail);
    FencedShape(p, j, q);
    NoFenceWithoutTicks(p);
    assert p != [] ==> p[|p| - 1] in p;
    StripFencesPrefix(p, rest);
    StripOpening(mid + tail);
    FramedLines(j);
    StripFencesPrefix(mid, tail);
    StripClosing(q);
    assert StripFences(Fenced(p, j, q)) == p + (mid + q);
    Regroup3(p, j, q);
  }

  lemma Regroup3(p: string, j: string, q: string)
    ensures p + (("\n" + j + "\n") + q) == (p + "\n") + j + ("\n" + q)
  {
  }

  /** The cleaned text of a fenced reply. */
  lemma CleanedFenced(p: string, j: string, q: string)
    requires IsFramed(j) && NoFence(j)
    requires '`' !in p && '`' !in q && (q == [] || (q[0] != 'j' && q[0] != 'J'))
    ensures Cleaned(Fenced(p, j, q)) == TrimStart(p + "\n") + j + TrimEnd("\n" + q)
  {
    StripFenced(p, j, q);
    TrimAround(p + "\n", j, "\n" + q);
  }

  /** What trimming leaves of prose without `c` and a line break holds no `c`. */
  lemma TrimmedProse(p: string, q: string, c: char, d: char)
    requires c != '\n' && d != '\n' && c !in p && d !in q
    ensures c !in TrimStart(p + "\n") && d !in TrimEnd("\n" + q)
  {
    TrimmedAbsent(p + "\n", c);
    TrimmedAbsent("\n" + q, d);
  }

  /** Trimming adds no character. */
  lemma TrimmedAbsent(x: string, c: char)
    requires c !in x
    ensures c !in TrimStart(x) && c !in TrimEnd(x)
  {
    TrimStartAbsent(x, c);
    TrimEndAbsent(x, c);
  }

  lemma TrimStartAbsent(x: string, c: char)
    requires c !in x
    ensures c !in TrimStart(x)
  {
    var a := TrimStart(x);
    forall k | 0 <= k < |a|
      ensures a[k] != c
    {
      assert a[k] == x[|x| - |a| + k];
    }
  }

  lemma TrimEndAbsent(x: string, c: char)
    requires c !in x
    ensures c !in TrimEnd(x)
  {
    var b := TrimEnd(x);
    forall k | 0 <= k < |b|
      ensures b[k] != c
    {
      assert b[k] == x[k];
    }
  }

  /** A fenced reply, with prose before and after, yields exactly the fenced
      object, provided the prose holds no backtick and no stray brace. */
  lemma CandidateOfFenced(p: string, j: string, q: string)
    requires IsFramed(j) && NoFence(j)
    requires '`' !in p && '`' !in q && (q == [] || (q[0] != 'j' && q[0] != 'J'))
    requires '{' !in p && '}' !in q
    ensures Candidate(Fenced(p, j, q)) == Ok(j)
  {
    CleanedFenced(p, j, q);
    TrimmedProse(p, q, '{', '}');
    LocateUnique(TrimStart(p + "\n"), j, TrimEnd("\n" + q));
  }

  /** The round trip: extracting a fenced object, with fence-free prose around
      it, hands exactly that object to the parser. */
  lemma ServerFencedRoundTrip<V>(p: string, j: string, q: string, parse: string -> Result<V, string>)
    requires IsFramed(j) && NoFence(j)
    requires '`' !in p && '`' !in q && (q == [] || (q[0] != 'j' && q[0] != 'J'))
    requires '{' !in p && '}' !in q
    ensures ServerParse(Fenced(p, j, q), parse) == Parsed(parse(j))
  {
    CandidateOfFenced(p, j, q);
  }

  /** A parser refusal never reads as a missing brace pair. */
  lemma ParsedNeverMissing<V>(p: Result<V, string>)
    ensures Parsed(p) != Err(NoJsonObjectFound)
  {
  }

  /** The browser variants, as written and corrected, fail for want of a brace
      pair on exactly the replies the server variant does. */
  lemma BrowserFailsLikeServer<V>(raw: string, parse: string -> Result<V, string>)
    ensures BrowserParseAsWritten(raw, parse).Err? && BrowserParseAsWritten(raw, parse).error == NoJsonObjectFound
        <==> ServerParse(raw, parse).Err? && ServerParse(raw, parse).error == NoJsonObjectFound
    ensures BrowserParse(raw, parse).Err? && BrowserParse(raw, parse).error == NoJsonObjectFound
        <==> ServerParse(raw, parse).Err? && ServerParse(raw, parse).error == NoJsonObjectFound
  {
    if Candidate(raw).Ok? {
      var j := Candidate(raw).value;
      ParsedNeverMissing(parse(j));
      ParsedNeverMissing(parse(Repair(j)));
      ParsedNeverMissing(parse(RepairJson(j)));
    }
  }

  /** The browser variants, as written and corrected, agree with the server
      variant on every reply whose object has no raw line break. */
  lemma BrowserAgreesWithoutLineBreaks<V>(raw: string, parse: string -> Result<V, string>)
    requires Candidate(raw).Ok? && '\n' !in Candidate(raw).value && '\r' !in Candidate(raw).value
    ensures BrowserParseAsWritten(raw, parse) == ServerParse(raw, parse)
    ensures BrowserParse(raw, parse) == ServerParse(raw, parse)
  {
    var j := Candidate(raw).value;
    assert BrowserCandidateAsWritten(raw) == Ok(j);
    RepairJsonWithoutLineBreaks(j);
    assert BrowserCandidate(raw) == Ok(j);
  }

  // ---------------------------------------------------------------------------
  // The browser extractor as written against the corrected one

  /** Without a backslash in the slice, the repair as written and the corrected
      one hand the parser the same text. */
  lemma AsWrittenAgreesWithoutBackslash<V>(raw: string, parse: string -> Result<V, string>)
    requires Candidate(raw).Ok? ==> '\\' !in Candidate(raw).value
    ensures BrowserCandidateAsWritten(raw) == BrowserCandidate(raw)
    ensures BrowserParseAsWritten(raw, parse) == BrowserParse(raw, parse)
  {
    if Candidate(raw).Ok? {
      ScanJsonAgrees(Candidate(raw).value, false);
    }
  }

  /** On the reply `{"a":"x\\","b":"l` LF `b"}` the page's extractor hands the
      parser the reply unchanged, with its raw line break inside a JSON string,
      while the corrected extractor hands it a JSON-clean text. */
  lemma AsWrittenKeepsSampleBreak()
    ensures BrowserCandidateAsWritten(EscapedBackslashSample) == Ok(EscapedBackslashSample)
    ensures !JsonClean(EscapedBackslashSample, false, false)
    ensures BrowserCandidate(EscapedBackslashSample).Ok?
    ensures JsonClean(BrowserCandidate(EscapedBackslashSample).value, false, false)
  {
    var s := EscapedBackslashSample;
    assert IsSample(s);
    SampleCandidate(s);
    SampleScan(s);
    SampleNotClean(s);
  }

  lemma SampleCandidate(s: string)
    requires IsSample(s)
    ensures Candidate(s) == Ok(s)
  {
    forall i | 0 <= i < |s|
      ensures s[i] != '`'
    {
    }
    NoFenceWithoutTicks(s);
    StripFencesIdentity(s);
    assert WhitespaceFreeEnds(s);
    TrimFree(s);
    assert [] + s + [] == s;
    LocateUnique([], s, []);
  }
}
