/**
 * The decisions of the server route `POST /api/analyze-cv`, as a pure function
 * of the submitted form, the server's environment key and three oracles: the
 * job-page fetch, the model completion and `JSON.parse`. Each oracle answers
 * `None` or `Err` where the real call would throw.
 */
module AnalyzeRoute {
  import opened Base
  import opened Text
  import opened Normalize
  import opened Extractor

  /** What the `cv` field holds: nothing, an uploaded file (represented by its
      text), or a plain text value. `cvFile.text()` throws on all but a file. */
  datatype CvField = NoCv | CvFile(text: string) | CvText(value: string)

  /** The multipart form fields; every field may be absent. */
  datatype Form = Form(
    cv: CvField,
    experienceSummary: Option<string>,
    jobUrl: Option<string>,
    jobDescription: Option<string>,
    apiKey: Option<string>)

  /** JavaScript truthiness of an optional string: present and non-empty. */
  predicate Truthy(s: Option<string>)
  {
    s.Some? && s.value != ""
  }

  /** `(fd.get("apiKey") as string) || process.env.GROQ_API_KEY`. */
  function KeyFor(form: Form, env: Option<string>): (k: Option<string>)
    ensures Truthy(k) <==> Truthy(form.apiKey) || Truthy(env)
    ensures Truthy(form.apiKey) ==> k == form.apiKey
    ensures !Truthy(form.apiKey) ==> k == env
  {
    if Truthy(form.apiKey) then form.apiKey else env
  }

  // ---------------------------------------------------------------------------
  // Tag stripping

  /** `html.replace(/<[^>]*>/g, " ")`: each `<` that has a `>` somewhere after it
      is replaced, together with everything up to the first such `>`, by one space. */
  function StripTags(s: string): (r: string)
    ensures |r| <= |s|
    decreases |s|
  {
    if s == [] then []
    else if s[0] == '<' && '>' in s[1..] then
      var k := IndexOf(s[1..], '>');
      " " + StripTags(s[k + 2..])
    else [s[0]] + StripTags(s[1..])
  }

  /** No `<` is followed, anywhere later, by a `>`. */
  predicate NoTag(s: string)
  {
    forall i, j :: 0 <= i < j < |s| && s[i] == '<' ==> s[j] != '>'
  }

  /** Tag stripping introduces no character other than a space. */
  lemma {:induction false} StripTagsChars(s: string)
    ensures forall c :: c in StripTags(s) ==> c == ' ' || c in s
    decreases |s|
  {
    if s != [] {
      if s[0] == '<' && '>' in s[1..] {
        var k := IndexOf(s[1..], '>');
        StripTagsChars(s[k + 2..]);
        forall c | c in s[k + 2..]
          ensures c in s
        {
          var m :| 0 <= m < |s[k + 2..]| && s[k + 2..][m] == c;
          assert s[k + 2 + m] == c;
        }
      } else {
        StripTagsChars(s[1..]);
      }
    }
  }

  lemma NoTagCons(c: char, t: string)
    requires NoTag(t) && (c == '<' ==> '>' !in t)
    ensures NoTag([c] + t)
  {
    var s := [c] + t;
    forall i, j | 0 <= i < j < |s| && s[i] == '<'
      ensures s[j] != '>'
    {
      assert s[j] == t[j - 1];
      if i > 0 {
        assert s[i] == t[i - 1];
      } else {
        assert t[j - 1] in t;
      }
    }
  }

  /** A tag is replaced by exactly one space: the text before it, which holds no
      `<`, is kept as it is, and stripping carries on after the tag's `>`. */
  lemma {:induction false} StripTagsTag(x: string, t: string, y: string)
    requires '<' !in x && '>' !in t
    ensures StripTags(x + "<" + t + ">" + y) == x + " " + StripTags(y)
    decreases |x|
  {
    if x == [] {
      assert x + "<" + t + ">" + y == "<" + t + ">" + y;
      StripTagsAtTag(t, y);
    } else {
      var rest := x[1..] + "<" + t + ">" + y;
      Regroup(x, t, y, StripTags(y));
      StripTagsPlain(x[0], rest);
      assert x[0] in x;
      StripTagsTag(x[1..], t, y);
    }
  }

  lemma Regroup(x: string, t: string, y: string, w: string)
    requires x != []
    ensures x + "<" + t + ">" + y == [x[0]] + (x[1..] + "<" + t + ">" + y)
    ensures x + " " + w == [x[0]] + (x[1..] + " " + w)
  {
    assert x == [x[0]] + x[1..];
  }

  /** A character other than `<` is kept. */
  lemma StripTagsPlain(c: char, s: string)
    requires c != '<'
    ensures StripTags([c] + s) == [c] + StripTags(s)
  {
    assert ([c] + s)[1..] == s;
  }

  /** A tag at the start becomes one space. */
  lemma StripTagsAtTag(t: string, y: string)
    requires '>' !in t
    ensures StripTags("<" + t + ">" + y) == " " + StripTags(y)
  {
    var s := "<" + t + ">" + y;
    var u := t + (">" + y);
    assert s[0] == '<' && s[1..] == u;
    IndexOfConcat(t, ">" + y, '>');
    assert u[|t|] == '>';
    assert s[|t| + 2..] == y;
  }

  /** After stripping, no `<` is followed by a `>`: no complete tag survives. */
  lemma {:induction false} StripTagsLeavesNoTag(s: string)
    ensures NoTag(StripTags(s))
    decreases |s|
  {
    if s != [] {
      if s[0] == '<' && '>' in s[1..] {
        var k := IndexOf(s[1..], '>');
        StripTagsLeavesNoTag(s[k + 2..]);
        NoTagCons(' ', StripTags(s[k + 2..]));
      } else {
        StripTagsLeavesNoTag(s[1..]);
        StripTagsChars(s[1..]);
        NoTagCons(s[0], StripTags(s[1..]));
      }
    }
  }

  /** Text with no complete tag is left alone. */
  lemma {:induction false} StripTagsIdentity(s: string)
    requires NoTag(s)
    ensures StripTags(s) == s
    decreases |s|
  {
    if s != [] {
      forall j | 0 <= j < |s[1..]|
        ensures s[0] == '<' ==> s[1..][j] != '>'
      {
        assert s[1..][j] == s[j + 1];
      }
      assert NoTag(s[1..]) by {
        forall i, j | 0 <= i < j < |s[1..]| && s[1..][i] == '<'
          ensures s[1..][j] != '>'
        {
          assert s[1..][i] == s[i + 1] && s[1..][j] == s[j + 1];
        }
      }
      StripTagsIdentity(s[1..]);
    }
  }

  /** Stripping changes the text exactly when it holds a complete tag; in
      particular text with no `<` is unchanged, and stripping twice is stripping once. */
  lemma StripTagsFixpoint(s: string)
    ensures StripTags(s) == s <==> NoTag(s)
    ensures '<' !in s ==> StripTags(s) == s
    ensures StripTags(StripTags(s)) == StripTags(s)
  {
    StripTagsLeavesNoTag(s);
    if NoTag(s) {
      StripTagsIdentity(s);
    }
    if '<' !in s {
      forall i | 0 <= i < |s|
        ensures s[i] != '<'
      {
        assert s[i] in s;
      }
      StripTagsIdentity(s);
    }
    StripTagsIdentity(StripTags(s));
  }

  // ---------------------------------------------------------------------------
  // The job description

  /** Where the job description comes from. */
  datatype JdSource = Pasted | FromUrl | Blank

  /** `if (!jdText && jobUrl)`: the pasted text wins; the URL is used only when
      nothing was pasted. */
  function ChooseJd(form: Form): (src: JdSource)
    ensures src == Pasted <==> Truthy(form.jobDescription)
    ensures src == FromUrl <==> !Truthy(form.jobDescription) && Truthy(form.jobUrl)
  {
    if Truthy(form.jobDescription) then Pasted
    else if Truthy(form.jobUrl) then FromUrl
    else Blank
  }

  // ---------------------------------------------------------------------------
  // The response

  /** A JSON response body: the parsed analysis, or an `{ error }` object. */
  datatype Body<V> = Analysis(value: V) | Error(message: string)

  datatype Response<V> = Response(status: nat, body: Body<V>)

  const MissingKey: string := "API key is required"
  const FetchFailed: string := "Failed to fetch job description from URL"
  const ParseFailed: string := "AI response parsing failed. Please retry."
  const AnalysisFailed: string := "Analysis failed"

  const ModelName: string := "llama3-70b-8192"
  const MaxTokens: nat := 1500

  /** The single model call: key, model, the normalised inputs the prompt
      embeds, and the token budget. */
  datatype CompletionRequest = CompletionRequest(apiKey: string, model: string, inputs: Inputs, maxTokens: nat)

  /** Everything before the model call: the key check, reading the CV, and the
      job description. Fails with the response the route returns. */
  function Prepare<V>(form: Form, env: Option<string>, fetchPage: string -> Option<string>)
    : (r: Result<CompletionRequest, Response<V>>)
    ensures !Truthy(KeyFor(form, env)) ==> r == Err(Response(401, Error(MissingKey)))
    ensures r.Ok? ==> Truthy(KeyFor(form, env)) && r.value.apiKey == KeyFor(form, env).value
    ensures r.Ok? ==> form.cv.CvFile? && r.value.model == ModelName && r.value.maxTokens == MaxTokens
    ensures r.Ok? ==> WithinCaps(r.value.inputs)
    ensures r.Ok? ==> r.value.inputs.cvText == Truncate(Some(form.cv.text), MaxCvChars)
    ensures r.Ok? ==> r.value.inputs.experienceSummary == Truncate(form.experienceSummary, MaxExpChars)
    ensures r.Ok? && ChooseJd(form) == Pasted ==> r.value.inputs.jobDescription == Truncate(form.jobDescription, MaxJdChars)
    ensures r.Ok? && ChooseJd(form) == Blank ==> r.value.inputs.jobDescription == ""
    ensures ChooseJd(form) == FromUrl && r.Ok? ==>
      (fetchPage(form.jobUrl.value).Some? &&
       r.value.inputs.jobDescription == Truncate(Some(StripTags(fetchPage(form.jobUrl.value).value)), MaxJdChars))
    ensures Truthy(KeyFor(form, env)) && !form.cv.CvFile? ==> r == Err(Response(500, Error(AnalysisFailed)))
    ensures (Truthy(KeyFor(form, env)) && form.cv.CvFile? && ChooseJd(form) == FromUrl &&
             fetchPage(form.jobUrl.value).None?) ==> r == Err(Response(400, Error(FetchFailed)))
    ensures r.Err? ==> r.error.status in {400, 401, 500} && r.error.body.Error?
    ensures r.Ok? <==> Truthy(KeyFor(form, env)) && form.cv.CvFile? &&
                       (ChooseJd(form) == FromUrl ==> fetchPage(form.jobUrl.value).Some?)
  {
    var key := KeyFor(form, env);
    if !Truthy(key) then Err(Response(401, Error(MissingKey)))
    else if !form.cv.CvFile? then Err(Response(500, Error(AnalysisFailed)))
    else
      Assemble(key.value, form.cv.text, form, fetchPage)
  }

  /** The request once the key and the CV are there: only the job page can
      still fail. */
  function Assemble<V>(key: string, cv: string, form: Form, fetchPage: string -> Option<string>)
    : (r: Result<CompletionRequest, Response<V>>)
    ensures r.Ok? <==> (ChooseJd(form) == FromUrl ==> fetchPage(form.jobUrl.value).Some?)
    ensures r.Err? ==> r.error == Response(400, Error(FetchFailed))
    ensures r.Ok? ==> r.value.apiKey == key && r.value.model == ModelName && r.value.maxTokens == MaxTokens
    ensures r.Ok? ==> WithinCaps(r.value.inputs)
    ensures r.Ok? ==> r.value.inputs.cvText == Truncate(Some(cv), MaxCvChars)
    ensures r.Ok? ==> r.value.inputs.experienceSummary == Truncate(form.experienceSummary, MaxExpChars)
    ensures r.Ok? ==> Ok(r.value.inputs.jobDescription) == JobInput<V>(form, fetchPage)
  {
    match JobInput<V>(form, fetchPage)
    case Err(e) => Err(e)
    case Ok(jd) =>
      Ok(CompletionRequest(key, ModelName,
        Inputs(Truncate(Some(cv), MaxCvChars), Truncate(form.experienceSummary, MaxExpChars), jd), MaxTokens))
  }

  /** `jdText = truncate(jdText || "", MAX_JD_CHARS)`: the pasted text, the page
      with its tags stripped, or "" when neither was given, truncated. Fails
      only when the page does not load. */
  function JobInput<V>(form: Form, fetchPage: string -> Option<string>): (jd: Result<string, Response<V>>)
    ensures jd.Err? <==> ChooseJd(form) == FromUrl && fetchPage(form.jobUrl.value).None?
    ensures jd.Err? ==> jd.error == Response(400, Error(FetchFailed))
    ensures jd.Ok? ==> |jd.value| <= MaxJdChars
    ensures ChooseJd(form) == Pasted ==> jd == Ok(Truncate(form.jobDescription, MaxJdChars))
    ensures ChooseJd(form) == Blank ==> jd == Ok("")
    ensures ChooseJd(form) == FromUrl && fetchPage(form.jobUrl.value).Some? ==>
      jd == Ok(Truncate(Some(StripTags(fetchPage(form.jobUrl.value).value)), MaxJdChars))
  {
    match ChooseJd(form)
    case Pasted => Ok(Truncate(Some(form.jobDescription.value), MaxJdChars))
    case Blank => TruncateBlank(MaxJdChars); Ok(Truncate(Some(""), MaxJdChars))
    case FromUrl =>
      match fetchPage(form.jobUrl.value)
      case None => Err(Response(400, Error(FetchFailed)))
      case Some(html) => Ok(Truncate(Some(StripTags(html)), MaxJdChars))
  }

  /**
   * The route. `form` is `None` when the body is not form data. `complete` is
   * the model call, `None` when it throws; `parse` is `JSON.parse`.
   */
  function Post<V>(
    form: Option<Form>,
    env: Option<string>,
    fetchPage: string -> Option<string>,
    complete: CompletionRequest -> Option<string>,
    parse: string -> Result<V, string>)
    : (r: Response<V>)
    ensures r.status == 200 <==> r.body.Analysis?
    ensures form.None? ==> r == Response(500, Error(AnalysisFailed))
    ensures form.Some? && !Truthy(KeyFor(form.value, env)) ==> r == Response(401, Error(MissingKey))
    ensures r.body.Analysis? ==>
      (form.Some? &&
       Prepare<V>(form.value, env, fetchPage).Ok? &&
       complete(Prepare<V>(form.value, env, fetchPage).value).Some? &&
       ServerParse(complete(Prepare<V>(form.value, env, fetchPage).value).value, parse) == Ok(r.body.value))
    ensures form.Some? && Prepare<V>(form.value, env, fetchPage).Ok?
      && complete(Prepare<V>(form.value, env, fetchPage).value).Some?
      && ServerParse(complete(Prepare<V>(form.value, env, fetchPage).value).value, parse).Err?
      ==> r == Response(500, Error(ParseFailed))
    ensures form.Some? && Prepare<V>(form.value, env, fetchPage).Err? ==> r == Prepare<V>(form.value, env, fetchPage).error
    ensures form.Some? && Prepare<V>(form.value, env, fetchPage).Ok?
      && complete(Prepare<V>(form.value, env, fetchPage).value).None?
      ==> r == Response(500, Error(AnalysisFailed))
    ensures form.Some? && Prepare<V>(form.value, env, fetchPage).Ok?
      && complete(Prepare<V>(form.value, env, fetchPage).value).Some?
      && ServerParse(complete(Prepare<V>(form.value, env, fetchPage).value).value, parse).Ok?
      ==> r == Response(200, Analysis(ServerParse(complete(Prepare<V>(form.value, env, fetchPage).value).value, parse).value))
  {
    if form.None? then Response(500, Error(AnalysisFailed))
    else
      match Prepare(form.value, env, fetchPage)
      case Err(e) => e
      case Ok(req) =>
        match complete(req)
        case None => Response(500, Error(AnalysisFailed))
        case Some(text) =>
          match ServerParse(text, parse)
          case Err(_) => Response(500, Error(ParseFailed))
          case Ok(v) => Response(200, Analysis(v))
  }

  // ---------------------------------------------------------------------------
  // Properties of the route

  /** Without a key the route answers 401 whatever the oracles would have done:
      no page is fetched, no model is called, nothing is parsed. */
  lemma MissingKeyFirst<V>(
    form: Form, env: Option<string>,
    fetch1: string -> Option<string>, complete1: CompletionRequest -> Option<string>, parse1: string -> Result<V, string>,
    fetch2: string -> Option<string>, complete2: CompletionRequest -> Option<string>, parse2: string -> Result<V, string>)
    requires !Truthy(form.apiKey) && !Truthy(env)
    ensures Post(Some(form), env, fetch1, complete1, parse1) == Response(401, Error(MissingKey))
    ensures Post(Some(form), env, fetch1, complete1, parse1) == Post(Some(form), env, fetch2, complete2, parse2)
  {
  }

  /** A pasted job description makes the URL irrelevant: the fetch is never consulted. */
  lemma PastedIgnoresUrl<V>(
    form: Form, env: Option<string>,
    fetch1: string -> Option<string>, fetch2: string -> Option<string>,
    complete: CompletionRequest -> Option<string>, parse: string -> Result<V, string>)
    requires Truthy(form.jobDescription)
    ensures Prepare<V>(form, env, fetch1) == Prepare<V>(form, env, fetch2)
    ensures Post(Some(form), env, fetch1, complete, parse) == Post(Some(form), env, fetch2, complete, parse)
  {
  }

  /** A job page's stripped text is capped like a pasted description and keeps
      no complete tag. */
  lemma FetchedJdIsCapped<V>(form: Form, env: Option<string>, fetchPage: string -> Option<string>)
    requires ChooseJd(form) == FromUrl && Prepare<V>(form, env, fetchPage).Ok?
    ensures |Prepare<V>(form, env, fetchPage).value.inputs.jobDescription| <= MaxJdChars
    ensures IsPrefix(Prepare<V>(form, env, fetchPage).value.inputs.jobDescription,
                     Normalized(StripTags(fetchPage(form.jobUrl.value).value)))
    ensures NoTag(StripTags(fetchPage(form.jobUrl.value).value))
  {
    StripTagsLeavesNoTag(fetchPage(form.jobUrl.value).value);
  }
}
