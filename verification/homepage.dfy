/**
 * The browser page's two handlers, as pure functions of the page state and of
 * oracles for the Groq chat-completion call and `JSON.parse`: saving an API
 * key (it is first probed with a tiny request) and running the analysis.
 */
module HomePage {
  import opened Base
  import opened Text
  import opened Normalize
  import opened Extractor

  const ModelName: string := "llama3-70b-8192"

  /** What a request asks the model: the key probe's greeting, or the analysis
      prompt built around the normalised inputs. */
  datatype Prompt = Greeting | Analysis(inputs: Inputs)

  /** A chat-completion request: bearer key, prompt, token budget. */
  datatype GroqRequest = GroqRequest(apiKey: string, model: string, prompt: Prompt, maxTokens: nat)

  /** A request oracle answers with the reply text or the thrown error's message. */
  type Groq = GroqRequest -> Result<string, string>

  // ---------------------------------------------------------------------------
  // Saving the API key

  const EnterKey: string := "Please enter your Groq API key"
  const InvalidKeyPrefix: string := "Invalid API key: "
  const CheckKey: string := "Please check your Groq API key and try again."
  const ProbeTokens: nat := 5

  datatype KeyOutcome = KeyRejected(message: string) | KeyAccepted(stored: string)

  /** `` `Invalid API key: ${error.message || "Please check …"}` ``. */
  function InvalidKey(message: string): string
  {
    InvalidKeyPrefix + (if message == "" then CheckKey else message)
  }

  /** The request that probes a non-blank key before it is saved. */
  function Probe(key: string): GroqRequest
  {
    GroqRequest(Trim(key), ModelName, Greeting, ProbeTokens)
  }

  /** `handleApiKeySubmit`: a blank key is refused without a request; otherwise
      the trimmed key is probed, then stored or refused with the probe's message. */
  function SubmitApiKey(key: string, groq: Groq): (r: KeyOutcome)
    ensures r == KeyRejected(EnterKey) <==> AllWhitespace(key)
    ensures r.KeyAccepted? <==> !AllWhitespace(key) && groq(Probe(key)).Ok?
    ensures r.KeyAccepted? ==> r.stored == Trim(key) && r.stored != "" && WhitespaceFreeEnds(r.stored)
    ensures !AllWhitespace(key) && groq(Probe(key)).Err? ==> r == KeyRejected(InvalidKey(groq(Probe(key)).error))
  {
    BlankIsAllWhitespace(key);
    if Trim(key) == "" then KeyRejected(EnterKey)
    else
      match groq(Probe(key))
      case Err(message) =>
        assert InvalidKey(message)[0] == 'I' != EnterKey[0];
        KeyRejected(InvalidKey(message))
      case Ok(_) => KeyAccepted(Trim(key))
  }

  /** A key trims to nothing exactly when it is all whitespace. */
  lemma BlankIsAllWhitespace(key: string)
    ensures Trim(key) == "" <==> AllWhitespace(key)
  {
    var t := TrimStart(key);
    if AllWhitespace(key) {
      TrimStartSkips(key, []);
      assert key + [] == key;
    }
    if Trim(key) == "" {
      assert AllWhitespace(t[|TrimEnd(t)|..]);
      assert t[|TrimEnd(t)|..] == t;
      assert key == key[..|key| - |t|] + t;
    }
  }

  /** A blank key is refused whatever the network would say. */
  lemma BlankKeyNeedsNoRequest(key: string, groq1: Groq, groq2: Groq)
    requires AllWhitespace(key)
    ensures SubmitApiKey(key, groq1) == SubmitApiKey(key, groq2) == KeyRejected(EnterKey)
  {
  }

  // ---------------------------------------------------------------------------
  // Running the analysis

  const FillFields: string := "Please fill in all required fields. Note: You need to paste the job description manually."
  const ConfigureKey: string := "Please configure your API key first"
  const FailedPrefix: string := "Analysis failed: "
  const AnalysisTokens: nat := 1800

  /** The inputs the handler reads: the chosen file's text (absent when no file
      was chosen), the two text fields, and the saved key. */
  datatype PageState = PageState(cvFile: Option<string>, experienceSummary: string, jobDescription: string, apiKey: string)

  /** The handler blocks with an alert, fails with an alert, or stores the parsed result. */
  datatype AnalyzeOutcome<V> = Blocked(alert: string) | Failed(alert: string) | Stored(result: V)

  /** A required field is missing. */
  predicate MissingField(st: PageState)
  {
    st.cvFile.None? || st.jobDescription == "" || st.experienceSummary == ""
  }

  /** The analysis request, with each input normalised and capped. */
  function AnalysisRequest(st: PageState): (q: GroqRequest)
    ensures q.prompt.Analysis? && WithinCaps(q.prompt.inputs)
    ensures q.apiKey == st.apiKey && q.maxTokens == AnalysisTokens && q.model == ModelName
    ensures q.prompt.inputs == NormalizeInputs(st.cvFile, Some(st.experienceSummary), Some(st.jobDescription))
  {
    GroqRequest(st.apiKey, ModelName,
      Analysis(NormalizeInputs(st.cvFile, Some(st.experienceSummary), Some(st.jobDescription))),
      AnalysisTokens)
  }

  /** `handleAnalyze`. */
  function Analyze<V>(st: PageState, groq: Groq, parse: string -> Result<V, string>): (r: AnalyzeOutcome<V>)
    ensures r.Blocked? <==> MissingField(st) || st.apiKey == ""
    ensures MissingField(st) ==> r == Blocked(FillFields)
    ensures !MissingField(st) && st.apiKey == "" ==> r == Blocked(ConfigureKey)
    ensures r.Stored? ==>
      (groq(AnalysisRequest(st)).Ok? && BrowserParseAsWritten(groq(AnalysisRequest(st)).value, parse) == Ok(r.result))
    ensures r.Failed? ==> |r.alert| >= |FailedPrefix| && r.alert[..|FailedPrefix|] == FailedPrefix
    ensures !r.Blocked? && groq(AnalysisRequest(st)).Err? ==> r == Failed(FailedPrefix + groq(AnalysisRequest(st)).error)
    ensures !r.Blocked? && groq(AnalysisRequest(st)).Ok? ==>
      var p := BrowserParseAsWritten(groq(AnalysisRequest(st)).value, parse);
      (p.Err? ==> r == Failed(FailedPrefix + Message(p.error))) && (p.Ok? ==> r == Stored(p.value))
  {
    if MissingField(st) then Blocked(FillFields)
    else if st.apiKey == "" then Blocked(ConfigureKey)
    else
      match groq(AnalysisRequest(st))
      case Err(message) => Failed(FailedPrefix + message)
      case Ok(reply) =>
        match BrowserParseAsWritten(reply, parse)
        case Err(e) => Failed(FailedPrefix + Message(e))
        case Ok(v) => Stored(v)
  }

  /** The guards run before any request: a blocked analysis does not depend on
      what the network or the parser would have done. */
  lemma BlockedNeedsNoRequest<V>(st: PageState, groq1: Groq, parse1: string -> Result<V, string>,
                                 groq2: Groq, parse2: string -> Result<V, string>)
    requires MissingField(st) || st.apiKey == ""
    ensures Analyze(st, groq1, parse1) == Analyze(st, groq2, parse2)
  {
  }

  /** A reply without a brace pair ends in the alert "Analysis failed: No JSON object found". */
  lemma ReplyWithoutObject<V>(st: PageState, groq: Groq, parse: string -> Result<V, string>)
    requires !MissingField(st) && st.apiKey != ""
    requires groq(AnalysisRequest(st)).Ok? && !HasBracePair(Cleaned(groq(AnalysisRequest(st)).value))
    ensures Analyze(st, groq, parse) == Failed(FailedPrefix + "No JSON object found")
  {
    var reply := groq(AnalysisRequest(st)).value;
    LocateFails(Cleaned(reply));
    assert BrowserParseAsWritten(reply, parse) == Err(NoJsonObjectFound);
  }
}
