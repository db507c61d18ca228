# Freecvscanner core, modelled in Dafny

Freecvscanner compares a CV with a job description by asking a Groq-hosted
language model for a JSON verdict. The application's own logic is the
plumbing around that single call:

- the input normaliser `truncate`, which collapses whitespace, trims and caps
  each input;
- the tolerant JSON extractor `safeJsonParse`, which strips Markdown fences,
  trims and slices from the first `{` to the last `}`. The browser copy also
  escapes raw line breaks inside string literals before `JSON.parse`;
- the server route `POST /api/analyze-cv`, which checks the key, chooses the
  job description source, strips HTML tags, and maps each failure to a status
  code and message;
- the browser handlers `handleApiKeySubmit` and `handleAnalyze`, which refuse
  blank or missing inputs before any request is made;
- the results page's text builders: the downloadable summary, the copy-button
  strings and the score label.

Everything is a pure function over `seq<char>`, one `char` per UTF-16 code
unit, which covers text inside the Basic Multilingual Plane. `JSON.parse`, the Groq chat-completion call, the key probe and the
job-page fetch are function-typed parameters (oracles). `JSON.parse` answers
`Ok(value)` or `Err(diagnostic)`. The network calls answer `None` or `Err`
where the real call throws. Each operation has a partner:

- an inverse: `Split` for every `join`, `ParseDecimal` for the numbering;
- a reference definition: `Outside`/`Inside`/`EscapeLineBreaks` for the
  repair, `Visible` for the collapse, `IsSubsequence` and `Count` for fence
  stripping;
- or an invariant it establishes: `NoFence`, `NoTag`, `IsCollapsed`,
  `JsonClean`.

Modules, in dependency order: `Base` (Option, Result, Count), `Text`
(`\s`, `trim`, `indexOf`, `join`, `split`), `Normalize`, `Fences`,
`NewlineRepair`, `Extractor`, `AnalyzeRoute`, `HomePage`, `Export`.

The browser extractor is modelled twice. `Extractor.BrowserParseAsWritten`
repairs line breaks with the page's loop as written, and `HomePage.Analyze`
uses it. `Extractor.BrowserParse` uses the corrected repair recorded under
Findings. The two agree whenever the slice holds no backslash.

Two properties one might expect of this code do not hold:

- **`truncate` is not idempotent.** The cut happens after the trim, so the
  result can end in a space that a second pass removes. For example, "a b"
  cut to 2 gives "a ", and cutting that to 2 again gives "a".
  `Normalize.TruncateNotIdempotent` proves the counterexample.
  `Normalize.TruncateTwice` proves what does hold. On text of the shape
  `truncate` always returns (collapsed, no leading whitespace, within the
  cap, as the contract of `Normalize.Truncate` states), a second pass only
  drops that one trailing space.
- **The fenced round trip needs a precondition.** It only holds when the
  object itself contains no triple backtick. The fence regex also deletes
  markers inside the object's strings. `Extractor.ServerFencedRoundTrip`
  states this condition.

## Model

| member | source | states |
|---|---|---|
| Text.Trim | app/api/analyze-cv/route.ts:15 | `trim` leaves no whitespace at either end and never lengthens the text |
| Text.TrimUnique | app/page.tsx:56 | trimming whitespace-only runs off a text whose ends are not whitespace yields exactly that text |
| Text.IndexOf | app/page.tsx:57 | `indexOf` is -1 exactly when the character is absent; otherwise the character sits there and not before it |
| Text.LastIndexOf | app/page.tsx:58 | `lastIndexOf` is -1 exactly when the character is absent; otherwise the character sits there and not after it |
| Text.Join | app/optimize/page.tsx:78 | `join` of a non-empty list is as long as its items together plus one separator between each neighbouring pair; its inverse is `Split` (see `Text.SplitJoin`) |
| Text.SplitJoin | app/optimize/page.tsx:78 | splitting a non-empty list's join gives back the list, when one character of the separator occurs only once in it and in none of the items |
| Normalize.SliceTo | app/page.tsx:95 | `slice(0, end)` is a prefix; for a non-negative end its length is the smaller of `end` and the text's length |
| Normalize.Collapse | app/page.tsx:95 | `replace(/\s+/g, " ")` never lengthens the text and empties only the empty text |
| Normalize.Truncate | app/page.tsx:95 | an absent input gives ""; the output is a prefix of the collapsed, trimmed input, as long as the cap allows, never longer than the cap, with no leading whitespace, only single spaces as whitespace, and no two whitespace characters in a row |
| Normalize.NormalizeInputs | app/api/analyze-cv/route.ts:28-50 | the CV, experience summary and job description are each a prefix of their normalised text, exactly as long as the smaller of the normalised length and the cap 6000, 1000 or 3000 |
| Normalize.CollapseIsCollapsed | app/page.tsx:95 | after `replace(/\s+/g, " ")` the only whitespace is single spaces |
| Normalize.CollapseKeepsVisible | app/page.tsx:95 | the collapse keeps every non-whitespace character, in order, and adds none |
| Normalize.CollapseVisibleHead | app/page.tsx:95 | a leading non-whitespace character is kept as it is, in front of the collapse of the rest |
| Normalize.CollapseAppend | app/page.tsx:95 | text ending in a non-whitespace character collapses independently of what follows it: no run crosses that character |
| Normalize.CollapseGap | app/page.tsx:95 | a whitespace run between two non-whitespace characters (or the text's ends) becomes exactly one space, so words are neither merged nor split |
| Normalize.CollapseFixpoint | app/page.tsx:95 | the collapse changes a text exactly when the text is not already collapsed |
| Normalize.NormalizedShape | app/api/analyze-cv/route.ts:11 | the collapsed and trimmed text is collapsed and has no whitespace at either end |
| Normalize.TruncateNotIdempotent | app/page.tsx:95 | for any visible x and y, "x y" cut to 2 is "x ", and a second cut gives "x" |
| Normalize.TruncateTwice | app/api/analyze-cv/route.ts:11 | on text of the shape a first pass returns (collapsed, no leading whitespace, within the cap), a second pass with the same cap only trims the end, and at most one trailing character is dropped |
| Normalize.CollapsedTrailingSpace | app/page.tsx:95 | a collapsed text ends in at most one whitespace character |
| Fences.MarkerLength | app/page.tsx:56 | the greedy `(?:json)?` group makes the marker 7 characters exactly when `json` in any letter case follows the backticks, and 3 otherwise, never past the end |
| Fences.StripFences | app/page.tsx:56 | `replace(/```(?:json)?/gi, "")` never lengthens the text |
| Fences.StripTaggedMarker | app/page.tsx:56 | three backticks followed by a `json` tag in any letter case are removed together, and removal carries on with the rest |
| Fences.StripUppercaseMarker | app/page.tsx:56 | ```` ```JSON ```` and ```` ```Json ```` are removed whole, as the `i` flag demands |
| Fences.StripBareMarker | app/page.tsx:56 | three backticks not followed by a `json` tag are removed alone, and removal carries on with the rest |
| Fences.StripFencesLeavesNoFence | app/page.tsx:56 | after fence removal no triple backtick is left, including any that deleting a marker brings together |
| Fences.StripFencesIsSubsequence | app/page.tsx:56 | fence removal only deletes characters: the survivors keep their order |
| Fences.StripFencesKeepsOtherChars | app/api/analyze-cv/route.ts:15 | every character that cannot belong to a marker occurs as often after fence removal as before |
| Fences.StripFencesFixpoint | app/api/analyze-cv/route.ts:15 | fence removal changes a text exactly when it holds a triple backtick, and a second removal changes nothing |
| Fences.StripFencesPrefix | app/page.tsx:56 | a marker-free prefix not ending in a backtick passes through untouched and does not disturb the scan of the rest |
| NewlineRepair.RepairLoop | app/page.tsx:64-79 | the character loop with `out`, `inString` and `prev` computes exactly the recursive repair `Repair` |
| NewlineRepair.Repair | app/page.tsx:64-79 | the repair as written leaves no raw line break inside a string, judged by its own quote-and-previous-character tracking |
| NewlineRepair.ScanCleans | app/page.tsx:73-77 | after the repair, no raw `\n` or `\r` remains inside a string by the loop's own flag tracking |
| NewlineRepair.RepairFixpoint | app/page.tsx:64-79 | the repair changes its input exactly when a raw line break sits inside a string, and repairing twice is repairing once |
| NewlineRepair.RepairWithoutLineBreaks | app/page.tsx:64-79 | a candidate with no `\n` and no `\r` comes back unchanged |
| NewlineRepair.ScanKeepsOutside | app/page.tsx:73-77 | the characters outside strings are exactly those of the input, in order |
| NewlineRepair.ScanEscapesInside | app/page.tsx:73-77 | the characters inside strings are those of the input with each line break replaced by `\` `n` |
| NewlineRepair.StringBodyEscaped | app/page.tsx:73-77 | inside a string, a body with no quote and no backslash, such as `line1` LF `line2`, comes out with exactly its line breaks escaped, under both the written and the corrected tracking |
| NewlineRepair.ScanKeepsQuotes | app/page.tsx:68-72 | the repair neither adds nor removes a double quote |
| NewlineRepair.RepairMissesBreakAfterEscapedBackslash | app/page.tsx:70 | on `{"a":"x\\","b":"l` LF `b"}` the repair as written leaves a raw line break inside a JSON string, and the corrected repair does not |
| NewlineRepair.ScanJsonCleans | app/page.tsx:64-79 | the corrected repair leaves no raw line break inside any string literal, judged the way a JSON lexer judges it |
| NewlineRepair.RepairJson | app/page.tsx:64-79 | the corrected repair leaves no raw line break inside any JSON string literal, judged as a JSON lexer judges it |
| NewlineRepair.ScanJsonAgrees | app/page.tsx:70 | without backslashes, the corrected repair and the repair as written produce the same text |
| NewlineRepair.RepairJsonWithoutLineBreaks | app/page.tsx:64-79 | the corrected repair returns a candidate with no line break unchanged |
| Extractor.Message | app/page.tsx:59-60 | a missing brace pair reads "No JSON object found"; a parser refusal carries the parser's own message |
| Extractor.Cleaned | app/page.tsx:56 | the cleaned text holds no triple backtick and has no whitespace at either end |
| Extractor.Locate | app/page.tsx:57-62 | a failure is always "No JSON object found"; a success starts with `{`, ends with `}`, and sits in the text with no `{` before it and no `}` after it |
| Extractor.Candidate | app/page.tsx:56-62 | the candidate fails, with "No JSON object found", exactly when the cleaned reply has no `{` before a `}`; otherwise it is the framed slice of the cleaned reply, with no `{` before it and no `}` after it |
| Extractor.LocateFails | app/page.tsx:57-61 | the slice fails exactly when no `{` comes before a `}`, which is the same as `first === -1 \|\| last === -1 \|\| last <= first` |
| Extractor.LocateUnique | app/api/analyze-cv/route.ts:16-21 | when the prose before an object has no `{` and the prose after has no `}`, the slice is exactly that object |
| Extractor.ServerParse | app/api/analyze-cv/route.ts:13-22 | without a brace pair the server extractor fails with "No JSON object found"; otherwise it is `JSON.parse` of exactly the slice |
| Extractor.BrowserCandidateAsWritten | app/page.tsx:54-79 | the page's candidate fails exactly when the server one does; when it succeeds it is clean by the loop's own tracking, and a slice without line breaks comes through unchanged |
| Extractor.BrowserParseAsWritten | app/page.tsx:54-82 | the page's extractor fails with "No JSON object found" without a brace pair, and otherwise is `JSON.parse` of the slice repaired as written |
| Extractor.BrowserCandidate | app/page.tsx:54-79 | the corrected browser candidate fails exactly when the server one does, and when it succeeds it has no raw line break inside any JSON string |
| Extractor.BrowserParse | app/page.tsx:54-82 | the corrected browser extractor fails like the slice does, and otherwise is `JSON.parse` of the slice after the corrected repair |
| Extractor.StripFenced | app/api/analyze-cv/route.ts:15 | fence removal on prose, a ```` ```json ```` fence around an object, and prose keeps the prose, both line breaks and the object, and drops both markers |
| Extractor.CandidateOfFenced | app/api/analyze-cv/route.ts:15-21 | from a fenced object with brace-free, backtick-free prose around it, the candidate is exactly the object |
| Extractor.ServerFencedRoundTrip | app/api/analyze-cv/route.ts:13-22 | extracting "```json" LF J LF "```", with such prose around it, hands exactly J to `JSON.parse` |
| Extractor.BrowserFailsLikeServer | app/page.tsx:57-61 | the page's extractor as written, and the corrected one, each report "No JSON object found" on exactly the replies the server extractor does |
| Extractor.BrowserAgreesWithoutLineBreaks | app/page.tsx:64-81 | on a reply whose slice has no line break, the page's extractor as written, and the corrected one, each give the same result as the server extractor |
| Extractor.AsWrittenAgreesWithoutBackslash | app/page.tsx:70 | when the slice holds no backslash, the page's extractor and the corrected one hand the parser the same text and give the same result |
| Extractor.AsWrittenKeepsSampleBreak | app/page.tsx:64-81 | on the reply `{"a":"x\\","b":"l` LF `b"}` the page's extractor hands the parser the reply unchanged, with a raw line break inside a JSON string, while the corrected extractor hands it a JSON-clean text |
| AnalyzeRoute.KeyFor | app/api/analyze-cv/route.ts:31 | the form's key is used when it is non-empty, otherwise exactly the environment's value; a key exists exactly when one of the two is non-empty |
| AnalyzeRoute.StripTags | app/api/analyze-cv/route.ts:45 | tag stripping never lengthens the text |
| AnalyzeRoute.StripTagsTag | app/api/analyze-cv/route.ts:45 | a `<`, the text up to the next `>`, and that `>` become exactly one space; the text before the tag is kept unchanged and the text after it is stripped in turn |
| AnalyzeRoute.StripTagsChars | app/api/analyze-cv/route.ts:45 | tag stripping introduces no character other than a space |
| AnalyzeRoute.StripTagsLeavesNoTag | app/api/analyze-cv/route.ts:45 | after stripping, no `<` is followed anywhere later by a `>` |
| AnalyzeRoute.StripTagsFixpoint | app/api/analyze-cv/route.ts:45 | stripping changes the text exactly when it holds a `<` followed later by a `>`; text with no `<` is unchanged; stripping twice is stripping once |
| AnalyzeRoute.ChooseJd | app/api/analyze-cv/route.ts:41-42 | the pasted description is used exactly when it is non-empty; the URL only when nothing was pasted and a URL is given |
| AnalyzeRoute.Prepare | app/api/analyze-cv/route.ts:26-50 | the request is built exactly when there is a key, a CV file, and, for a job description from the URL, a page that loads. No key gives 401 "API key is required"; a `cv` field that is absent or holds text rather than a file gives 500, because `cvFile.text()` throws and the outer catch answers; a failed fetch gives 400. Otherwise the request carries the key, the model, 1500 tokens and the truncated inputs, with the job description taken from the chosen source |
| AnalyzeRoute.Post | app/api/analyze-cv/route.ts:24-100 | status 200 exactly when the body is an analysis, and a successful extraction of the model's reply always gives 200 with the parsed value. An unreadable body or a thrown model call gives 500 "Analysis failed"; a refused request is answered as prepared (401, 400 or 500); a failed extraction gives 500 "AI response parsing failed. Please retry." |
| AnalyzeRoute.MissingKeyFirst | app/api/analyze-cv/route.ts:31-35 | without a key the route answers 401 whatever the fetch, the model and the parser would have done |
| AnalyzeRoute.PastedIgnoresUrl | app/api/analyze-cv/route.ts:41-49 | with a pasted description, the page fetch is never consulted |
| AnalyzeRoute.FetchedJdIsCapped | app/api/analyze-cv/route.ts:44-50 | a fetched description is capped at 3000, is a prefix of the normalised stripped page, and the stripped page keeps no complete tag |
| HomePage.SubmitApiKey | app/page.tsx:120-146 | a key that is blank after trimming is refused with "Please enter your Groq API key"; otherwise the trimmed key is probed, and is stored exactly when the probe succeeds, or refused with "Invalid API key: " and the probe's message |
| HomePage.BlankIsAllWhitespace | app/page.tsx:125 | `!apiKey.trim()` holds exactly when the key is all whitespace |
| HomePage.BlankKeyNeedsNoRequest | app/page.tsx:125-128 | a blank key is refused whatever the network would say |
| HomePage.AnalysisRequest | app/page.tsx:194-196 | the analysis request carries the saved key, the model, 1800 tokens, and exactly the file text, summary and description truncated to 6000, 1000 and 3000 |
| HomePage.Analyze | app/page.tsx:179-261 | the analysis is blocked exactly when a field or the key is missing, with the matching alert. A failed model call alerts "Analysis failed: " and its message; a failed extraction by the page's extractor alerts "Analysis failed: " and the extraction's message; a successful one stores the parsed value |
| HomePage.BlockedNeedsNoRequest | app/page.tsx:180-188 | a blocked analysis does not depend on what the model call or the parser would have done |
| HomePage.ReplyWithoutObject | app/page.tsx:250-257 | a reply without a brace pair ends in the alert "Analysis failed: No JSON object found" |
| Export.RoleLines | app/optimize/page.tsx:81-82 | one `role: achievement` entry per achievement, in order |
| Export.Bullets | app/optimize/page.tsx:329-330 | one `• achievement` entry per achievement, in order |
| Export.SkillsLine | app/optimize/page.tsx:276-279 | for a non-empty list whose items hold no "•", the skills line splits back on " • " into the skills, in order |
| Export.KeywordsLine | app/optimize/page.tsx:387 | for a non-empty list whose items hold no ",", the keywords line splits back on ", " into the keywords, in order |
| Export.AchievementLines | app/optimize/page.tsx:80-83 | with single-line roles and achievements, the achievements block has exactly one `role: achievement` line per achievement, in order |
| Export.AchievementBullets | app/optimize/page.tsx:329-331 | with single-line achievements, "Copy All Achievements" gives exactly one `• achievement` line per achievement, in order |
| Export.ImprovementLines | app/optimize/page.tsx:88-89 | with single-line improvements, the improvements block has one line per improvement, numbered 1, 2, 3, … in order |
| Export.NatToString | app/optimize/page.tsx:89 | the index renders as decimal digits without a leading zero, one digit exactly below 10 |
| Export.NatToStringRoundTrip | app/optimize/page.tsx:89 | reading the rendered number back gives the number |
| Export.Numbered | app/optimize/page.tsx:89 | the k-th improvement line is the number k + 1, ". " and the improvement |
| Export.ScoreLabel | app/optimize/page.tsx:170 | the label is "Good" exactly when the score is at least 80, otherwise "Needs Improvement" |
| Export.ImprovementLinesSplit | app/optimize/page.tsx:88-89 | the improvements block has one line per improvement, numbered 1, 2, 3, … in order, and each line's number reads back as its position |
| Export.DownloadLines | app/optimize/page.tsx:70-90 | the download, read line by line, has the fixed headings and one-line fields in place, and each list block contributes exactly its own lines, between a leading and a trailing empty line |
| Export.DownloadContent | app/optimize/page.tsx:70-90 | the downloaded text opens and closes with a line break, as the template literal does |

## Left out

- Network, SDK and file I/O are parameters, not models: `makeGroqRequest`, `generateText`, the job-page `fetch`, `readFileAsText` and `cvFile.text()`. utils/generateText.ts is not part of this model.
- `JSON.parse` is an oracle. The model verifies everything up to the text handed to it.
- The schema of the parsed value is not checked, because the application does not check it either.
- The prompt templates are not modelled. A request records the normalised inputs the prompt embeds, not the rendered prompt text, which is fixed interpolation.
- Browser storage, the clipboard, the Blob download, `window.open`, router navigation, React state and rendering are not modelled. They are I/O or display.
- The loading flags set around the handlers are not modelled: they are display state.
- The result page's density bar `Math.min(density * 20, 100)` is not modelled. It is floating-point display arithmetic. `keywordDensity` is carried in `Export.AnalysisResult` but nothing is computed from it.
- `targetScore` is not modelled beyond its field in `Export.AnalysisResult`. It is only displayed.
- A `FileReader` failure in the browser is not modelled: the chosen file is represented by its text. In the source that failure ends in an "Analysis failed: …" alert.
- Text fields that hold a file where text is expected are not modelled. Every text field is a string or absent. The `cv` field is modelled in all three forms: absent, a file, or text.
- Normalize.Truncate: `max` is an integer. A fractional `max` would be truncated by `slice`, but both call sites pass integer constants.
- Text outside the Basic Multilingual Plane is outside the model. A Dafny `char` is a Unicode scalar value and cannot hold a surrogate code unit, so a character such as an emoji, which JavaScript stores as a surrogate pair of two code units, has no one-`char`-per-code-unit form here. If it were written as one `char` instead, the model would count it once where `slice` and `length` in the source count it twice toward the 6000, 1000 and 3000 caps.
- `IsWhitespace` is the ECMAScript WhiteSpace and LineTerminator set, which `\s` and `trim` share. Code points reclassified by later Unicode versions are not tracked.
- Export.SkillsLine: the round trip is stated for non-empty lists whose items hold no "•". Joining an empty list gives "", which splits to one empty item.
- Export.KeywordsLine: the round trip is stated for non-empty lists whose items hold no ",".
- Extractor.BrowserParse: the corrected browser extractor recorded under Findings, not the page's. The page's extractor is `Extractor.BrowserParseAsWritten`, whose repair is `NewlineRepair.Repair`, computed by `NewlineRepair.RepairLoop`; `HomePage.Analyze` uses it.
- Extractor.BrowserCandidate: the corrected candidate; its JSON-clean guarantee does not hold for the page's candidate `Extractor.BrowserCandidateAsWritten` (see `Extractor.AsWrittenKeepsSampleBreak`).
- `console.error` logging of the error and the raw model output on failure (app/api/analyze-cv/route.ts lines 91 and 97; app/page.tsx lines 141 and 256; app/optimize/page.tsx line 63) is not modelled: it is output only and changes no response, alert or stored value.

## Findings

| source | as written | input that shows it | evidently intended | confidence | as-written member | corrected member |
|---|---|---|---|---|---|---|
| app/page.tsx:70 | a `"` counts as escaped whenever the previous source character is a backslash, even when that backslash is itself escaped | `{"a":"x\\","b":"l` LF `b"}`: the quote closing `"x\\"` does not flip the flag, so the flag is inverted from there and the LF inside `"l…b"` is left raw | every raw line break inside a JSON string literal is escaped, tracking escapes as a JSON lexer does | high; not executed | NewlineRepair.RepairMissesBreakAfterEscapedBackslash | NewlineRepair.ScanJsonCleans |
