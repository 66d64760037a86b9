# AI Policy Copilot: a Dafny model of the SOC2 readiness wizard

AI Policy Copilot is a browser application with two serverless functions.
Users upload a PDF policy document and the app extracts its text. The
analysis function asks an AI gateway which of five fixed SOC2 controls the
document covers. For each missing control, the generation function has
the gateway draft a policy.

This project models the core of the app in Dafny:

- **The client store** (`compliance_store.dfy`, module `ComplianceStore`).
  It holds six fields shared by every panel. It is a class whose setter
  methods overwrite fields in place. Each setter states its whole new
  state as a `StoreState` value. Every setter preserves the invariant that
  no two stored policies name the same control.
- **The wizard page** (`wizard.dfy`, module `Wizard`). It tracks the
  current step (upload, analyze, results), the callbacks handed to the
  panels, and the reset handler.
- **The step indicator** (`step_indicator.dfy`). It is a pure rendering
  from the current step number to what each of the three steps shows.
- **PDF text assembly** (`pdf_parser.dfy`). A loop over the pages that
  accumulates text, followed by a JavaScript `trim`.
- **The three panels** (`file_upload.dfy`, `analysis_panel.dfy`,
  `results_panel.dfy`). Each is a class holding its local React state and
  a reference to the shared store. Each asynchronous handler is split at
  its single `await`:
  - a `Begin…` method runs up to the call;
  - a `Finish…` method takes the call's outcome as a parameter.
- **The two edge functions** (`analyze_compliance.dfy`,
  `generate_policy.dfy`, on top of `edge_http.dfy`). Each is a pure
  decision function from the request, the environment, the gateway's reply
  and (for analysis) the JSON parser to the HTTP response. `Prepare` covers
  the part before the gateway call and `Complete` the part after it.

Shared helpers:

- `strings.dfy`: JavaScript `trim` with the JavaScript whitespace set,
  `join` and `substring(0, n)`.
- `functions_client.dfy`: the client's view of a function invocation.
- `wrappers.dfy`: `Option`.

Three behaviours of the code are worth knowing before reading the model:

- **Failure statuses.** Generic and format failures of the gateway are
  answered `500` (one might expect `502`). Every thrown error reaches the
  single catch block, which always answers `500` with the error's message.
- **No partition check.** The analysis function does not check that
  `covered` and `missing` partition the five controls. It only checks that
  the three keys are truthy. `NoPartitionCheck` exhibits a verdict that
  names one control in both lists and is still returned with `200`.
- **One busy slot.** The generation busy flag is a single slot, not one
  flag per control. Finishing any generation empties the slot, even while
  another generation is still in flight. `OverlappingGenerations` shows
  that the second control's button is enabled again before its own call
  has returned. Both policies are still stored.

## Model

| member | source | states |
|---|---|---|
| ComplianceStore.WithoutControl | src/store/complianceStore.ts:41 | the filter keeps exactly the entries whose control differs from the given one |
| ComplianceStore.WithoutControlIdempotent | src/store/complianceStore.ts:41 | filtering a control out twice is the same as filtering it once |
| ComplianceStore.CountWithoutControl | src/store/complianceStore.ts:41 | after the filter no entry for that control remains |
| ComplianceStore.WithoutControlKeepsUnique | src/store/complianceStore.ts:41 | the filter preserves "no two entries share a control" |
| ComplianceStore.Upsert | src/store/complianceStore.ts:41 | the new list ends with the policy, and holds exactly the policy plus the old entries for other controls |
| ComplianceStore.UpsertSingleEntry | src/store/complianceStore.ts:40-42 | after addGeneratedPolicy, exactly one entry has the policy's control, and it is the last entry and equals the policy |
| ComplianceStore.UpsertKeepsOthers | src/store/complianceStore.ts:40-42 | entries for other controls are kept, in their original order |
| ComplianceStore.UpsertPreservesUnique | src/store/complianceStore.ts:40-42 | adding a policy preserves "at most one policy per control" |
| ComplianceStore.UpsertIdempotent | src/store/complianceStore.ts:40-42 | adding the same policy twice equals adding it once |
| ComplianceStore.UpsertLastWriteWins | src/store/complianceStore.ts:40-42 | a second policy for the same control replaces the first (last write wins) |
| ComplianceStore.Store.constructor | src/store/complianceStore.ts:30-36 | the store starts with empty text and name, no result, no policies and both busy flags clear |
| ComplianceStore.Store.SetDocumentText | src/store/complianceStore.ts:38 | sets text and file name; the other four fields are unchanged |
| ComplianceStore.Store.SetComplianceResult | src/store/complianceStore.ts:39 | sets the result; nothing else changes |
| ComplianceStore.Store.AddGeneratedPolicy | src/store/complianceStore.ts:40-42 | replaces the policy list with its upsert and keeps the one-per-control invariant; nothing else changes |
| ComplianceStore.Store.SetIsAnalyzing | src/store/complianceStore.ts:43 | sets the analysis flag; nothing else changes |
| ComplianceStore.Store.SetIsGenerating | src/store/complianceStore.ts:44 | sets the single generation slot; nothing else changes |
| ComplianceStore.Store.Reset | src/store/complianceStore.ts:45-52 | every field returns to its initial value, whatever it held |
| PdfParser.PageText | src/lib/pdfParser.ts:18-20 | a page's text is its item strings joined by single spaces |
| PdfParser.Accumulated | src/lib/pdfParser.ts:15-22 | the accumulator after a run of pages; its meaning is stated by AccumulatedIsJoin |
| PdfParser.PdfText | src/lib/pdfParser.ts:24 | the extracted text is no longer than the accumulation and neither starts nor ends with whitespace |
| PdfParser.ExtractTextFromPdf | src/lib/pdfParser.ts:13-24 | the page loop produces the trimmed accumulation of page texts, and the result neither starts nor ends with whitespace |
| PdfParser.NoPagesNoText | src/lib/pdfParser.ts:13-24 | a document with no pages yields the empty string |
| PdfParser.AccumulatedAppend | src/lib/pdfParser.ts:15-22 | the accumulation over two runs of pages is the concatenation of the two accumulations |
| PdfParser.AccumulatedIsJoin | src/lib/pdfParser.ts:15-22 | each page contributes its text and a blank line, in page order |
| PdfParser.PagesSeparatedByBlankLines | src/lib/pdfParser.ts:15-24 | the result is the page texts joined by blank lines, then trimmed |
| Strings.Join | src/lib/pdfParser.ts:18-20 | `join`: the parts in order with the separator between neighbours |
| Strings.JoinEnds | src/lib/pdfParser.ts:18-20 | joining nothing gives ""; otherwise the result starts with the first part and ends with the last |
| Strings.Prefix | supabase/functions/generate-policy/index.ts:44 | `substring(0, n)`: the first min(n, length) characters, a prefix of the input |
| Strings.Trim | src/lib/pdfParser.ts:24 | the trimmed string is no longer than the input and neither starts nor ends with JavaScript whitespace |
| Strings.TrimIsInfix | src/lib/pdfParser.ts:24 | trim removes exactly the leading and trailing whitespace: the result is a contiguous piece of the input with only whitespace before and after it |
| Strings.TrimCharacterization | src/lib/pdfParser.ts:24 | whitespace + core + whitespace, where the core has non-whitespace edges, trims to the core |
| Strings.TrimIdempotent | src/lib/pdfParser.ts:24 | trimming twice equals trimming once |
| Strings.TrimIgnoresTrailingWhitespace | src/lib/pdfParser.ts:24 | appending whitespace does not change the trimmed text |
| Wizard.StepNumber | src/pages/Index.tsx:15-21 | every step maps to a number in 1..3 |
| Wizard.StepNumberBijective | src/pages/Index.tsx:15-21 | distinct steps get distinct numbers, and each number in 1..3 belongs to a step |
| Wizard.IndicatorShowsStep | src/pages/Index.tsx:31 | the indicator drawn for the page's step marks exactly that step, by its caption, as current |
| Wizard.OnlyTransitions | src/pages/Index.tsx:34-45 | the only moves are upload to analyze, analyze to results, analyze back to upload, and results to upload |
| Wizard.NoSkippedStep | src/pages/Index.tsx:34-45 | no move advances by more than one step, so upload never goes straight to results |
| Wizard.ResultsOnlyThroughComplete | src/pages/Index.tsx:34-45 | any event sequence that reaches results from another step contains the analysis panel's onComplete |
| Wizard.IndexPage.constructor | src/pages/Index.tsx:12 | the page starts at the upload step |
| Wizard.IndexPage.GetStepNumber | src/pages/Index.tsx:15-21 | the number handed to the indicator is in 1..3 |
| Wizard.IndexPage.Fire | src/pages/Index.tsx:34-45 | a callback offered by the rendered panel sets its step; start-over also resets the store; other callbacks change nothing |
| Wizard.IndexPage.HandleReset | src/pages/Index.tsx:23-26 | the store is back at its initial state and the page is at upload |
| StepIndicator.ClassifyExclusive | src/components/StepIndicator.tsx:23-27 | a step is done, current or pending exactly as the current number is above, equal to or below its number |
| StepIndicator.Render | src/components/StepIndicator.tsx:8-58 | three views in order 1..3 with their captions; check mark iff done; emphasised label iff not pending; connectors after the first two only, success-coloured iff done |
| StepIndicator.ExactlyOneCurrent | src/components/StepIndicator.tsx:23-27 | for a step number in 1..3, exactly that step is current, earlier ones are done and later ones pending |
| StepIndicator.NoCurrentOutsideRange | src/components/StepIndicator.tsx:23-27 | a number outside 1..3 makes no step current |
| FileUpload.Panel.constructor | src/components/FileUpload.tsx:15 | the panel starts not processing |
| FileUpload.Panel.ContinueEnabled | src/components/FileUpload.tsx:161 | continue is enabled iff document text is stored |
| FileUpload.Panel.FilePickerEnabled | src/components/FileUpload.tsx:91-109 | the drop zone is shown while no file name is stored and accepts files unless processing |
| FileUpload.Panel.BeginHandleFile | src/components/FileUpload.tsx:20-29 | a non-PDF is turned away without setting the busy flag; a PDF sets it and disables the drop zone |
| FileUpload.Panel.FinishHandleFile | src/components/FileUpload.tsx:30-53 | an extraction failure stores nothing; text under 50 characters stores nothing; otherwise the trimmed text and the file name are stored and continue is enabled; the busy flag is cleared on every path |
| FileUpload.Panel.HandleFile | src/components/FileUpload.tsx:19-54 | the whole handler: each of the four outcomes (invalid type, extraction failure, too short, uploaded) happens exactly under its condition; on upload the store holds the trimmed text and the file name; otherwise the store is unchanged |
| FileUpload.Panel.ClearFile | src/components/FileUpload.tsx:77-79 | empties the text and the file name, which disables continue (line 161) |
| AnalysisPanel.ControlListsAgree | src/components/AnalysisPanel.tsx:8-14 | the panel lists the same five controls, in the same order, that the analysis function asks about |
| AnalysisPanel.Panel.constructor | src/components/AnalysisPanel.tsx:24 | the panel starts with no analysis started |
| AnalysisPanel.Panel.AnalyzeEnabled | src/components/AnalysisPanel.tsx:119 | analyze is enabled iff no analysis is running and none has succeeded in this panel |
| AnalysisPanel.Panel.BackEnabled | src/components/AnalysisPanel.tsx:111 | back is enabled iff no analysis is running |
| FunctionsClient.Succeeded | src/components/AnalysisPanel.tsx:35-41 | an invocation succeeds iff `error` is unset and `data.error` is falsy |
| AnalysisPanel.Panel.BeginAnalyze | src/components/AnalysisPanel.tsx:26-33 | raises both flags before the call, so analyze and back are disabled (lines 111, 119), and sends the stored text |
| AnalysisPanel.Panel.FinishAnalyze | src/components/AnalysisPanel.tsx:35-59 | success iff there is no error and data.error is falsy; on success the verdict is stored; on failure nothing is stored and retry is re-enabled; the busy flag is cleared on every path |
| AnalysisPanel.Panel.HandleAnalyze | src/components/AnalysisPanel.tsx:26-60 | started from the enabled analyze button; a success stores exactly the verdict (every other field as before, busy flag cleared) and leaves analyze disabled, so no second analysis can start; after a failure the store differs only in its cleared busy flag |
| ResultsPanel.ComplianceScore | src/components/ResultsPanel.tsx:73-75 | the score is the whole number nearest to 100·covered/total, halves rounded up, and lies in 0..100 |
| ResultsPanel.DisplayedScore | src/components/ResultsPanel.tsx:74-75 | with no controls at all the score is NaN; otherwise it lies in 0..100 |
| ResultsPanel.ScoreExamples | src/components/ResultsPanel.tsx:75 | 1 of 5 scores 20, 1 of 8 scores 13, all covered 100, none covered 0 |
| ResultsPanel.FindPolicy | src/components/ResultsPanel.tsx:65-67 | the policy found is a stored one for the control; none is found iff no stored policy names it |
| ResultsPanel.FindPolicyFirst | src/components/ResultsPanel.tsx:65-67 | the policy found is the first stored one for the control: no earlier entry names it |
| ResultsPanel.FindPolicyUnique | src/components/ResultsPanel.tsx:65-67 | under the store invariant, a stored policy is exactly what the lookup finds for its control |
| ResultsPanel.UpsertThenFind | src/components/ResultsPanel.tsx:65-67 | after a generated policy is stored (line 47), the lookup finds it for its control, and other controls find what they found before |
| ResultsPanel.MissingControlAction | src/components/ResultsPanel.tsx:161-186 | "View Policy" iff a policy for the control is stored, showing its content; otherwise "Generate Policy", disabled iff the busy slot names this control |
| ResultsPanel.Toggle | src/components/ResultsPanel.tsx:118 | the click collapses iff the control is the expanded one, and otherwise expands exactly that control |
| ResultsPanel.ToggleTwice | src/components/ResultsPanel.tsx:118 | two clicks on one control restore the state iff nothing or that control was expanded; otherwise everything ends collapsed |
| ResultsPanel.Render | src/components/ResultsPanel.tsx:69-199 | nothing without a result; otherwise the displayed score, one row per covered control (expanded iff it is the expanded control, reasoning shown only when expanded) and one row per missing control with its action |
| ResultsPanel.Panel.constructor | src/components/ResultsPanel.tsx:28-29 | nothing is expanded and no modal is open |
| ResultsPanel.Panel.BeginGeneratePolicy | src/components/ResultsPanel.tsx:31-37 | the busy slot names the control, so its button is disabled; nothing else in the store changes |
| ResultsPanel.Panel.FinishGeneratePolicy | src/components/ResultsPanel.tsx:39-62 | success iff there is no error and data.error is falsy; on success the policy is upserted, shown in the modal and offered as "View Policy"; on failure the policies are untouched; the slot is emptied on every path |
| ResultsPanel.Panel.ToggleExpanded | src/components/ResultsPanel.tsx:118 | the expanded control becomes the toggle of the old one; the modal is unchanged |
| ResultsPanel.Panel.ShowExistingPolicy | src/components/ResultsPanel.tsx:165 | opens the modal on the stored policy for the control |
| ResultsPanel.Panel.CloseModal | src/components/ResultsPanel.tsx:208 | closing the dialog clears the modal and nothing else |
| ResultsPanel.OverlappingGenerations | src/components/ResultsPanel.tsx:31-62 | with generations for a and b overlapping, the slot is empty while b is still pending and b's button is enabled; both policies end up stored |
| AnalyzeCompliance.ControlListing | supabase/functions/analyze-compliance/index.ts:38 | the listing is empty iff there are no controls; otherwise it opens with "1. " and the first control |
| AnalyzeCompliance.SystemPrompt | supabase/functions/analyze-compliance/index.ts:36-51 | the system prompt: the introduction, a blank line, the numbered controls, a blank line and the rules |
| AnalyzeCompliance.NumberedLineAt | supabase/functions/analyze-compliance/index.ts:38 | line i of the control listing is "i+1. " followed by control i |
| AnalyzeCompliance.UserPrompt | supabase/functions/analyze-compliance/index.ts:63 | the user message is the lead-in followed by a prefix of the document, which is the whole document when it has at most 30,000 characters; the length is bounded accordingly |
| AnalyzeCompliance.FirstIndexOf | supabase/functions/analyze-compliance/index.ts:96 | the index of the first occurrence of a character, absent iff the character does not occur |
| AnalyzeCompliance.LastIndexOf | supabase/functions/analyze-compliance/index.ts:96 | the index of the last occurrence of a character, absent iff the character does not occur |
| AnalyzeCompliance.ExtractJsonObject | supabase/functions/analyze-compliance/index.ts:96-99 | the greedy match is a slice of the reply that starts with "{" and ends with "}", with no "{" before it and no "}" after it; there is no match iff no "}" follows any "{" |
| AnalyzeCompliance.GreedyMatchSpans | supabase/functions/analyze-compliance/index.ts:96 | text with no "{" before and no "}" after a brace-delimited stretch yields the whole stretch, so asides in braces are swallowed into the candidate |
| AnalyzeCompliance.PreflightIsEmpty | supabase/functions/analyze-compliance/index.ts:17-19 | OPTIONS gets an empty 200 regardless of body, key or gateway |
| AnalyzeCompliance.ValidationIsTheOnly400 | supabase/functions/analyze-compliance/index.ts:24-29 | 400 is answered exactly when the document text is missing, empty or shorter than 50 characters, with the validation message |
| AnalyzeCompliance.Prepare | supabase/functions/analyze-compliance/index.ts:16-66 | the gateway is called iff the request is not OPTIONS, its body decodes, the document has at least 50 characters and a key is set; an early answer is 200, 400 or 500 and is empty iff OPTIONS |
| AnalyzeCompliance.Complete | supabase/functions/analyze-compliance/index.ts:68-125 | after the call the status is 200, 402, 429 or 500; 200 iff the body is the verdict, otherwise an error body |
| AnalyzeCompliance.Handle | supabase/functions/analyze-compliance/index.ts:16-126 | OPTIONS gets the empty pre-flight answer, and only OPTIONS gets an empty body |
| AnalyzeCompliance.ThrownErrorsAre500 | supabase/functions/analyze-compliance/index.ts:118-125 | a request body that does not decode, or a failed fetch, is answered 500 with the thrown message |
| AnalyzeCompliance.ReplyFailuresAre500 | supabase/functions/analyze-compliance/index.ts:88-125 | after an OK reply, an undecodable reply (its message), no content ("No response from AI model"), an unparsable candidate (the parser's message) or missing keys ("Invalid response structure from AI") are each answered 500 |
| AnalyzeCompliance.StatusCodes | supabase/functions/analyze-compliance/index.ts:16-126 | every response has status 200, 400, 402, 429 or 500 |
| AnalyzeCompliance.MissingKeyIs500 | supabase/functions/analyze-compliance/index.ts:31-34 | a valid document without an API key is answered 500 "LOVABLE_API_KEY is not configured" and nothing is sent |
| AnalyzeCompliance.ForwardedCall | supabase/functions/analyze-compliance/index.ts:36-66 | a forwarded call carries the key, the system prompt with the numbered controls, and at most the first 30,000 characters of a document of at least 50 |
| AnalyzeCompliance.GatewayStatusMapping | supabase/functions/analyze-compliance/index.ts:68-86 | a failing gateway status of 429 or 402 passes through; every other failing status becomes 500 |
| AnalyzeCompliance.SuccessIsVerbatim | supabase/functions/analyze-compliance/index.ts:88-116 | 200 after the call iff the reply is OK with content, a brace candidate that parses, and three truthy keys; the parsed object is returned verbatim |
| AnalyzeCompliance.NoBracePairIsInvalidFormat | supabase/functions/analyze-compliance/index.ts:96-99 | content with no "}" after a "{" is answered 500 "Invalid response format from AI" |
| AnalyzeCompliance.NoPartitionCheck | supabase/functions/analyze-compliance/index.ts:104-106 | a verdict naming one control as both covered and missing, and omitting the others, is returned with 200 |
| GeneratePolicy.UserPrompt | supabase/functions/generate-policy/index.ts:40-49 | the context template when document text is present, the generic one otherwise; its meaning is stated by the three lemmas below |
| GeneratePolicy.PromptQuotesControl | supabase/functions/generate-policy/index.ts:40-49 | both templates quote the control name right after the common lead-in |
| GeneratePolicy.ContextPromptEmbedsPrefix | supabase/functions/generate-policy/index.ts:40-46 | with document text, the prompt embeds exactly its first min(length, 5000) characters between the context introduction and the closing |
| GeneratePolicy.GenericPromptIgnoresDocument | supabase/functions/generate-policy/index.ts:47-49 | without document text, the prompt depends on the control alone |
| GeneratePolicy.PreflightIsEmpty | supabase/functions/generate-policy/index.ts:9-11 | OPTIONS gets an empty 200 regardless of anything else |
| GeneratePolicy.ControlRequired | supabase/functions/generate-policy/index.ts:16-21 | 400 is answered exactly when the control is missing or empty, with "Control name is required." |
| GeneratePolicy.Prepare | supabase/functions/generate-policy/index.ts:8-64 | the gateway is called iff the request is not OPTIONS, its body decodes with a non-empty control and a key is set; an early answer is 200, 400 or 500 and is empty iff OPTIONS |
| GeneratePolicy.Complete | supabase/functions/generate-policy/index.ts:66-107 | after the call the status is 200, 402, 429 or 500; 200 iff the body is the policy, otherwise an error body |
| GeneratePolicy.Handle | supabase/functions/generate-policy/index.ts:8-108 | OPTIONS gets the empty pre-flight answer, and only OPTIONS gets an empty body |
| GeneratePolicy.ThrownErrorsAre500 | supabase/functions/generate-policy/index.ts:100-107 | a request body that does not decode, a failed fetch, or an OK reply whose body does not decode is answered 500 with the thrown message |
| GeneratePolicy.MissingKeyIs500 | supabase/functions/generate-policy/index.ts:23-26 | a control without an API key is answered 500 "LOVABLE_API_KEY is not configured" and nothing is sent |
| GeneratePolicy.StatusCodes | supabase/functions/generate-policy/index.ts:8-108 | every response has status 200, 400, 402, 429 or 500 |
| GeneratePolicy.GatewayStatusMapping | supabase/functions/generate-policy/index.ts:66-84 | a failing gateway status of 429 or 402 passes through; every other failing status becomes 500 |
| GeneratePolicy.SuccessIsVerbatim | supabase/functions/generate-policy/index.ts:86-98 | 200 iff the reply is OK with non-empty content, which is returned verbatim as the policy; empty or absent content is 500 "No response from AI model" |

## Left out

- I/O is not modelled: toasts, console logging, drag-and-drop highlighting, JSX markup and CSS classes. Each toast is represented only by the outcome value that chooses it.
- The PDF library, `fetch`, `req.json()`, `response.json()`, `JSON.parse` and the environment lookup are inputs:
  - a document is its pages' item strings;
  - a gateway reply is a status plus the decoded `choices[0].message.content`;
  - the parser is a function parameter.
- Wizard.IndexPage.Fire: fires any callback the rendered panel holds, without consulting that panel's button guards (`ContinueEnabled`, `BackEnabled`). It admits more event sequences than the app, so the step lemmas, which are safety properties, still hold for the app.
- The React runtime is not modelled. Rendering is a function of the state, and each handler is split at its one `await`. Interleavings are shown only as explicit sequences of steps, as in `OverlappingGenerations`. Local panel state is lost when a panel unmounts; that reset is not modelled.
- ResultsPanel.ComplianceScore: uses the exact integer formula for `Math.round(c / t * 100)`. Rounding of the floating-point product is not modelled. It could differ from the exact value only where 100·c/t lies exactly halfway between two integers.
- JSON numbers are modelled as integers. Truthiness of non-integer numbers is therefore not modelled.
- Non-string values are not modelled for `documentText`, `control`, the reply content or `data.error`: a truthy array sent as `documentText` is out of scope, for example.
- The verdict is assumed to have its declared shape: `covered` and `missing` are lists of strings and `reasoning` maps names to strings. The analysis function accepts any object whose three keys are truthy. A reply such as `{"covered": "Access Control", "missing": [], "reasoning": {}}` is answered 200, and the results panel's `covered.map` (src/components/ResultsPanel.tsx:107,114) would then throw. The model cannot represent such a verdict.
- FunctionsClient.Succeeded: a `data` of `null`, which would make `data.error` throw, is not modelled.
- ResultsPanel.Panel.FinishGeneratePolicy: `data.policy` is taken to be a string. An absent `policy` field is not modelled.
- String lengths are counted in Unicode scalar values, not the UTF-16 code units JavaScript counts. This affects the 50-character checks and the 30,000- and 5,000-character prefixes.
- CORS headers and the `Content-Type` header are not part of the modelled response. The gateway URL, HTTP method and headers are not modelled either; the call is reduced to the key, the model name and the two prompts.
- `src/pages/History.tsx`, `src/pages/Home.tsx`, `src/pages/Auth.tsx` and `src/components/Header.tsx` are not part of this model. The backend persistence they use is not part of it either.
