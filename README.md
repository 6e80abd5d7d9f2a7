# Metaphor response parsing, modelled in Dafny

This project models the part of the Microvisuals metaphor generator that turns the raw text
of a language-model completion into a typed value: a metaphor result, a rejection, or an
error. The application holds two independent implementations of that pipeline, and the
model keeps them apart.

- **Automated path** (`src/api.ts`). `parseModelResponse` first tries `JSON.parse` on the
  trimmed text. If that fails, it finds the first `{` and runs a string-aware brace scanner
  to its matching `}`, then re-parses that substring. `validateMetaphorResponse` sorts a
  parsed value into a rejection, a result, or a `ParseError`. The module-level counter
  `getNextRequestId` is exported for tagging requests so that stale responses can be
  discarded; nothing in the modelled files calls it.
- **Manual-paste path** (`handleParseJSON` in `src/App.tsx`). It does the following:
  - rejects empty input;
  - unwraps the first fenced code block;
  - runs an eleven-step `.replace` chain that leaves printable ASCII;
  - cuts from the first `{` to the last `}`;
  - parses, then validates loosely (a truthy `rejection`, or three truthy fields).

  Exactly one of the component's `resultJSON`, `rejection` and `parseError` states is set
  afterwards. `handleClear` resets the state, and the file poll classifies what it reads.
- **Domain types** (`src/types.ts`):
  - `MetaphorResult` / `MetaphorRejection` and their union;
  - `isRejection`;
  - the `ParseError` and `APIError` payloads.

Modules:
- `Wrappers`: `Option` and `Result`.
- `Json`: parsed JavaScript values, with JavaScript truthiness and property access.
- `JsStrings`: `trim`, `indexOf`, `lastIndexOf`.
- `Types`: the domain types, the run-time object of each response, and a strict decoder.
- `BraceScanner`: the scanner as a state machine, a specification of where it stops, and the
  loop proved against that specification.
- `Api`: validation, the staged parse, and the counter.
- `Sanitization`: the replace chain and a one-pass reference definition.
- `Fence`: the code-block regular expression.
- `Paste`: the manual path, the poll, and the `AppState` class holding the component's state.

`JSON.parse` is a parameter of type `string -> ParseOutcome`. It either yields a value or
throws a `SyntaxError` with a message. Every property below holds for any parser. Where a
lemma needs particular parser behaviour, it says so in its `requires`.

Behaviour of the code that is easy to miss, and that the model keeps:
- The automated path does no fence extraction and no sanitization before its brace scan.
  It relies only on the scan.
- Its `ParseError` carries the whole original text, not a 100-character prefix. The prefix
  appears only in the paste path's `console.error`, which is left out.
- An array passes the `typeof obj === 'object'` test, so it is reported as incomplete, not
  as "Expected object".
- An incomplete object never surfaces as the "incomplete" error. The surrounding `catch`
  turns every validation failure into "Parse failed." (`Api.IncompleteObjectReportedAsParseFailed`).

## Model

| member | source | states |
|---|---|---|
| Api.RequestIdCounter.constructor | src/api.ts:4 | the counter starts at 0 |
| Api.RequestIdCounter.GetNextRequestId | src/api.ts:6-8 | pre-increments the counter and returns its new value |
| Api.ConsecutiveIds | src/api.ts:6-8 | two consecutive ids differ by exactly one, so ids strictly increase |
| Api.ValidateMetaphorResponse | src/api.ts:220-240 | succeeds exactly on objects with a string `rejection` or all seven fields truthy |
| Api.ValidateOutcome | src/api.ts:220-240 | a success on an object with a string `rejection` is `{rejection}` alone, and on any other object is that object unchanged, with all seven fields truthy; arrays and objects fail with "incomplete", every other value with "Expected object"; no error carries raw text |
| Api.RejectionShortCircuit | src/api.ts:228-230 | a string `rejection` yields exactly `{rejection}`, whatever else the object holds, and that value satisfies `isRejection` |
| Api.MissingFieldDetected | src/api.ts:233-237 | removing any one of the seven keys gives the "incomplete" error, a message distinct from the three extraction errors |
| Api.ValidateAcceptsEncodedResponse | src/api.ts:220-240 | a well-typed rejection always validates; a well-typed result validates unchanged exactly when its three top-level strings are non-empty |
| Api.ValidationIsShallow | src/api.ts:233-239 | validation checks truthiness, not types: a one-number quote list is accepted though the strict decoder refuses it |
| Api.ValidatedResultCanSatisfyIsRejection | src/api.ts:228-239 | an accepted result may still carry a non-string `rejection` key, on which `isRejection` answers true |
| Api.ParseModelResponse | src/api.ts:151-217 | the staged method returns exactly the specification `ModelResponse`: the direct attempt on the trimmed text, then the fallback |
| Api.ModelResponse | src/api.ts:151-216 | defines the outcome: the validated direct parse of the trimmed text when it succeeds, else the fallback `Extracted`; its promises are stated by `ModelResponseErrors`, `ModelResponseShape` and the end-to-end lemmas below |
| Api.Extracted | src/api.ts:162-216 | defines the fallback: "No JSON object found" without a `{`, "Unclosed JSON object" when the scanner finds no match, else `Reparse` of the span from the first `{` to its match; `NoBraceMeansNoJsonObject`, `NeverClosedMeansUnclosed` and `ReparsedSubstring` state these cases |
| Api.Reparse | src/api.ts:208-215 | defines the second attempt: the validated parse of the extracted span, any failure of the parse or the validation becoming "Parse failed." with the original text (`IncompleteObjectReportedAsParseFailed`) |
| Api.ExtractObject | src/api.ts:162-216 | the fallback, scanning loop included, returns exactly the specification `Extracted`: no `{`, no match, or the re-parse of the matched slice |
| Api.ModelResponseErrors | src/api.ts:162-215 | every failure carries the original untrimmed text and is "No JSON object found.", "Unclosed JSON object." or "Parse failed." |
| Api.ModelResponseShape | src/api.ts:155-215 | every success is a rejection object or an object with all seven fields truthy |
| Api.DirectParseFirst | src/api.ts:155-158 | a direct parse that validates is returned without scanning |
| Api.NoBraceMeansNoJsonObject | src/api.ts:162-165 | with no `{` in the trimmed text, the result is the "No JSON object found." error with the original text |
| Api.NeverClosedMeansUnclosed | src/api.ts:204-206 | when the depth never returns to zero, the result is the "Unclosed JSON object." error |
| Api.ReparsedSubstring | src/api.ts:168-208 | the re-parsed slice runs from the first `{` to a `}` at which depth first returns to zero, with depth at least one strictly between |
| Api.IncompleteObjectReportedAsParseFailed | src/api.ts:156-215 | an incomplete object comes back as "Parse failed.", never as "incomplete" |
| Api.RejectionEndToEnd | src/api.ts:151-158 | a bare rejection object comes back as that rejection and satisfies `isRejection` |
| Api.ExtractsBalancedObject | src/api.ts:159-215 | after a failed direct parse, a balanced object preceded by brace-free text is exactly what is re-parsed, whatever follows |
| Api.FencedResultEndToEnd | src/api.ts:151-215 | fenced output of a complete result with object "Candle" parses into that result, and decodes back to it |
| Api.BraceInStringEndToEnd | src/api.ts:168-215 | for `x {"a": "contains } brace"} y` the whole object is re-parsed, not the text up to the quoted `}` |
| BraceScanner.FindMatchingBrace | src/api.ts:168-202 | the loop with its early `break` returns `MatchEnd`: the first index at which the string-aware depth returns to zero, or -1 |
| BraceScanner.MatchEndProperties | src/api.ts:168-206 | a found end lies after the start, holds `}`, brings depth to zero and keeps depth at least one before it; with no end, depth stays at least one to the end of the text |
| BraceScanner.StringBodyIsInert | src/api.ts:176-201 | inside a string literal, braces and escaped quotes change nothing: the state after the body is the state before it |
| BraceScanner.StringLiteralPositive | src/api.ts:176-201 | a quoted string at positive depth leaves depth unchanged and positive throughout |
| BraceScanner.PlainTextInert | src/api.ts:191-201 | outside strings, text without braces, quotes or backslashes leaves the scanner state unchanged |
| BraceScanner.MatchEndIgnoresTrailingText | src/api.ts:173-199 | once a match is found, text appended afterwards does not move it (the `break`) |
| BraceScanner.MatchEndOfSpan | src/api.ts:168-202 | a balanced object at the start position is matched exactly at its last character |
| BraceScanner.OneMemberObjectMatched | src/api.ts:162-208 | in `pre {"key": "value"} post`, the first `{` and its match bound exactly that object |
| BraceScanner.BraceInsideStringRegression | src/api.ts:168-208 | `x {"a": "contains } brace"} y` starts at index 2 and extracts `{"a": "contains } brace"}` |
| BraceScanner.Step | src/api.ts:176-201 | defines one loop iteration: an escaped character is skipped, a backslash in a string arms the escape, a quote toggles the string state, and braces outside strings move the depth; `StringBodyIsInert` and `PlainTextInert` state what runs of it leave unchanged |
| Types.Step1RoundTrip | src/types.ts:2-8 | reading back a step-1 object gives the same five strings |
| Types.Step3RoundTrip | src/types.ts:10-14 | reading back a mechanic object gives the same rule and mappings |
| Types.BestRoundTrip | src/types.ts:16-19 | both `line1` and `line2` survive a round trip, including an empty `line2` |
| Types.ResultObjectMembers | src/types.ts:21-29 | a result object has exactly the seven keys with the encoded members, and no `rejection` |
| Types.DecodeResponseObject | src/types.ts:21-35 | every response decodes back from its run-time object, with the three quotes in order |
| Types.IsRejectionDiscriminates | src/types.ts:37-39 | on well-typed responses, `isRejection` holds exactly on rejections |
| Types.DecodedVariantMatchesIsRejection | src/types.ts:35-39 | on any object that decodes, `isRejection` agrees with the decoded variant |
| Types.IsRejection | src/types.ts:37-39 | defines `isRejection` as presence of the `rejection` key, whatever its value; `IsRejectionDiscriminates` and `DecodedVariantMatchesIsRejection` state that it tells the two variants apart |
| Types.ParseErrorPayload | src/types.ts:54-59 | a parse error keeps the message and optional raw text it was built with, is named "ParseError", and its name differs from a provider error's |
| Types.ApiErrorPayload | src/types.ts:42-52 | a provider error keeps its message, optional status code and optional details, and is named "APIError" |
| JsStrings.Trim | src/api.ts:153 | the result is the input minus leading and trailing whitespace, empty exactly when the input is all whitespace |
| JsStrings.TrimIdempotent | src/App.tsx:45 | a property of `String.prototype.trim`: trimming twice equals trimming once |
| JsStrings.IndexOf | src/api.ts:162 | -1 exactly when the character is absent, else its first position |
| JsStrings.LastIndexOf | src/App.tsx:81 | -1 exactly when the character is absent, else its last position |
| Fence.NextMark | src/App.tsx:55 | the result is -1 or a position at or after the start where a triple backtick begins |
| Fence.NextMarkFirst | src/App.tsx:55 | no triple backtick begins between the start and the result, nor anywhere after the start when the result is -1 |
| Fence.FenceFoundIff | src/App.tsx:55-56 | a fenced block is found exactly when two non-overlapping triple backticks occur |
| Fence.FenceStripping | src/App.tsx:55-58 | in `pre```json ws body``` post`, the captured interior is exactly `body` |
| Fence.FenceInterior | src/App.tsx:55-57 | defines the capture group of the first match, trying each opening fence left to right; `FenceFoundIff` and `FenceStripping` state when it matches and what it captures |
| Fence.WorkingText | src/App.tsx:52-58 | defines the working string: the trimmed capture when a block matches, else the trimmed input; `NoFenceWithoutBackticks` and `FencedWorkingText` state both cases |
| Sanitization.SanitizeIsNormalize | src/App.tsx:61-77 | the eleven-pass chain equals control stripping followed by the one-pass `Normalize`, in which a CRLF pair gives one space; the two passes cannot be fused, since `"\r\x01\n"` gives one space |
| Sanitization.SanitizedIsPrintable | src/App.tsx:61-77 | every character of a sanitized string lies in 0x20..0x7E |
| Sanitization.SanitizeFixesPrintable | src/App.tsx:61-77 | printable ASCII passes through unchanged |
| Sanitization.SanitizeIdempotent | src/App.tsx:61-77 | sanitizing twice equals sanitizing once |
| Sanitization.SanitizeOneCharacter | src/App.tsx:62-77 | CR, LF and tab give a space; smart single quotes give `'`; smart double quotes give `"`; en and em dash give `-`; ellipsis gives `...`; printable characters stay; control and other non-ASCII characters vanish |
| Sanitization.SanitizeLineBreaks | src/App.tsx:63-65 | CRLF gives one space, while LF followed by CR gives two |
| Sanitization.StrippedControlJoinsCrlf | src/App.tsx:61-65 | control stripping comes first, so a control character between CR and LF leaves one CRLF pair and one space, where the lone CR and LF would give two |
| Sanitization.Sanitize | src/App.tsx:61-77 | defines the eleven passes in source order; `SanitizeIsNormalize`, `SanitizedIsPrintable`, `SanitizeFixesPrintable` and `SanitizeIdempotent` state what the chain does |
| Paste.CutFirstToLast | src/App.tsx:79-88 | succeeds exactly when some `{` precedes some `}`; the cut is the slice from the first `{` to the last `}`, with neither brace outside it; otherwise "No valid JSON object found." |
| Paste.CutWholeObject | src/App.tsx:80-88 | text that starts with `{` and ends with `}` is cut whole |
| Paste.NaiveCutOvershoots | src/App.tsx:80-88 | the cut is not string-aware: prose ending in `}` after an object stays in the cut, where the scanner stops at the object's end |
| Paste.Classify | src/App.tsx:93-106 | a truthy `rejection` wins; otherwise a result exactly when `step2_object`, `step3_mechanic` and `step4_best` are truthy; an error shows the TypeError message exactly when the parsed value is `null`, and "JSON is missing required fields." otherwise |
| Paste.EmptyInputShowsPrompt | src/App.tsx:45-49 | input that trims to nothing gives only "Paste the JSON from Claude Code." |
| Paste.Candidate | src/App.tsx:45-88 | defines the text handed to `JSON.parse`: empty input is refused, then fence unwrapping, sanitizing and the first-to-last cut; `CandidateIsCut` and `CandidateShape` state it |
| Paste.ManualParse | src/App.tsx:40-107 | defines the outcome of one `handleParseJSON`: the candidate's error, the parser's error message, or `Classify` of the parsed value; `AppState.HandleParseJson` is proved to show it |
| Paste.CandidateIsCut | src/App.tsx:45-88 | for a non-empty trimmed input, the text handed to the parser is the first-to-last cut of the sanitized working text |
| Paste.CandidateShape | src/App.tsx:45-88 | the text handed to the parser is printable ASCII, starts with `{` and ends with `}` |
| Paste.PlainObjectIsCandidate | src/App.tsx:45-88 | a printable object text without backticks is handed to the parser as it is |
| Paste.FencedObjectIsCandidate | src/App.tsx:45-88 | the same object wrapped in a fenced block tagged `json` is handed to the parser unchanged |
| Paste.FencedParsesLikeBare | src/App.tsx:45-107 | a backtick-free object text and the same text in a fenced block tagged `json` have the same outcome, whatever characters the object holds |
| Paste.FencedResultScenario | src/App.tsx:45-103 | a fenced complete result with object "Candle" is shown as that result |
| Paste.ClassifyTypedResponse | src/App.tsx:93-103 | on well-typed responses, a rejection is shown exactly when its reason is non-empty, and a result exactly when its object name is non-empty |
| Paste.PathsAgreeOnCompleteResults | src/App.tsx:93-103 | an object with all seven fields truthy and no `rejection` is a result on both paths |
| Paste.PathsAgreeOnRejections | src/App.tsx:93-96 | a non-empty string rejection is a rejection on both paths |
| Paste.EmptyRejectionDiffers | src/App.tsx:93-101 | `{"rejection": ""}` is a rejection to the automated path but a missing-fields error here |
| Paste.ThreeFieldsSufficeForPaste | src/App.tsx:98-103 | three truthy fields suffice here, while the automated path reports the object as incomplete |
| Paste.NonStringRejectionDiffers | src/App.tsx:93-96 | a truthy non-string rejection is shown here, while the automated path ignores it |
| Paste.AppState.constructor | src/App.tsx:6-9 | the input is empty and no result, rejection or error is set |
| Paste.AppState.SetJsonInput | src/App.tsx:160 | the input changes and nothing else does |
| Paste.AppState.HandleParseJson | src/App.tsx:40-108 | the input is unchanged, and exactly the one field the outcome `ManualParse` calls for is set, the other two null |
| Paste.AppState.ShowParsed | src/App.tsx:90-103 | from cleared state, exactly the field that `Classify` selects is set |
| Paste.AppState.HandleClear | src/App.tsx:130-135 | the input is "" and result, rejection and error are null |
| Paste.Poll | src/App.tsx:19-26 | a truthy `step2_object` gives a result; otherwise a truthy `rejection` gives a rejection; otherwise nothing happens |
| Paste.PollPrecedence | src/App.tsx:19-26 | a truthy `step2_object` wins over any `rejection`, and a failed fetch changes nothing |
| Paste.AppState.CheckForUpdate | src/App.tsx:14-31 | a result clears rejection and error; a rejection clears the result but keeps any parse error; otherwise nothing changes |
| Paste.NoObjectWithoutBrace | src/App.tsx:79-86 | printable text without a `{`, a backtick or surrounding whitespace is refused with "No valid JSON object found." before any parse |
| Paste.PollKeepsStaleParseError | src/App.tsx:19-26 | after such text is parsed ("No valid JSON object found."), a polled rejection leaves both the rejection and that error set |

## Left out

- `generateMetaphor` and `generateImage` (`src/api.ts:243-405`) are network calls with
  headers, abort signals and the image-model fallback. They are not modelled, and neither
  are their error-message choices.
- `buildMetaphorPrompt` is a fixed template string with nothing to verify.
- `JSON.parse` is a parameter, not an implementation of the JSON grammar. The parser is
  a function: the same text always gives the same outcome.
- Characters are Dafny `char`s (Unicode scalar values), not UTF-16 code units.
  - A character outside the Basic Multilingual Plane is one `char` here but two code
    units in JavaScript.
  - The sanitize chain drops it either way.
  - The scanner, `trim` and `indexOf` only look at ASCII characters and at whitespace,
    which lies inside the Basic Multilingual Plane.
  - Positions count characters, not code units.
- The message thrown for reading `rejection` of `null` is V8's wording. Other engines
  word it differently.
  - The `'Unknown error'` branch at `src/App.tsx:106` is not modelled: `JSON.parse` and
    property access throw only `Error` instances.
- The "View Metaphor" button that runs `handleParseJSON` is disabled while the input
  trims to nothing (`src/App.tsx:174-176`). The empty-input branch at `src/App.tsx:46-49`
  is therefore unreachable from the UI. The model keeps it (`Paste.EmptyInputShowsPrompt`)
  and does not model the button.
- `console.error` at `src/App.tsx:105` and its 100-character prefix are not modelled.
- The polling timer, `fetch`, `Date.now`, the response status and the body parse become the
  single `Option` argument of `CheckForUpdate`. `None` stands for every path that changes
  nothing.
- The clipboard copy (`handleCopyDalle`, the `copied` flag, `setTimeout`) and all rendering
  are not modelled. The rendering is why a stale parse error stays hidden while a rejection
  is shown.
- Api.RequestIdCounter.GetNextRequestId: the counter is an unbounded integer. JavaScript
  numbers lose integer precision above 2^53, a point no session reaches.
- The poster compositor and `src/mockData.ts` (static data and `Math.random`) are not part
  of this model.
