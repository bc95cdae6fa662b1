# Quiz solver and practice quiz: a verified model

The modelled system is a Next.js application with three pieces of logic.

1. **The quiz-solving flow** (`src/ai/flows/solve-quiz-flow.ts`). It does the following in order:
   - fetches a quiz page;
   - takes the first `<script>` block;
   - decodes the base64 argument of the first `` atob(`…`) `` call in that block;
   - asks one language-model prompt for the question, the submission URL and a JSON template;
   - asks a second prompt for the answer;
   - writes `email`, `secret`, `url` and `answer` into the template;
   - POSTs the result and reports the verdict.

   Every step appends a line to one log. The first step that throws ends the run with an error result.
2. **The practice quiz** (`src/components/quiz-client.tsx`). It has:
   - a reducer over a seven-field state and eight actions;
   - a 180-second countdown per question;
   - the comparison that judges the model's answer;
   - the `m:ss` rendering of the countdown.
3. **The trigger endpoint** (`src/app/api/quiz/route.ts`). It checks a POST body in a fixed order: valid JSON, the shared secret, then email and url. It starts a run only when all three checks pass.

The model has one module per concern. Each file has one module.

| file | module | what it holds |
|---|---|---|
| `wrappers.dfy` | `Wrappers` | `Option` |
| `json.dfy` | `JsValues` | JSON values, JavaScript truthiness, property reads |
| `decimal.dfy` | `Decimal` | decimal rendering of numbers and its read-back |
| `base64.dfy` | `Base64` | the base64 encoding of section 4 of RFC 4648, with a strict decoder proved to be its exact inverse |
| `search.dfy` | `TextSearch` | leftmost substring and character search |
| `page.dfy` | `PageExtraction` | what the two regular expressions of `fetchAndDecode` match, and the text it returns |
| `solveflow.dfy` | `SolveFlow` | the flow as a specification function `Run` and as the step-by-step method `SolveQuiz`, proved equal |
| `quiz.dfy` | `QuizPractice` | the reducer, the judge and the clock |
| `route.dfy` | `TriggerRoute` | the POST guards and `SECRET_KEY` |

Nothing in the model talks to the outside world:
- **Network and prompts.** The page fetch, the two prompts, the submission POST and the reading of its JSON reply are a parameter, `Outcomes`. Each stage either returns a value or throws a message.
- **Requests.** The run returns the list of requests it made, so it can be stated which calls are never made.
- **Library steps.** UTF-8 decoding, Buffer's lenient base64 decoding of malformed input, `JSON.stringify` and `JSON.parse` of the template are function-typed fields of `Env` and `TextCodec`.
- **Route parameters.** The route's configured secret is a parameter.

## Model

| member | source | states |
|---|---|---|
| `TextSearch.Find` | src/ai/flows/solve-quiz-flow.ts:38-39 | the result is the leftmost occurrence at or after the start position; none is reported only when none exists |
| `PageExtraction.IsScriptMatch` | src/ai/flows/solve-quiz-flow.ts:38 | where `<script>([\s\S]*?)<\/script>` can match: an opening tag, any text, and a closing tag at or after the opening's end; the extraction contracts are stated with it |
| `PageExtraction.IsCallMatch` | src/ai/flows/solve-quiz-flow.ts:45 | where ``atob\(`([^`]+)`\)`` can match: `` atob(` ``, a non-empty run without backticks, then `` `) ``; the extraction contracts are stated with it |
| `PageExtraction.FirstScript` | src/ai/flows/solve-quiz-flow.ts:38-39 | the script match is a `<script>` … `</script>` pair; its opening is leftmost and its closing the nearest one (lazy group); no match only when there is no such pair |
| `PageExtraction.CallEndingAt` | src/ai/flows/solve-quiz-flow.ts:45-46 | from an `` atob(` `` the call pattern can only end at the first backtick, which needs a non-empty run before it and `)` after it; otherwise no match starts there |
| `PageExtraction.CallMatchUnique` | src/ai/flows/solve-quiz-flow.ts:45 | a match of the call pattern from a given start has only one possible end |
| `PageExtraction.FindCall` | src/ai/flows/solve-quiz-flow.ts:45-48 | the call found is a real match, no match starts earlier, and "no call" is reported only when no match exists |
| `PageExtraction.ClassifyScript` | src/ai/flows/solve-quiz-flow.ts:41-53 | an empty script body is treated as no script; a non-empty body counts as a script without a call exactly when no call match exists in it; otherwise the argument is the group of the leftmost call match, non-empty and without a backtick |
| `PageExtraction.Extract` | src/ai/flows/solve-quiz-flow.ts:38-53 | only the group of the first script match is classified (its partner lemmas are `FirstScriptDecides`, `NoScriptKeepsPage` and `EmbeddedPayloadRecovered`) |
| `PageExtraction.DecodedText` | src/ai/flows/solve-quiz-flow.ts:38-55 | the text returned: the UTF-8 reading of the decoded call argument, or the page itself (its partner lemmas are the three "keeps page" lemmas and `EmbeddedPayloadRecovered`) |
| `PageExtraction.ExtractionLog` | src/ai/flows/solve-quiz-flow.ts:43-54 | the log lines written between fetching and returning, one per outcome (stated by the same partner lemmas) |
| `PageExtraction.BufferBase64` | src/ai/flows/solve-quiz-flow.ts:51 | whenever the argument is the encoding of some bytes, exactly those bytes are decoded |
| `PageExtraction.NoScriptKeepsPage` | src/ai/flows/solve-quiz-flow.ts:38-55 | a page without a script block is returned unchanged, logging only "No base64 content found, returning raw HTML." |
| `PageExtraction.EmptyScriptKeepsPage` | src/ai/flows/solve-quiz-flow.ts:38-55 | a first script block that is empty counts as no script: the page comes back unchanged and only the "No base64 content found" line is logged |
| `PageExtraction.ScriptWithoutCallKeepsPage` | src/ai/flows/solve-quiz-flow.ts:41-55 | a non-empty first script block without a call match returns the page unchanged, logging "Found script tag." and then the "No base64 content found" line |
| `PageExtraction.FirstScriptDecides` | src/ai/flows/solve-quiz-flow.ts:38-42 | the block taken is the one after any prefix that opens no `<script>`, up to the first `</script>` after it; whatever follows, other script blocks included, has no effect |
| `PageExtraction.CallArgumentFound` | src/ai/flows/solve-quiz-flow.ts:45-49 | in a script body whose first `` atob(` `` starts a well-formed call, whatever code precedes it, that call's argument is the one extracted |
| `PageExtraction.EncodingIsInert` | src/ai/flows/solve-quiz-flow.ts:45-51 | a base64 encoding holds neither a backtick nor `<`, so it cannot end the call or the script block early |
| `PageExtraction.EmbeddedPayloadRecovered` | src/ai/flows/solve-quiz-flow.ts:38-51 | a page whose first script embeds `` atob(`E`) ``, with E the encoding of some bytes, yields the UTF-8 text of exactly those bytes and logs both "found" lines; any markup may precede the block if it opens no script, and any code may surround the call if no `` atob(` `` comes first and no `</script>` ends the block |
| `PageExtraction.WorkedExampleEncoding` | src/ai/flows/solve-quiz-flow.ts:51 | the bytes of the JSON text {"q":1} encode to `eyJxIjoxfQ==` |
| `PageExtraction.WorkedExamplePage` | src/ai/flows/solve-quiz-flow.ts:38-55 | the page `<script>const x = atob(`eyJxIjoxfQ==`);</script>` decodes to the text {"q":1}, for any UTF-8 decoder that reads ASCII bytes as those characters |
| `Base64.Decode` | src/ai/flows/solve-quiz-flow.ts:51 | the strict decoder; its partner lemmas `DecodeEncode`, `EncodeDecode` and `DecodeIffEncode` prove it the exact inverse of `Encode` |
| `Base64.Encode` | src/ai/flows/solve-quiz-flow.ts:51 | an encoding's length is a multiple of four, empty only for no bytes, and it is made of alphabet and pad characters only |
| `Base64.EncodedLength` | src/ai/flows/solve-quiz-flow.ts:51 | every started group of three bytes takes four characters |
| `Base64.DecodeEncode` | src/ai/flows/solve-quiz-flow.ts:51 | decoding the encoding of any bytes gives those bytes back |
| `Base64.EncodeDecode` | src/ai/flows/solve-quiz-flow.ts:51 | whatever the strict decoder accepts re-encodes to the same string |
| `Base64.DecodeIffEncode` | src/ai/flows/solve-quiz-flow.ts:51 | strict decoding and encoding are inverse in both directions |
| `Decimal.Show` | src/ai/flows/solve-quiz-flow.ts:33 | a number renders as one or more digits with no leading zero, one digit exactly below ten |
| `Decimal.ValueOfShow` | src/ai/flows/solve-quiz-flow.ts:167 | reading a rendered status code back gives the code |
| `Decimal.ShowInjective` | src/ai/flows/solve-quiz-flow.ts:33 | distinct numbers render as distinct strings |
| `JsValues.Truthy` | src/app/api/quiz/route.ts:21 | `!!v` on a property read; `FalsyValues` states that exactly `undefined`, `null`, `false`, `0` and the empty string are falsy |
| `JsValues.FalsyValues` | src/app/api/quiz/route.ts:21 | a value read from the body is falsy exactly when it is `undefined`, `null`, `false`, `0` or the empty string |
| `JsValues.Property` | src/ai/flows/solve-quiz-flow.ts:176 | a property read finds a value only on an object that has the key, and then it is the key's value |
| `SolveFlow.HttpErrorMsg` | src/ai/flows/solve-quiz-flow.ts:33 | the error thrown on a status outside 200-299 is "HTTP error! status: " followed by the status digits, which read back as the status |
| `SolveFlow.HttpErrorMsgInjective` | src/ai/flows/solve-quiz-flow.ts:33 | distinct status codes give distinct fetch errors |
| `SolveFlow.SubmissionFailedMsg` | src/ai/flows/solve-quiz-flow.ts:166-167 | the error of a rejected submission is "Submission failed with status ", the status digits, ": " and the body text; status and body both read back from it |
| `SolveFlow.SubmissionFailedMsgInjective` | src/ai/flows/solve-quiz-flow.ts:166-167 | distinct statuses or distinct bodies give distinct submission errors |
| `SolveFlow.ShowAnswer` | src/ai/flows/solve-quiz-flow.ts:141 | the answer as logged: `JSON.stringify` of a defined answer, and "undefined" for an undefined one |
| `SolveFlow.Abort` | src/ai/flows/solve-quiz-flow.ts:180-185 | the catch clause: the run fails with the thrown message, its log keeps every earlier line and gains exactly one, the error line, and no request is added |
| `SolveFlow.Assemble` | src/ai/flows/solve-quiz-flow.ts:152-162 | the posted payload has the template's keys plus the four injected ones, except that an undefined answer leaves no `answer` key; the injected keys hold the run's email, secret, input URL and answer whatever the template had; every other key keeps the template's value |
| `SolveFlow.IsOk` | src/ai/flows/solve-quiz-flow.ts:32 | `response.ok`: the status lies in 200-299 (also used at line 165; stated through `FetchAndDecode`, `FetchFailureStops` and `SubmissionRejected`) |
| `SolveFlow.FetchAndDecode` | src/ai/flows/solve-quiz-flow.ts:29-56 | the first log line names the URL; the text is returned exactly when the fetch returned a status in 200-299 and its body was read, and is then the extracted text after "Successfully fetched HTML."; otherwise the fetch's error, "HTTP error! status: N" or the body read's error is thrown with only the first line logged |
| `SolveFlow.Run` | src/ai/flows/solve-quiz-flow.ts:110-187 | the run as a specification; `SolveQuiz` is proved to compute it, and `RunRequests`, `SuccessShape`, `SuccessLog` and `FailureShape` state what it does |
| `SolveFlow.AnalysisStage` | src/ai/flows/solve-quiz-flow.ts:124-132 | the run from the analysis prompt on; `AnalysisStageAppends` states that it only appends to the log and the requests |
| `SolveFlow.AnswerStage` | src/ai/flows/solve-quiz-flow.ts:134-142 | the run from the answer prompt on; `AnswerStageAppends` and `AnswerStageRequests` state what it adds |
| `SolveFlow.SubmissionStage` | src/ai/flows/solve-quiz-flow.ts:144-178 | the run from the template on; `SubmissionStageAppends`, `SubmissionStageRequests` and `SubmissionSolvedLog` state what it adds |
| `SolveFlow.SolveQuiz` | src/ai/flows/solve-quiz-flow.ts:110-187 | the step-by-step flow, with its growing log, try block and catch clause, produces exactly the result and requests of the specification `Run` |
| `SolveFlow.FetchFailureStops` | src/ai/flows/solve-quiz-flow.ts:29-35 | a fetch that throws, returns a status outside 200-299, or whose body cannot be read ends the run with that message, "HTTP error! status: N" or the body read's error; only the page was requested; the log is the two opening lines and the error line |
| `SolveFlow.FetchedTextAnalyzed` | src/ai/flows/solve-quiz-flow.ts:119-125 | after a good fetch the analysis prompt gets the extracted text; the log begins with the opening, fetch and extraction lines in order |
| `SolveFlow.MissingAnalysisStops` | src/ai/flows/solve-quiz-flow.ts:124-128 | without analysis output the run fails with "Could not analyze quiz content."; the answer prompt is never called and nothing is posted |
| `SolveFlow.MissingAnswerStops` | src/ai/flows/solve-quiz-flow.ts:130-138 | without an answer the run fails with "Could not generate an answer." after logging the question and submission URL; nothing is posted |
| `SolveFlow.BadTemplateStops` | src/ai/flows/solve-quiz-flow.ts:144-150 | a template that does not parse fails the run with "Failed to parse submission JSON format." and no POST is made |
| `SolveFlow.RunRequests` | src/ai/flows/solve-quiz-flow.ts:117-163 | the requests of a run are, in order, the page; its analysis when it was fetched; the answer prompt when the analysis came back; the POST when the answer came back and the template parsed |
| `SolveFlow.PostCarriesPayload` | src/ai/flows/solve-quiz-flow.ts:146-163 | any POST is the last request; it happens only after the analysis, the answer and the template all came through; it goes to the extracted URL and carries the assembled payload |
| `SolveFlow.SubmissionRejected` | src/ai/flows/solve-quiz-flow.ts:165-168 | a submission answered outside 200-299 fails with "Submission failed with status S: body", or with the error thrown while reading that body |
| `SolveFlow.SuccessShape` | src/ai/flows/solve-quiz-flow.ts:117-178 | a run succeeds exactly when every stage does; its result then holds the answer (absent when undefined), the input URL and the reply's `correct` field |
| `SolveFlow.UndefinedAnswerOmitted` | src/ai/flows/solve-quiz-flow.ts:140-178 | an answer prompt that leaves the answer undefined still succeeds: the log shows "AI Answer: undefined", the posted payload has no `answer` key and the result has no final answer |
| `SolveFlow.SuccessLog` | src/ai/flows/solve-quiz-flow.ts:111-171 | the log of a successful run lists every step's line, in call order |
| `SolveFlow.FailureShape` | src/ai/flows/solve-quiz-flow.ts:180-185 | a failed run keeps its opening line and its log ends with "An error occurred: " followed by the error |
| `SolveFlow.NullVerdictFails` | src/ai/flows/solve-quiz-flow.ts:170-176 | a `null` submission reply is logged and then fails the run with the TypeError of reading `correct` |
| `SolveFlow.AnalysisStageAppends` | src/ai/flows/solve-quiz-flow.ts:111-115 | from the analysis on, the log and the request list keep everything before them and only grow; a failure ends the log with its error line |
| `SolveFlow.AnswerStageAppends` | src/ai/flows/solve-quiz-flow.ts:134-142 | from the answer prompt on, the log and the request list only grow, and a failure ends the log with its error line |
| `SolveFlow.SubmissionStageAppends` | src/ai/flows/solve-quiz-flow.ts:144-171 | from the template on, the log and the request list only grow, and a failure ends the log with its error line |
| `SolveFlow.WorkedExampleAnalyzed` | src/ai/flows/solve-quiz-flow.ts:119-125 | on the example page the analysis prompt is given the decoded text {"q":1}, for any UTF-8 decoder that reads ASCII bytes as those characters |
| `QuizPractice.InitialState` | src/components/quiz-client.tsx:52-60 | `initialState`: idle on the first question, nothing answered, score 0, no feedback, 180 seconds left; it is a valid state |
| `QuizPractice.Reduce` | src/components/quiz-client.tsx:62-86 | the score rises by one on a `correct` feedback and stays put on every other action; every action keeps a valid state valid (index within the four questions, timer within 0..180, score non-negative) |
| `QuizPractice.ScoreNeverDecreases` | src/components/quiz-client.tsx:62-86 | no action lowers the score |
| `QuizPractice.TickCountsDown` | src/components/quiz-client.tsx:79-80 | a tick takes the timer to max(t-1, 0) and changes nothing else |
| `QuizPractice.ResetTimerRestoresLimit` | src/components/quiz-client.tsx:81-82 | resetting sets the timer to 180 and changes nothing else |
| `QuizPractice.FeedbackScores` | src/components/quiz-client.tsx:70-71 | feedback is stored as given; the score goes up by one exactly when it is `correct`; nothing else changes |
| `QuizPractice.NextQuestionAdvances` | src/components/quiz-client.tsx:72-76 | before the last question the next state is the initial one with the index advanced and the score kept; on the last question only the status becomes finished |
| `QuizPractice.AnalysisAndAnswer` | src/components/quiz-client.tsx:64-67 | starting the analysis clears answer and reasoning; setting the answer stores both and marks the question solved |
| `QuizPractice.EvaluateAndFinish` | src/components/quiz-client.tsx:68-69 | evaluating clears the feedback and finishing sets only the status |
| `QuizPractice.ReplayKeepsValid` | src/components/quiz-client.tsx:52-86 | any sequence of actions keeps a valid state valid |
| `QuizPractice.ReplayScore` | src/components/quiz-client.tsx:70-71 | after any sequence of actions the score is the starting score plus the number of `correct` feedbacks |
| `QuizPractice.ReplayIndex` | src/components/quiz-client.tsx:72-76 | the question index advances once per "next question" and stops at the last question |
| `QuizPractice.ReachableStates` | src/components/quiz-client.tsx:52-60 | from the initial state every action sequence leads to a valid state whose score counts the `correct` feedbacks |
| `QuizPractice.Judge` | src/components/quiz-client.tsx:145 | the comparison of `handleSubmit`; its partner lemmas `JudgeIgnoresPaddingAndCase` and `JudgeIsEquivalence` state what it ignores and that it is an equivalence |
| `QuizPractice.IsJsSpace` | src/components/quiz-client.tsx:145 | the characters `trim()` removes: the ECMAScript white-space and line-terminator characters, the byte order mark included |
| `QuizPractice.TrimStart` | src/components/quiz-client.tsx:145 | the result is a suffix of the text, what was removed is all white space, and the result is empty or starts with a non-space |
| `QuizPractice.TrimEnd` | src/components/quiz-client.tsx:145 | the result is a prefix of the text, what was removed is all white space, and the result is empty or ends with a non-space |
| `QuizPractice.Trim` | src/components/quiz-client.tsx:145 | `trim()` is `TrimEnd` after `TrimStart`; `TrimIgnoresPadding` states that surrounding white space does not matter |
| `QuizPractice.Lower` | src/components/quiz-client.tsx:145 | the result has the text's length and each character lower-cased; `LowerIdempotent` states that doing it twice is doing it once |
| `QuizPractice.PadStart2` | src/components/quiz-client.tsx:173 | `padStart(2, '0')`; `PadKeepsValue` states that padding one or two digits gives two digits of the same value |
| `QuizPractice.TrimIgnoresPadding` | src/components/quiz-client.tsx:145 | white space added on either side of a text does not change its trimmed form |
| `QuizPractice.JudgeIgnoresPaddingAndCase` | src/components/quiz-client.tsx:145 | the judgement of an answer does not change when the answer is padded with white space or lower-cased |
| `QuizPractice.JudgeIsEquivalence` | src/components/quiz-client.tsx:145 | the judgement is reflexive, symmetric and transitive |
| `QuizPractice.FeedbackFor` | src/components/quiz-client.tsx:145-146 | the feedback dispatched is `correct` exactly when the trimmed, lower-cased answers are equal |
| `QuizPractice.SubmitScores` | src/components/quiz-client.tsx:142-146 | submitting raises the score by one exactly when the answer is judged correct |
| `QuizPractice.Clock` | src/components/quiz-client.tsx:173 | the display is minutes, a colon and two second digits; read back, minutes times sixty plus seconds is the time left, with seconds below sixty |
| `QuizPractice.ClockInjective` | src/components/quiz-client.tsx:173 | different times never show the same |
| `TriggerRoute.SecretKey` | src/app/api/quiz/route.ts:5 | the key is the configured secret when it is set and non-empty, otherwise `secret123`; it is never empty |
| `TriggerRoute.HandlePost` | src/app/api/quiz/route.ts:7-31 | a reply starts a run exactly when its status is 200, and every other reply is an error; the handler throws exactly on a `null` body |
| `TriggerRoute.SecretMatches` | src/app/api/quiz/route.ts:17 | `secret === SECRET_KEY`: the body has a `secret` property that is a string equal to the key; no other value passes |
| `TriggerRoute.InvalidJsonRejected` | src/app/api/quiz/route.ts:8-13 | a body that is not JSON gets 400 "Invalid JSON payload" and starts nothing |
| `TriggerRoute.WrongSecretRejected` | src/app/api/quiz/route.ts:15-19 | a secret not strictly equal to the key gets 403 "Invalid secret", whatever email and url hold |
| `TriggerRoute.MissingFieldRejected` | src/app/api/quiz/route.ts:21-23 | with the right secret, a falsy email or url gets 400 "Missing email or url" |
| `TriggerRoute.AcceptedStartsRun` | src/app/api/quiz/route.ts:25-30 | a run starts exactly when the secret matches and email and url are truthy; it gets the body's own email, secret and url, and the reply is 200 "Quiz solving process initiated" |
| `TriggerRoute.EmptySecretAlwaysRejected` | src/app/api/quiz/route.ts:5-19 | since the key is never empty, a missing or empty secret is refused under any configuration |

## Left out

- **Network and prompts.** The HTTP requests, `response.text()` and `.json()` are given outcomes, as are the two Genkit prompts and their schemas and system texts. Each outcome either returns or throws; which one is a parameter of the run.
- **Console output.** The `console.log` copy of each log line is I/O only and is not modelled.
- `PageExtraction.BufferBase64`: Buffer's handling of malformed base64 is a parameter. That includes skipping unknown characters, the URL-safe alphabet and missing padding. UTF-8 decoding is a parameter too. Only well-formed base64 is decoded by the model itself.
- **JSON.** `JSON.parse` of the template and `JSON.stringify` are parameters. JSON numbers are integers, because floating point is not modelled.
- **Non-object templates.** A template that parses to `null`, a primitive or an array is outside the model: the parse step gives the object's map or nothing. In the source, the property writes on `null` or a primitive throw, and an array template loses the added keys when stringified.
- **Key order.** The order of keys in the serialised payload is not modelled, since the payload is a map.
- `SolveFlow.SolveQuiz`: the input schema is not checked. The source declares `url` a URL (`z.string().url()`) and Genkit rejects other input before the flow runs; the model accepts any string.
- **Answer values.** An answer is a JSON value or undefined. Values that `JSON.stringify` cannot render, such as functions, cannot come out of the prompt's JSON output and are not modelled.
- `SolveFlow.SolveQuiz`: the flow's output schema is not checked. The source declares `isCorrect` a boolean and `finalUrl` a URL, and Genkit validates the result against them. The model returns the `correct` property as it was found.
- `QuizPractice.Lower`: `toLowerCase` is modelled for the letters A to Z only. Other letters keep their case.
- **Rest of quiz-client.tsx.** The interval timer, effects, `localStorage`, navigation, toasts, the asynchronous `handleSolve` and the rendering are UI effects and are not modelled. `handleSubmit`'s one-second delay is not modelled either.
- **Quiz data.** `src/lib/quiz-data.ts` is not part of this model. Only its length, 4, is used.
- `TriggerRoute.HandlePost`:
  - starting the run is a returned value, not a concurrent call;
  - the `catch` attached to it is not modelled;
  - the framework's reply to a handler that throws is not modelled.
- **Missing export.** `src/app/quiz/actions.ts` does not export the `solveQuizAction` that the route imports, so the run the route starts is an abstract event.
- **Other files.** These files are not part of this model:
  - `src/components/results-client.tsx`, which has floating-point percentages and charts;
  - `src/app/page.tsx`, `src/app/quiz/layout.tsx` and `src/components/logo.tsx`, which are rendering;
  - `src/ai/flows/analyze-quiz-question-and-generate-answer.ts`, which is a prompt wrapper;
  - `src/ai/flows/solve-quiz-types.ts`, whose schemas duplicate the flow's own;
  - `src/ai/dev.ts`, which is environment set-up.
