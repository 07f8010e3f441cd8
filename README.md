# Scribelens core, modelled in Dafny

Scribelens turns photos of classroom notes into text and then into a summary
with questions and answers. A browser front end uploads an image, an OCR
service extracts its text, and a chat-completion model summarises the text and
answers questions about it.

This project models the deterministic logic behind that front end:

- the two text annotators, the user highlighter (`HighlightableText`) and the
  glossary matcher (`GlossaryTooltip`), as segmenters with reconstruction
  properties;
- the sanitiser `stripThinkContent`, written out as an explicit left-to-right
  scanner;
- the guards in the services that refuse bad input before any request, and
  the tables that turn failures into messages;
- image validation and the data-URL prefix strip;
- the state machines of the pages and components: the dashboard, the
  uploader's progress bar, the demo chat, the summary/Q&A panel and the
  progress panel;
- the two pure helpers `truncateText` and `getConfidenceColor`.

## How the model is built

- Each awaited remote call becomes a parameter: the value the call resolved
  with, or what it threw. When a call may never happen, the result records
  whether a request went out (`Attempt.requested`).
- Each React component whose handlers update `useState` fields becomes a
  `class`. Its fields are the state, and each handler is a method. The method
  is proved against a pure function of the old state and the call outcomes
  (`AfterSend`, `AfterSummarize`, `AfterUpload`, ...). The properties the
  source promises are lemmas about those functions.
- Code that is only expressions becomes functions and lemmas. Code with a
  loop becomes a method with invariants, proved against a recursive
  specification function: `SplitByHighlights` and `SplitByTerms`.
- Regular expressions are written as scanners:
  - `<think>[\s\S]*?</think>` with flags `gi` in `ThinkTags`;
  - `\b(t1|t2|...)\b` with flags `gi` in `GlossaryTooltip`.

  Case-insensitive comparison is ASCII case folding. That is exact for a
  non-Unicode `i` flag with ASCII patterns.
- JavaScript truthiness of strings is explicit:
  - `x || fallback` is `OrElse`;
  - `err instanceof Error ? err.message : String(err) || fallback` is
    `Displayed`;
  - `throw new Error(message || fallback)` is `Rethrown`.

  The model distinguishes the two fallback idioms; `RethrownVersusDisplayed`
  says exactly where they differ.

Modules, one per source file plus shared pieces:

- `Basics`: Option and Result.
- `JsString`: `trim`, case folding, `\w` and `\b`, `split`, and the decimal
  rendering of a number.
- `Transport`: thrown values and the two error tables.
- `ThinkTags`: `stripThinkContent`.
- `Completion`: `enhanceContent` and `processDirectTextInput`, in both copies.
- `AiService`: `generateSummary` and `askQuestion`.
- `ImageInput`: `validateImage`, `convertToBase64` and `extractTextFromImage`.
- `OcrService`: `processImage`.
- `Helpers`: `truncateText` and `getConfidenceColor`.
- one module per component: `HighlightableText`, `GlossaryTooltip`,
  `ProcessingSteps`, `DashboardPage`, `Uploader`, `ResultsDemo` and
  `SummaryQa`.

Where the two service files duplicate each other, the logic is modelled once:

- `validateImage`, `convertToBase64` and `extractTextFromImage` are the same
  in `src/services/api.ts` and `src/services/ocrService.ts`.
- `enhanceContent` differs between `src/services/aiService.ts`
  and `src/services/api.ts` only in whether the reply is stripped. It is one
  function with a `Profile` parameter.

## Model

| member | source | states |
|---|---|---|
| Transport.OrElse | src/services/aiService.ts:109 | `x \|\| fallback` on strings: a present non-empty string is kept, an absent or empty one gives the fallback |
| Transport.Rethrown | src/services/aiService.ts:117-118 | an `Error`'s message or the string form of another value, replaced by the fallback exactly when it is empty |
| Transport.Displayed | src/components/ImageUploader.tsx:54 | an `Error` gives its message even when empty; only a non-`Error` value whose string form is empty gets the fallback |
| Transport.RethrownVersusDisplayed | src/components/ImageUploader.tsx:54 | the services' and the components' fallback idioms differ exactly on an `Error` with an empty message |
| Transport.GroqRowOf | src/services/aiService.ts:98-116 | which row of the Groq table applies, each as an if-and-only-if: timeout before any status, a status, no response when a request went out, else pass-through |
| Transport.GroqMessage | src/services/aiService.ts:98-118 | the message for each row: timeout, 401 auth, 429 rate limit, 400 with `data.error.message` or "Invalid request parameters", any other status with the status and `data.message` or "Unknown error", no response, else the re-thrown message |
| Transport.GroqTimeoutFirst | src/services/aiService.ts:99-101 | a timed-out request gets the timeout message whatever response it also carries |
| Transport.GroqPassesOwnErrors | src/services/aiService.ts:59-61 | the missing-key error and the reply checks' errors leave the mapping with their own message unchanged |
| Transport.DigitPrefix | src/services/aiService.ts:112 | the leading digits of a string: a prefix made only of digits |
| Transport.DigitPrefixOfDigits | src/services/aiService.ts:112 | digits followed by a non-digit: the digit prefix is exactly those digits |
| Transport.StatusMessage | src/services/aiService.ts:112 | the templated message "{prefix}{status} - {detail}"; `StatusMessageRoundTrip` shows the status can be read back from it |
| Transport.StatusMessageRoundTrip | src/services/aiService.ts:112 | the status can be read back from "Groq API error: {status} - {detail}", so the message loses no status |
| Transport.OcrMessage | src/services/api.ts:85-99 | the OCR table: timeout, then "OCR service error: {status} - {message or Unknown error}", then no response, else the re-thrown message with the OCR fallback |
| Transport.OcrStatusRoundTrip | src/services/ocrService.ts:79-80 | every status, 401 and 429 included, gets the generic OCR status message, and its status can be read back |
| Transport.UnclaimedErrorsPassThrough | src/services/ocrService.ts:85-86 | a value that neither table claims is re-thrown with its own message, or with each table's fallback |
| JsString.TrimStart | src/services/aiService.ts:49 | no longer than the input, and begins with a non-whitespace character or is empty |
| JsString.TrimEnd | src/services/aiService.ts:49 | no longer than the input, and ends with a non-whitespace character or is empty |
| JsString.TrimStartSplits | src/services/aiService.ts:49 | the input is a whitespace prefix followed by the result |
| JsString.TrimEndSplits | src/services/aiService.ts:49 | the input is the result followed by a whitespace suffix |
| JsString.Trim | src/services/aiService.ts:49 | `trim`: no longer than the input, and neither end of the result is whitespace |
| JsString.TrimOfTrimmed | src/services/aiService.ts:49 | text without whitespace at either end is unchanged by `trim`, so trimming is idempotent |
| JsString.IsBlank | src/services/aiService.ts:55 | `!text.trim()`: the trimmed text is empty; `BlankIffAllWhitespace` characterises it |
| JsString.BlankIffAllWhitespace | src/services/aiService.ts:55 | `text.trim() === ''` holds exactly when every character is whitespace, both directions |
| JsString.ToLower | src/components/GlossaryTooltip.tsx:26 | an ASCII upper-case letter becomes its lower-case letter (code point plus 32) and every other character is kept |
| JsString.ToLowerKeepsWordChar | src/components/GlossaryTooltip.tsx:26 | case folding never changes whether a character is in `\w` |
| JsString.StartsWithIgnoreCase | src/components/GlossaryTooltip.tsx:26 | the text at a position begins with the pattern, comparing up to ASCII case, as a non-Unicode `i` flag does |
| JsString.IsWordBoundary | src/components/GlossaryTooltip.tsx:26 | `\b`: exactly one of the characters before and after the position is in `\w` |
| JsString.Split | src/services/api.ts:18 | `split(',')`: at least one piece, no piece holds the separator, and joining the pieces gives the input back |
| JsString.SplitJoin | src/services/api.ts:18 | splitting undoes joining separator-free pieces |
| JsString.SplitOfSeparatorFree | src/services/api.ts:18 | a string without the separator splits into itself alone |
| JsString.DecimalString | src/services/aiService.ts:112 | a template literal renders a number as digits, at least one and without a leading zero |
| JsString.DecimalRoundTrip | src/services/aiService.ts:112 | reading the rendered digits back gives the number |
| JsString.DecimalInjective | src/services/aiService.ts:112 | different numbers render differently |
| ThinkTags.CloseFrom | src/services/aiService.ts:49 | the first closing tag `</think>` (any case) at or after a position, within the text |
| ThinkTags.CloseFromIsFirst | src/services/aiService.ts:49 | the position found holds a closing tag, none lies before it, and None means there is none at all |
| ThinkTags.MatchEnd | src/services/aiService.ts:49 | a match is at least the two tags long and ends inside the text |
| ThinkTags.MatchEndIsLazy | src/services/aiService.ts:49 | `[\s\S]*?`: a match is an opening tag, then text with no closing tag, then the first closing tag |
| ThinkTags.PairIsMatched | src/services/aiService.ts:49 | an opening tag with any closing tag after it is always matched, across newlines |
| ThinkTags.StripThinkContent | src/services/aiService.ts:48-50 | the global replacement followed by `trim`; `UnchangedIffNoPair`, `RemovalKeepsOrder` and `PairRemoved` state what it does |
| ThinkTags.RemoveFrom | src/services/aiService.ts:49 | the global replacement never makes the rest of the text longer |
| ThinkTags.NoMatchKeepsRest | src/services/aiService.ts:49 | with no match from a position on, the rest is kept as it is |
| ThinkTags.PairShortens | src/services/aiService.ts:49 | a remaining pair always makes the replacement remove something |
| ThinkTags.UnchangedIffNoPair | src/services/aiService.ts:49 | the replacement changes nothing exactly when no pair exists; without a pair `stripThinkContent` only trims |
| ThinkTags.KeptInOrder | src/services/aiService.ts:49 | the output characters are characters of the input at increasing positions |
| ThinkTags.RemovalKeepsOrder | src/services/aiService.ts:49 | the replacement's output is a subsequence of the input: what is kept keeps its order |
| ThinkTags.SkipPlain | src/services/aiService.ts:49 | positions where no match starts are copied one by one |
| ThinkTags.SkipMatch | src/services/aiService.ts:49 | a match is dropped whole and the scan resumes after it |
| ThinkTags.PairRemoved | src/services/aiService.ts:49 | a pair of tags is removed with all it encloses and the text on either side joins up |
| ThinkTags.StripExample | src/services/aiService.ts:48-50 | `A<think>hidden</think>B` becomes `AB` |
| ThinkTags.ReasoningOnlyStripsToEmpty | src/services/aiService.ts:48-50 | a reply that is only a reasoning block strips to the empty string |
| ThinkTags.NestedExampleRemoved | src/services/aiService.ts:49 | in `<thi<think>x</think>nk></think>` only the inner pair is removed |
| ThinkTags.EmptyPairIsPair | src/services/aiService.ts:49 | `<think></think>` is itself a pair |
| ThinkTags.SinglePassExample | src/services/aiService.ts:49 | one pass only: removing the inner pair creates a new pair that stays in the result |
| Completion.Reply | src/services/aiService.ts:87-95 | the reply checks: a missing body or empty `choices` gives "Invalid response from Groq API", missing or empty content gives "No enhanced content received", a failed request passes its error on, else the finished content |
| Completion.EnhanceContent | src/services/aiService.ts:52-120 | a blank text is refused before any request, a missing key gives the missing-key message without a request, and the request's failures leave through the Groq table; success means a request with usable content |
| Completion.ProcessDirectTextInput | src/services/aiService.ts:122-127 | a blank text gets "Please enter some text to enhance." with no request; otherwise it is `enhanceContent` |
| Completion.DirectInputAnswersBlankFirst | src/services/api.ts:182-188 | through `processDirectTextInput` a blank text never gets `enhanceContent`'s own blank message, and requests go out exactly when `enhanceContent`'s would |
| Completion.ProfilesAgree | src/services/api.ts:103-179 | the two copies agree on requests, failures and their messages; the `aiService.ts` success value is the `api.ts` one with the reasoning stripped |
| Completion.ReasoningOnlyReplySucceedsEmpty | src/services/aiService.ts:90-95 | the emptiness check runs before stripping, so a reply that is only a reasoning block succeeds with "" in `aiService.ts` and unchanged in `api.ts` |
| Completion.BlankTextIsRefusedFirst | src/services/aiService.ts:55-57 | for a blank text the outcome does not depend on the key or the reply |
| AiService.Completed | src/services/aiService.ts:31-42 | success exactly for an ok response with string content, whose value is the stripped content; every other outcome is the one fallback |
| AiService.GenerateSummary | src/services/aiService.ts:6-43 | the text is sent as typed; success exactly for an ok reply with content, giving the stripped content; every failure is "Failed to generate summary. Please try again." |
| AiService.QuestionPrompt | src/services/aiService.ts:155 | the user message "Original text: {text}\n\nSummary: {summary}\n\nStudent question: {question}"; the `Prompt...` lemmas state what it holds |
| AiService.AskQuestion | src/services/aiService.ts:130-175 | sends the templated user message; success as above; every failure is "Failed to answer question. Please try again." |
| AiService.PromptEndsWithQuestion | src/services/aiService.ts:155 | the user message is the labelled text and summary, then "\n\nStudent question: ", then the question |
| AiService.PromptStartsWithOriginal | src/services/aiService.ts:155 | the user message begins with "Original text: " and the original text |
| AiService.PromptDeterminesQuestion | src/services/aiService.ts:155 | for a fixed text and summary, different questions give different messages |
| AiService.PromptLabelsAreNotEscaped | src/services/aiService.ts:155 | a text containing the summary label gives the same message as a shorter text with a longer summary |
| AiService.AnswerWithoutReasoningIsTrimmed | src/services/aiService.ts:37-38 | for any text or question, a reply without a reasoning block comes back from `generateSummary` and from `askQuestion` only trimmed |
| ImageInput.ValidateImage | src/services/api.ts:36-49 | accepts exactly the four types with size at most 5 MB; the type is checked before the size |
| ImageInput.SizeLimitIsInclusive | src/services/ocrService.ts:35-45 | the limit is 5242880 bytes inclusive: that size passes, one more byte fails, any smaller size passes |
| ImageInput.DataUrlPayload | src/services/api.ts:18-23 | `split(',')[1]`: a non-empty comma-free payload, or "Failed to extract base64 data" |
| ImageInput.PayloadIsSecondField | src/services/ocrService.ts:18 | the payload is the text between the first comma and the next comma or the end |
| ImageInput.PayloadRoundTrip | src/services/ocrService.ts:18-23 | `header,payload` without inner commas gives the payload back |
| ImageInput.MissingPayloadRefused | src/services/ocrService.ts:19-21 | a result with no comma, or with nothing after it, is refused |
| ImageInput.ConvertToBase64 | src/services/api.ts:6-33 | no file, a non-string result and a reader error each reject with their own error; a loaded string resolves with its payload or rejects |
| ImageInput.OcrReply | src/services/api.ts:73-82 | absent data or a truthy `error` fails with that error or the default; a missing or blank text fails with the no-text message; otherwise `data` is returned unchanged |
| ImageInput.ExtractTextFromImage | src/services/api.ts:51-101 | an empty image is refused before any request; success means a usable reply, returned unchanged; every failure inside the `try` leaves through the OCR table |
| ImageInput.OwnErrorsPassThrough | src/services/ocrService.ts:66-71 | the function's own errors leave the OCR mapping unchanged |
| ImageInput.ExtractedTextIsNotBlank | src/services/ocrService.ts:69-72 | a successful extraction always carries text that is not blank once trimmed |
| OcrService.ProcessImage | src/services/ocrService.ts:91-124 | success exactly for an ok response with non-empty `data.text`, returned untrimmed; every failure is the one fixed message |
| OcrService.WhitespaceTextAcceptedOnlyByUpload | src/services/ocrService.ts:114-115 | whitespace-only text is returned by `processImage` but refused as no text by `extractTextFromImage` |
| OcrService.ExtractAcceptsLess | src/services/ocrService.ts:69-72 | whatever `extractTextFromImage` accepts, `processImage` accepts with the same text |
| Helpers.TruncateText | src/utils/helpers.ts:23-26 | text that fits is returned unchanged; longer text becomes its first `max(0, maxLength)` characters plus "...", of length `max(0, maxLength) + 3`; a negative bound keeps only the ellipsis |
| Helpers.TruncateIdempotent | src/utils/helpers.ts:23-26 | truncating twice with the same bound is truncating once |
| Helpers.TruncateBound | src/utils/helpers.ts:23-26 | the result exceeds the bound by at most the ellipsis; with the default bound of 100 it is at most 103 long |
| Helpers.ConfidenceColor | src/utils/helpers.ts:73-77 | emerald exactly from 0.8, amber exactly on [0.6, 0.8), red exactly below 0.6 |
| Helpers.ConfidenceColorMonotone | src/utils/helpers.ts:73-77 | a higher score never gets a lower band |
| HighlightableText.Slice | src/components/HighlightableText.tsx:28-34 | `text.slice` is the exact segment for bounds in order and inside the text, and never longer than the text |
| HighlightableText.FlattenAppend | src/components/HighlightableText.tsx:23-36 | the text the parts display distributes over concatenation |
| HighlightableText.MarksAppend | src/components/HighlightableText.tsx:29-31 | the marks of two part lists are the marks of each in order |
| HighlightableText.SelectionOffsets | src/components/HighlightableText.tsx:17-20 | `end = start + selected length` with `start` the preceding length, and no offsets exactly when the selection is empty |
| HighlightableText.Step | src/components/HighlightableText.tsx:28-32 | one highlight's pushes: the plain slice when it starts after `last`, then its mark |
| HighlightableText.PartsFrom | src/components/HighlightableText.tsx:26-34 | the parts pushed from `last` on: each highlight's step, then the rest of the text; `HighlightedReconstructs` and `MarkPerHighlight` state them |
| HighlightableText.Highlighted | src/components/HighlightableText.tsx:23-35 | `splitByHighlights`: the whole text for no highlights, otherwise the parts from 0 |
| HighlightableText.SplitByHighlights | src/components/HighlightableText.tsx:23-36 | the loop returns exactly the specified parts |
| HighlightableText.NoHighlightsOnePart | src/components/HighlightableText.tsx:24 | with no highlights the result is the text as one part |
| HighlightableText.MarksFollowHighlights | src/components/HighlightableText.tsx:27-33 | one mark per highlight, each with its slice and colour, in list order |
| HighlightableText.MarkPerHighlight | src/components/HighlightableText.tsx:27-32 | the rendered parts hold exactly as many marks as highlights, each with its slice and colour |
| HighlightableText.HighlightedReconstructs | src/components/HighlightableText.tsx:23-36 | for sorted, non-overlapping, in-bounds highlights the parts spell the original text |
| HighlightableText.NoEmptyPlainParts | src/components/HighlightableText.tsx:28-34 | with highlights that start within the text, no plain part is empty |
| HighlightableText.OutOfOrderHighlightsRepeatText | src/components/HighlightableText.tsx:71 | highlights are appended unchecked, and one out of order makes the rendered text repeat characters |
| HighlightableText.HighlightableTextView.constructor | src/components/HighlightableText.tsx:40-44 | no highlights, menu hidden, nothing pending, no colour chosen |
| HighlightableText.HighlightableTextView.HandleMouseUp | src/components/HighlightableText.tsx:55-67 | without the container nothing changes; a selection becomes pending and opens the menu at the mouse position; otherwise the menu closes and nothing is pending; the highlights never change |
| HighlightableText.HighlightableTextView.HandleHighlight | src/components/HighlightableText.tsx:69-77 | a pending selection is appended as one highlight with the colour and the earlier ones are kept; with none pending the list is unchanged; menu, pending and colour choice are cleared either way |
| HighlightableText.HighlightableTextView.Render | src/components/HighlightableText.tsx:86 | what the container renders is the split of the text by the current highlights, with one mark per stored highlight, in order, each over its slice and a non-empty range |
| GlossaryTooltip.Keys | src/components/GlossaryTooltip.tsx:25 | `Object.keys`: one key per entry, in insertion order |
| GlossaryTooltip.EscapeChar | src/components/GlossaryTooltip.tsx:16 | the written form of a character ends with it and reads back as exactly that character as a literal pattern |
| GlossaryTooltip.EscapeRegExp | src/components/GlossaryTooltip.tsx:15-17 | the escaped form is never shorter than the input and is a literal pattern for exactly the input: read with `ReadLiteral`, where a bare special character, a trailing backslash or a backslash before an ordinary character is refused, it gives the input back |
| GlossaryTooltip.EscapeConcat | src/components/GlossaryTooltip.tsx:16 | escaping distributes over concatenation |
| GlossaryTooltip.LiteralIsEscaped | src/components/GlossaryTooltip.tsx:16 | the escaped form is the only literal pattern for a text, so every special character and no other gets a backslash |
| GlossaryTooltip.EscapePlain | src/components/GlossaryTooltip.tsx:16 | a string without special characters is its own escaped form |
| GlossaryTooltip.GlossaryTermsNeedNoEscape | src/components/GlossaryTooltip.tsx:4-12 | the built-in terms escape to themselves |
| GlossaryTooltip.LettersAndSpacesNeedNoEscape | src/components/GlossaryTooltip.tsx:16 | a term of ASCII letters and spaces escapes to itself |
| GlossaryTooltip.InsertByLength | src/components/GlossaryTooltip.tsx:25 | one step of the stable sort: the term goes after every leading term at least as long; `InsertKeepsOrder` and `InsertAddsElement` state it |
| GlossaryTooltip.SortLongestFirst | src/components/GlossaryTooltip.tsx:25 | `sort((a, b) => b.length - a.length)` as a stable insertion sort; `SortIsLongestFirst`, `SortIsPermutation` and `SortIsStable` state it |
| GlossaryTooltip.InsertKeepsOrder | src/components/GlossaryTooltip.tsx:25 | inserting into a longest-first list keeps it longest first |
| GlossaryTooltip.InsertAddsElement | src/components/GlossaryTooltip.tsx:25 | inserting adds exactly the new term |
| GlossaryTooltip.SortIsLongestFirst | src/components/GlossaryTooltip.tsx:25 | the sorted terms have non-increasing length |
| GlossaryTooltip.SortIsPermutation | src/components/GlossaryTooltip.tsx:25 | the sorted terms are a permutation of the keys |
| GlossaryTooltip.SortIsStable | src/components/GlossaryTooltip.tsx:25 | the sort is stable: for every length, the terms of that length keep their order from `Object.keys` |
| GlossaryTooltip.GlossaryTermOrder | src/components/GlossaryTooltip.tsx:25 | the built-in alternation is "Reinforcement Learning", "Eligibility Traces", "Neural Network" |
| GlossaryTooltip.TermMatchesAt | src/components/GlossaryTooltip.tsx:26 | a term matches at a position as a whole word: `\b` before, the term up to case, `\b` after |
| GlossaryTooltip.FirstTermAt | src/components/GlossaryTooltip.tsx:26 | the alternative taken at a position is a term at or after the one tried first, and it fits inside the text |
| GlossaryTooltip.MatchAt | src/components/GlossaryTooltip.tsx:26 | the alternative the pattern takes at one position; `FirstTermAtIsFirstMatch` states it |
| GlossaryTooltip.FirstTermAtIsFirstMatch | src/components/GlossaryTooltip.tsx:26 | the alternative taken matches as a whole word ignoring case, and no earlier one matches; none is taken only when none matches |
| GlossaryTooltip.FindFrom | src/components/GlossaryTooltip.tsx:35 | `regex.exec` from `lastIndex` finds a match at or after it, lying inside the text |
| GlossaryTooltip.FindFromIsLeftmost | src/components/GlossaryTooltip.tsx:35 | the match found is the leftmost: no position before it matches, and None means no position matches |
| GlossaryTooltip.PushMatch | src/components/GlossaryTooltip.tsx:38-54 | one iteration's pushes: the slice since `lastIndex` when the match starts after it, then the matched word |
| GlossaryTooltip.SplitByTerms | src/components/GlossaryTooltip.tsx:29-58 | the loop returns exactly the specified parts |
| GlossaryTooltip.PartsFrom | src/components/GlossaryTooltip.tsx:32-57 | the parts the loop pushes from `lastIndex` on; `PartsFromReconstruct`, `TermPartsAreMatches` and `PartsFromNoEmptyText` state them |
| GlossaryTooltip.PartsFromReconstruct | src/components/GlossaryTooltip.tsx:35-57 | from `lastIndex` on, the plain slices and matched words spell the rest of the text |
| GlossaryTooltip.GlossaryPartsReconstruct | src/components/GlossaryTooltip.tsx:35-57 | the plain slices and matched words, concatenated in order, equal the text |
| GlossaryTooltip.PartsFromNoEmptyText | src/components/GlossaryTooltip.tsx:38-57 | a plain slice is pushed only when it is non-empty |
| GlossaryTooltip.MatchEnd | src/components/GlossaryTooltip.tsx:55 | `lastIndex = start + word.length` never moves backwards |
| GlossaryTooltip.MatchesAreOrdered | src/components/GlossaryTooltip.tsx:35-56 | the scan's matches are real matches after `lastIndex`, non-empty, non-overlapping and strictly increasing |
| GlossaryTooltip.MatchesCoverEveryMatch | src/components/GlossaryTooltip.tsx:35-56 | nothing is skipped: every position where a term matches starts or lies inside one of the scan's matches |
| GlossaryTooltip.TermPartsAreMatches | src/components/GlossaryTooltip.tsx:36-52 | the wrapped words are exactly the text at the scan's matches, one per match, in order |
| GlossaryTooltip.MatchIgnoresCase | src/components/GlossaryTooltip.tsx:26 | the case of the text does not change which alternative matches at a position |
| GlossaryTooltip.FindFromIgnoresCase | src/components/GlossaryTooltip.tsx:26 | the case of the text does not change where the next match is found |
| GlossaryTooltip.MatchesIgnoreCase | src/components/GlossaryTooltip.tsx:26 | a text and its lower-cased form are matched at the same positions with the same terms |
| GlossaryTooltip.LongestTermWins | src/components/GlossaryTooltip.tsx:25-26 | with the terms longest first, the alternative taken is the longest whole-word term matching there |
| GlossaryTooltip.GlossaryTerms | src/components/GlossaryTooltip.tsx:25 | the built-in alternation: the keys sorted longest first, all non-empty |
| GlossaryTooltip.RenderContent | src/components/GlossaryTooltip.tsx:28-63 | a string is split into parts; otherwise truthy children pass through unchanged; otherwise the content is null |
| GlossaryTooltip.NoMatchWithoutBoundary | src/components/GlossaryTooltip.tsx:26 | no alternative matches where `\b` fails |
| GlossaryTooltip.FindFromSkips | src/components/GlossaryTooltip.tsx:35 | the scan passes over positions where nothing matches |
| GlossaryTooltip.ExampleSentenceParts | src/components/GlossaryTooltip.tsx:35-57 | "Neural Network models use Reinforcement Learning" is split into exactly three parts: the two wrapped terms and the plain text between them |
| GlossaryTooltip.Lookup | src/components/GlossaryTooltip.tsx:87 | `GLOSSARY[hovered]`: the definition stored under exactly this key, or none |
| GlossaryTooltip.LookupIgnoreCase | src/components/GlossaryTooltip.tsx:87 | the definition of the entry whose term equals the key up to ASCII case, or none |
| GlossaryTooltip.LookupIgnoreCaseExtendsLookup | src/components/GlossaryTooltip.tsx:87 | every key the exact lookup finds, the case-insensitive lookup finds too |
| GlossaryTooltip.LowercaseMatchHasNoDefinition | src/components/GlossaryTooltip.tsx:26-87 | "neural network" is matched and wrapped, but the exact lookup finds no definition for it |
| GlossaryTooltip.MatchedWordEqualsTerm | src/components/GlossaryTooltip.tsx:36-44 | the word wrapped at a match equals the matched term up to case |
| GlossaryTooltip.EveryMatchHasDefinition | src/components/GlossaryTooltip.tsx:36-87 | with the case-insensitive lookup, every word the scan wraps has a definition |
| GlossaryTooltip.MatchesOfKeysHaveDefinitions | src/components/GlossaryTooltip.tsx:36-87 | for any alternation of glossary keys, every wrapped word has a definition up to case |
| GlossaryTooltip.MatchesSpellTerms | src/components/GlossaryTooltip.tsx:36 | every match of the scan spells its term up to case |
| GlossaryTooltip.TooltipState.constructor | src/components/GlossaryTooltip.tsx:21-22 | nothing hovered and no anchor |
| GlossaryTooltip.TooltipState.MouseEnter | src/components/GlossaryTooltip.tsx:43-46 | sets the hovered word and its element |
| GlossaryTooltip.TooltipState.MouseLeave | src/components/GlossaryTooltip.tsx:47-50 | clears both |
| GlossaryTooltip.TooltipState.Shown | src/components/GlossaryTooltip.tsx:68-87 | a panel exactly while a non-empty word and its element are set, 6 pixels below the element's bottom edge, with the exact-key definition |
| ProcessingSteps.FindIndex | src/components/ProcessingSteps.tsx:23-24 | `findIndex`: the first index with the id, and -1 exactly when there is none |
| ProcessingSteps.FindId | src/components/ProcessingSteps.tsx:20 | `find(...)?.id`: present exactly when some step has the id, and then it is that id |
| ProcessingSteps.GetStepStatus | src/components/ProcessingSteps.tsx:18-29 | `getStepStatus`: the error branch, then the comparison of the two indices; `BadgesFollowPosition` and the lemmas after it state the badges |
| ProcessingSteps.StepPositions | src/components/ProcessingSteps.tsx:11-16 | the order uploading, extracting, summarizing, complete; idle and error are at -1 |
| ProcessingSteps.BadgesFollowPosition | src/components/ProcessingSteps.tsx:23-28 | for a step status: earlier steps complete, that step current, later steps pending |
| ProcessingSteps.ExactlyOneCurrent | src/components/ProcessingSteps.tsx:23-28 | exactly one step is current while the status is a step |
| ProcessingSteps.ErrorLeavesAllPending | src/components/ProcessingSteps.tsx:19-21 | on error every step is pending, since no step has the id `error` |
| ProcessingSteps.IdleLeavesAllPending | src/components/ProcessingSteps.tsx:23-28 | while idle every step is pending, since the current index is -1 |
| ProcessingSteps.ShowsReset | src/components/ProcessingSteps.tsx:35 | the condition under which the reset button renders |
| ProcessingSteps.ResetShownAtTheEnd | src/components/ProcessingSteps.tsx:35 | the reset button shows exactly for `complete` or `error` |
| ProcessingSteps.ErrorText | src/components/ProcessingSteps.tsx:100 | the error, or the fixed default when it is null or empty; never empty |
| DashboardPage.AfterUpload | src/pages/Dashboard.tsx:29-71 | the state `handleImageUpload` leaves, for each outcome of the two calls; `UploadSucceeds` and `UploadFails` state it |
| DashboardPage.UploadStatuses | src/pages/Dashboard.tsx:31-67 | the statuses set, in order; `StatusesInOrder` states them |
| DashboardPage.AfterQuestion | src/pages/Dashboard.tsx:73-90 | the state `handleAskQuestion` leaves; `QuestionAddsTwo` states it |
| DashboardPage.AfterSelect | src/pages/Dashboard.tsx:92-102 | the state `handleHistoryItemSelect` leaves; `SelectKeepsHistory` states it |
| DashboardPage.UploadSucceeds | src/pages/Dashboard.tsx:39-64 | on success exactly one entry with the text and summary is prepended, the older ones keep their order, the status is complete and the chat is one greeting |
| DashboardPage.UploadFails | src/pages/Dashboard.tsx:66-68 | on failure the status is error with the message; history, summary and chat are unchanged |
| DashboardPage.UploadThroughServices | src/pages/Dashboard.tsx:40-46 | with the services plugged in, the error is one of their two fixed messages, and a new entry holds the non-empty OCR text and the stripped completion |
| DashboardPage.UploadSucceedsOrFails | src/pages/Dashboard.tsx:44-68 | when text came back, the page ends complete with the summary or in error with the summary's failure |
| DashboardPage.StatusesInOrder | src/pages/Dashboard.tsx:31-67 | uploading then extracting always; summarizing only once text came back; the last status is final and complete exactly on success |
| DashboardPage.UploadKeepsValid | src/pages/Dashboard.tsx:29-71 | once complete, the chat is an assistant greeting followed by user-question and assistant-answer pairs, after an upload whatever its outcome |
| DashboardPage.QuestionKeepsValid | src/pages/Dashboard.tsx:73-90 | a question and its reply extend a greeting followed by question-and-answer pairs by one more pair |
| DashboardPage.SelectKeepsValid | src/pages/Dashboard.tsx:92-102 | loading an entry leaves the chat a single greeting, which is a greeting followed by no pairs |
| DashboardPage.QuestionAddsTwo | src/pages/Dashboard.tsx:73-90 | a question adds exactly two messages, the question then the answer or the apology, and changes nothing else |
| DashboardPage.SelectKeepsHistory | src/pages/Dashboard.tsx:92-102 | loading an entry shows its text and summary, status complete, one greeting, panel closed, history unchanged |
| DashboardPage.Dashboard.constructor | src/pages/Dashboard.tsx:20-27 | the initial state: idle, no image, empty text and summary, no error, no history, no chat, panel closed |
| DashboardPage.Dashboard.HandleImageUpload | src/pages/Dashboard.tsx:29-71 | the new state is the upload's specified state, and the statuses set are listed in order |
| DashboardPage.Dashboard.HandleAskQuestion | src/pages/Dashboard.tsx:73-90 | the new state is the question's specified state, and the message sent is built from the question, text and summary |
| DashboardPage.Dashboard.HandleHistoryItemSelect | src/pages/Dashboard.tsx:92-102 | the new state is the selection's specified state |
| DashboardPage.Dashboard.Reset | src/pages/Dashboard.tsx:117 | the status becomes idle and nothing else changes |
| Uploader.UploadResult | src/components/ImageUploader.tsx:29-51 | what the chain delivers or throws, checked in the source's order; `ValidationComesFirst` and `BlankTextStopsBeforeEnhancement` state it |
| Uploader.UploadProgress | src/components/ImageUploader.tsx:26-59 | the values the bar takes, ending with the `finally` reset; `ProgressRisesThenResets` states them |
| Uploader.Settled | src/components/ImageUploader.tsx:52-55 | the outcome once `onResultsReceived` is called: its `TypeError` when the prop is `undefined` lands in the same `catch` |
| Uploader.UndefinedCallbackTurnsSuccessIntoError | src/pages/Dashboard.tsx:111 | as written for the dashboard, which passes no `onResultsReceived`: a chain that reaches 100 is shown and reported as the `TypeError`'s message, and nothing is delivered |
| Uploader.ProvidedCallbackDelivers | src/components/ImageUploader.tsx:52 | with the prop passed the chain's outcome is what the handler settles with; without it nothing is ever delivered |
| Uploader.SuccessfulUploadProgress | src/components/ImageUploader.tsx:27-59 | on success the bar takes 10, 30, 60, 80, 100 and ends at 0 |
| Uploader.ProgressRisesThenResets | src/components/ImageUploader.tsx:27-59 | the bar starts at 10, rises strictly while the chain runs and always ends at 0; it takes all six values exactly on success |
| Uploader.ValidationComesFirst | src/components/ImageUploader.tsx:32-36 | an invalid file fails with the validation message before encoding or any request, whatever the later calls would do |
| Uploader.BlankTextStopsBeforeEnhancement | src/components/ImageUploader.tsx:41-45 | a blank extracted text raises the no-text error and enhancement is never consulted |
| Uploader.ServiceRefusesBlankFirst | src/components/ImageUploader.tsx:40-45 | with `extractTextFromImage` plugged in, the component's blank check never fires |
| Uploader.ShownMessage | src/components/ImageUploader.tsx:54 | an `Error`'s message even when empty; another value's string form; the fallback only for an empty string form |
| Uploader.ProgressCaptions | src/components/ImageUploader.tsx:184-187 | the captions whose conditions hold, side by side; `OneCaptionAtATime` states that exactly one does |
| Uploader.CaptionText | src/components/ImageUploader.tsx:184-187 | the four caption texts |
| Uploader.OneCaptionAtATime | src/components/ImageUploader.tsx:184-187 | exactly one caption for every value: below 30, [30, 60), [60, 80), 80 and above, each an if-and-only-if |
| Uploader.ImageUploader.constructor | src/components/ImageUploader.tsx:14-19 | not loading, progress 0, no error, image mode, empty text |
| Uploader.ImageUploader.HandleImageUpload | src/components/ImageUploader.tsx:22-65 | no file changes nothing; otherwise the progress sequence, `onResultsReceived(enhanced \|\| '', extracted)` exactly when the chain succeeds and the prop is a function, and the same message to `error` and `onError` otherwise, the `TypeError` included; always ends idle at 0 |
| Uploader.ImageUploader.HandleDirectTextSubmit | src/components/ImageUploader.tsx:67-87 | a blank text only sets the error; otherwise the result is delivered with the typed text when the prop is a function, or the message, the `TypeError`'s included, is shown and reported |
| Uploader.ImageUploader.ToggleInputMethod | src/components/ImageUploader.tsx:89-92 | flips the input mode and clears the error |
| Uploader.ImageUploader.SetDirectText | src/components/ImageUploader.tsx:196 | sets the typed text only |
| ResultsDemo.ReplyText | src/components/ResultsDemo.tsx:31-41 | the content shown for the reply: the answer, or the caught value's message with the fallback |
| ResultsDemo.ReplaceLast | src/components/ResultsDemo.tsx:32-35 | `[...prev.slice(0, -1), m]`: same length, the same earlier messages, `m` last; an empty list gives `[m]` |
| ResultsDemo.StartsWithGreeting | src/components/ResultsDemo.tsx:12-16 | the chat starts with exactly the one system greeting |
| ResultsDemo.BlankInputIgnored | src/components/ResultsDemo.tsx:21 | a whitespace-only input changes nothing |
| ResultsDemo.Submitted | src/components/ResultsDemo.tsx:24-28 | the state at the `await`; `SubmitAppendsQuestionAndPlaceholder` states it |
| ResultsDemo.AfterSend | src/components/ResultsDemo.tsx:19-42 | the state `handleSendMessage` leaves; `SendGrowsByTwo` and `SendKeepsValid` state it |
| ResultsDemo.SubmitAppendsQuestionAndPlaceholder | src/components/ResultsDemo.tsx:24-28 | while waiting: the question, then "Thinking...", after the old messages; the input is cleared |
| ResultsDemo.SendGrowsByTwo | src/components/ResultsDemo.tsx:24-41 | a send grows the chat by two: earlier messages kept, the question, then the reply in the placeholder's place |
| ResultsDemo.SendKeepsValid | src/components/ResultsDemo.tsx:19-43 | every send keeps the greeting first and the chat in pairs: every odd position is a user question and every even position after the greeting a system reply |
| ResultsDemo.ServiceReplyShown | src/components/ResultsDemo.tsx:31-37 | with `askQuestion` plugged in, the reply shown is the stripped completion or its fixed failure message |
| ResultsDemo.Demo.constructor | src/components/ResultsDemo.tsx:11-16 | the props are kept; the initial state is the summary tab, the greeting and an empty input |
| ResultsDemo.Demo.SetActiveTab | src/components/ResultsDemo.tsx:93-100 | sets the tab only |
| ResultsDemo.Demo.SetInputMessage | src/components/ResultsDemo.tsx:162 | sets the input only |
| ResultsDemo.Demo.HandleSendMessage | src/components/ResultsDemo.tsx:19-43 | the new state is the send's specified state; a question is asked exactly when the input is not blank, with the templated message |
| SummaryQa.InitialState | src/components/AISummaryQA.tsx:11-16 | the input is `initialInputText` or ''; everything else is empty, not loading, no error |
| SummaryQa.SummarizeDisabled | src/components/AISummaryQA.tsx:72 | `loading \|\| !inputText.trim()` |
| SummaryQa.AskDisabled | src/components/AISummaryQA.tsx:98 | `loading \|\| !question.trim()` |
| SummaryQa.QuestionSectionShown | src/components/AISummaryQA.tsx:85 | `{summary && ...}`: the question section renders for a non-empty summary |
| SummaryQa.ErrorShown | src/components/AISummaryQA.tsx:85-116 | `{error && ...}` inside `{summary && ...}`: a non-empty error renders only beside a non-empty summary |
| SummaryQa.SummarizeFailureIsHidden | src/components/AISummaryQA.tsx:19-116 | as written, a failed summarize stores its message, but the cleared summary hides the error panel and the question section |
| SummaryQa.AskFailureShown | src/components/AISummaryQA.tsx:36-116 | a failed ask shows its message exactly when the summary is non-empty and the message is non-empty |
| SummaryQa.ErrorPanelOutsideSummary | src/components/AISummaryQA.tsx:109-114 | with the error panel outside the summary block, either handler shows its error exactly when it failed with a non-empty message; for summarize that panel is the only place it shows |
| SummaryQa.WhileSummarizing | src/components/AISummaryQA.tsx:20-23 | the state while `generateSummary` is awaited |
| SummaryQa.AfterSummarize | src/components/AISummaryQA.tsx:19-33 | the state `handleSummarize` leaves; `SummarizeOutcome` states it |
| SummaryQa.WhileAsking | src/components/AISummaryQA.tsx:37-39 | the state while `askQuestion` is awaited |
| SummaryQa.AfterAsk | src/components/AISummaryQA.tsx:36-49 | the state `handleAsk` leaves; `AskOutcome` states it |
| SummaryQa.EnabledConditions | src/components/AISummaryQA.tsx:72-98 | each button is enabled exactly when nothing is loading and its field has a non-whitespace character |
| SummaryQa.LoadingDisablesButtons | src/components/AISummaryQA.tsx:20-98 | while a call is awaited both buttons are disabled; summarizing hides the question section, asking keeps it |
| SummaryQa.SummarizeOutcome | src/components/AISummaryQA.tsx:19-33 | success sets the summary, failure the error, never both; the answer is cleared; input and question kept; not loading |
| SummaryQa.AskOutcome | src/components/AISummaryQA.tsx:36-49 | only answer and error change; the summary and the question section stay |
| SummaryQa.ReasoningOnlySummaryHidesQuestions | src/components/AISummaryQA.tsx:25-85 | a summary that was only a reasoning block succeeds with no error and leaves the question section hidden |
| SummaryQa.ServiceMessagesShown | src/components/AISummaryQA.tsx:28-44 | with the services plugged in, a failure stores the service's own message, not the component's fallback; as written a summarize failure is never shown and an ask failure is shown only beside a summary, and with the panel outside the summary block both are shown |
| SummaryQa.SummaryQaView.constructor | src/components/AISummaryQA.tsx:11-16 | the initial state |
| SummaryQa.SummaryQaView.SetInputText | src/components/AISummaryQA.tsx:67 | sets the input only |
| SummaryQa.SummaryQaView.SetQuestion | src/components/AISummaryQA.tsx:93 | sets the question only |
| SummaryQa.SummaryQaView.HandleSummarize | src/components/AISummaryQA.tsx:19-33 | the new state is the specified one; the input text is sent; the state during the call is cleared and loading |
| SummaryQa.SummaryQaView.HandleAsk | src/components/AISummaryQA.tsx:36-49 | the new state is the specified one; the templated message built from question, input and summary is sent |

## Left out

- The network: `axios.post`, `fetch` and `response.json()`, with their request bodies, headers and models, and the 30 s and 60 s timeouts. Every call is a parameter: the value it resolved with or what it threw.
- The environment: whether `VITE_GROQ_API_KEY` is set is the parameter `hasKey`.
- The browser: `FileReader` and `URL.createObjectURL`. What the reader produced is a parameter, and the object URL is a given string.
- The DOM: the `Range` measurement in `getSelectionOffsets` (src/components/HighlightableText.tsx:10-16) and `removeAllRanges`, the file input reset and `getBoundingClientRect`. The measured lengths and the element's edges are parameters.
- Timing is the parameter `id`: `Date.now()` as the history id, plus the timestamp.
- Concurrency: handlers are atomic. A reply that arrives after a reset, or two overlapping sends in `ResultsDemo` (whose `slice(0, -1)` would then drop the wrong message), are not modelled.
- `DashboardPage.UploadFails`: the outcomes are messages of `Error`s. The 'An unknown error occurred' branch for a non-`Error` throw (src/pages/Dashboard.tsx:68) is not modelled, since the services it calls only throw `Error`s.
- `ImageInput.OcrReply`: the `error` and `text` fields of the OCR reply are taken in string form. The truthiness of other JSON values in those fields is not modelled.
- `Completion.Reply`: the first choice's `message.content` is a string or absent. A truthy non-string content is not modelled: in src/services/aiService.ts:95 `stripThinkContent` then throws a `TypeError` when it calls `.replace`, which the catch at lines 117-118 re-throws with its message, and src/services/api.ts returns the value as it is.
- `OcrService.ProcessImage`: `data.text` is a string or absent. The truthiness test at src/services/ocrService.ts:114 on other JSON values is not modelled: `0` or `false` make the source throw, where the model only sees strings and accepts "0", and a truthy non-string is returned as it is.
- `ImageInput.ConvertToBase64`: the promise settles once, as `onload` or `onerror`.
- `Helpers.ConfidenceColor`: scores are `real`, not IEEE doubles, so NaN is not modelled; the function only compares against the thresholds.
- Strings are sequences of code points, not UTF-16 units. How `length` and `slice` count surrogate pairs is not modelled.
- Rendering, styling and the purely presentational components.
- Other helpers: `formatNumber`, `formatDate`, `generateId`, `isValidUrl` and `debounce` (floating point, dates, randomness, URL parsing, timers).
- The router code of src/pages/ResultsPage.tsx, and the typing and copy-feedback timers of the chat and summary cards.
- The regular-expression engine itself. Both patterns are written out as scanners with the semantics stated above.
- `Uploader.ImageUploader.HandleImageUpload`: the default `onError` is `console.error`, which is output only; what `onError` receives is returned as `reported`.
- `DashboardPage.Dashboard`: the page's own `handleImageUpload` never runs in the source, since src/pages/Dashboard.tsx:111 passes it as `onImageUpload`, a prop `ImageUploader` does not read. It is modelled as the handler the page evidently meant to run; what the uploader does inside the dashboard is the "## Findings" row below.

## Findings

| source | as written | input that shows it | evidently intended | confidence | as-written member | corrected member |
|---|---|---|---|---|---|---|
| src/components/GlossaryTooltip.tsx:26-87 | the scan matches terms ignoring case (flag `i`) and stores the matched text as typed, but the tooltip looks it up as an exact key, `GLOSSARY[hovered]` | the text "neural network": it is wrapped as a term, and hovering it shows the word with an empty definition | every wrapped word shows its definition, looked up up to case | high for the mismatch, not executed | GlossaryTooltip.LowercaseMatchHasNoDefinition | GlossaryTooltip.EveryMatchHasDefinition |
| src/pages/Dashboard.tsx:111 | the dashboard renders `<ImageUploader onImageUpload={handleImageUpload} />`, but the uploader reads only `onResultsReceived` and `onError`, so on a successful chain it calls `undefined` | any readable image of an accepted type: the bar reaches 100, then the `TypeError` from calling `onResultsReceived` is caught, shown as the upload error and passed to `onError`; the page's `handleImageUpload` never runs and the status stays idle. This needs a build that strips the types without checking them, such as Vite's development server, since a type-checked build rejects the missing required prop and the unknown one | the uploader's results reach the page | high for the mismatch, not executed | Uploader.UndefinedCallbackTurnsSuccessIntoError | Uploader.ProvidedCallbackDelivers |
| src/components/AISummaryQA.tsx:109-114 | the error panel sits inside the `{summary && ...}` block opened at line 85, and `handleSummarize` clears the summary at line 22 before its call | a summarize whose completion request fails: the message "Failed to generate summary. Please try again." is stored but nothing shows it, and the page just returns to the empty form | a failed summarize shows its error, so the panel sits outside the summary block | medium, not executed | SummaryQa.SummarizeFailureIsHidden | SummaryQa.ErrorPanelOutsideSummary |
