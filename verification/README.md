# Artha browser extension: a Dafny model of its logic

Artha is a Chrome extension that puts a financial assistant next to the
page being read. This project models its logic as pure functions over
strings and sequences, and proves properties of them. The modelled pieces:

- **Hover tooltip** (`scripts/delete-tooltip.js`). Decides which elements get a
  financial tooltip, and what the tooltip shows: a price, a percentage
  change, the listed terms, a keyword sentiment and a suggestion. It also
  places the tooltip.
- **Service worker** (`scripts/background.js`). Routes the runtime messages
  `analyzeText`, `chat` and `sidebarChat`, and builds the chat-completion
  request its `callOpenAI` sends.
- **Side panel** (`scripts/sidepanel.js`). Holds the conversation session:
  the page snapshot, the first-message flag and the history. It also covers:
  - the panel's own request with the full history, reset and page capture;
  - the sliding-window `RateLimiter` class. The file declares it but never
    instantiates it: the one `new RateLimiter(3, 1000)` (lines 65-66) is
    commented out, so no call waits on it and its defect below is latent;
  - `handleChat`, which forwards questions to the worker;
  - the injected page script's `extractNumbers` and `findFinancialTerms`.
- **Content script** (`scripts/content.js`). Covers the selection popup and
  the quick-ask chat popup, `sendMessageWithRetry`, and how a reply is
  shown.
- **Markdown renderer** (`scripts/utils.js`). The nine global regular-expression
  replacements of `convertMarkdownToHtml`. `scripts/content.js` and
  `scripts/sidepanel.js` carry identical copies.
- **Options page** (`options/options.js`). Parses the tag list on save and
  joins it again on load.

How the model is set up:

- **Retry loop.** The extension writes the counted retry loop three times.
  It is modelled once, in `Retry`, and parameterised by the backoff policy.
  Each attempt's outcome is an input, and the sleeps the loop would make
  are returned.
- **Regular expressions** are hand-written leftmost matchers with
  JavaScript semantics:
  - `.` stops at the four line terminators;
  - lazy `.*?` takes the shortest body;
  - greedy classes take the longest run;
  - a global replace resumes after each match.
- **JavaScript values.** Absent properties are `Option`s, or `JsString`
  when `undefined` is read. Truthiness, `||` defaults and `${…}`
  interpolation are written out.

Modules, in dependency order:

| module | file |
|---|---|
| `Wrappers` | wrappers.dfy |
| `JsText` (trim, case mapping, split/join, search) | js_text.dfy |
| `SeqUtil` | seq_util.dfy |
| `FinancialPatterns` | financial_patterns.dfy |
| `Tooltip` | tooltip.dfy |
| `Retry` | retry.dfy |
| `RateLimiter` | rate_limiter.dfy |
| `Messages` (request and reply shapes) | messages.dfy |
| `Background` | background.dfy |
| `SidePanel` | side_panel.dfy |
| `PageExtract` | page_extract.dfy |
| `Markdown` | markdown.dfy |
| `ContentScript` | content_script.dfy |
| `TagSettings` | tag_settings.dfy |

Where the prose description of the extension and its code disagree, the
model follows the code:

- `resetConversation` clears the first-message flag and the history but
  keeps `pageContent`. A reset conversation still refers to the last
  captured page.
- `positionTooltip` only flips the tooltip to the other side of the cursor.
  Nothing clamps it to the window.

## Model

| member | source | states |
|---|---|---|
| Tooltip.MergeStored | scripts/delete-tooltip.js:21-30 | The stored `tooltipConfig` replaces exactly the fields it has. The tag list and `showText` come from it when present and keep their current values when it lacks them. The three display switches keep their defaults. An absent object changes nothing. |
| Tooltip.ShouldShowTooltip | scripts/delete-tooltip.js:53-65 | An element whose tag is not listed never gets a tooltip, whatever its text. For a listed tag, the result is true iff the trimmed text has a price match, a percentage match, or a listed term ignoring case. |
| Tooltip.Metrics | scripts/delete-tooltip.js:76-86 | At most two metric lines. `"Price: "` plus the first price match comes first, and `"Change: "` plus the first percentage match comes last, each only when the pattern occurs. |
| Tooltip.SentimentOf | scripts/delete-tooltip.js:95-102 | Positive iff a positive keyword occurs. Negative iff none does and a negative one does. Neutral otherwise. |
| Tooltip.BullBeatsBear | scripts/delete-tooltip.js:96-98 | Text that mentions both "bull" and "bear" reads as Positive, because the positive words are tried first. |
| Tooltip.GenerateSuggestion | scripts/delete-tooltip.js:112-121 | Priority is stock, then crypto, then dividend, then the generic tip. Each tip is chosen exactly when the terms above it are absent and its own is present. |
| Tooltip.Analyze | scripts/delete-tooltip.js:67-110 | The result is null exactly when the trimmed text has no price, no percentage and no term. Otherwise it carries the metrics, the found terms and the sentiment. A suggestion is present iff some term was found, and is then chosen by the priority rule. |
| Tooltip.ShouldShowMeansAnalysis | scripts/delete-tooltip.js:37-39 | Whenever the tooltip test passes the analysis is non-null. For a listed tag the two agree exactly. |
| Tooltip.AnalysisTermsAreListed | scripts/delete-tooltip.js:88-93 | The analysed terms are listed terms, without repeats, in list order (a subsequence of the list). |
| Tooltip.Sections | scripts/delete-tooltip.js:123-145 | Section order is metrics, terms, sentiment, suggestion. Metrics and terms appear only when non-empty, the suggestion only when there is one, and the sentiment always. |
| Tooltip.BuildTooltipContent | scripts/delete-tooltip.js:123-148 | The joined tooltip is never empty and always contains the sentiment section. It starts with the metrics section when there are metrics, or with the sentiment section when there are neither metrics nor terms. It ends with the suggestion when there is one. It contains the terms section when there are terms, and `<br>` follows the metrics section. It is the join with `<br>` of the sections in their display order. |
| Tooltip.JoinShowsEveryPart | scripts/delete-tooltip.js:147 | Every part of a `join` occurs in the result. The first part starts it and the last part ends it. |
| Tooltip.PositionTooltip | scripts/delete-tooltip.js:150-167 | The tooltip sits 15 px right of the cursor exactly when it fits inside the window width. Otherwise its right edge sits 15 px left of the cursor. The same holds vertically. |
| FinancialPatterns.NumberSpacesEndSound | scripts/delete-tooltip.js:10-11 | The greedy reading of `\d+\.?\d*\s*` is a valid split into digits, optional point, digits and spaces. |
| FinancialPatterns.NumberSpacesEndComplete | scripts/delete-tooltip.js:10-11 | Backtracking finds no other reading: any split followed by a character outside `\d`, `.` and `\s` is the greedy one. |
| FinancialPatterns.PriceAt | scripts/delete-tooltip.js:10 | A price match at `i` is non-empty and ends inside the text. |
| FinancialPatterns.PercentAt | scripts/delete-tooltip.js:11 | A percentage match at `i` is non-empty, ends inside the text, and ends with `%`. |
| FinancialPatterns.MatchAt | scripts/delete-tooltip.js:59-60 | Whichever of the two patterns is tested, a match is non-empty and ends inside the text. |
| FinancialPatterns.PercentAtMeansShape | scripts/delete-tooltip.js:11 | The percentage matcher matches `s[i..e]` exactly when `[-+]?\d+\.?\d*\s*%` has a reading of that stretch. |
| FinancialPatterns.CodedPriceAtMeansShape | scripts/delete-tooltip.js:10 | At a position without `$`, the price matcher matches `s[i..e]` exactly when the currency-code alternative has a reading of that stretch, with the code compared ignoring case. |
| FinancialPatterns.DollarPriceIsLongest | scripts/delete-tooltip.js:10 | The `$` alternative takes all the digits, a following point, and all the digits after it. |
| FinancialPatterns.FirstMatchFrom | scripts/delete-tooltip.js:59-60 | The search returns the leftmost position where the pattern matches, and no earlier position matches. None means no position matches. |
| FinancialPatterns.FirstMatch | scripts/delete-tooltip.js:77-85 | `text.match(p)[0]` is present iff the pattern matches somewhere, and is then the leftmost match's text. |
| FinancialPatterns.TermsFound | scripts/delete-tooltip.js:89-93 | A term is kept iff it is listed and occurs in the text ignoring case. The result is a subsequence of the list, and has no repeats when the list has none. |
| FinancialPatterns.TermsFoundNonEmpty | scripts/delete-tooltip.js:61-63 | Some term is found iff the `some(...)` test of the tooltip holds. |
| FinancialPatterns.FinancialTermsDistinct | scripts/delete-tooltip.js:13-18 | The twenty listed terms are pairwise distinct. |
| Retry.WaitAfter | scripts/sidepanel.js:264-268 | After failed attempt `i` the sleep is `unit × (i + 1)`. The messaging policy always sleeps. The API policy sleeps iff the message contains "rate limit". |
| Retry.RetryFrom | scripts/background.js:69-124 | With at least one attempt allowed, the loop never falls through. It makes at most `retries` attempts, all failures before the last one made. A return is the value of the last attempt made. A throw is the last allowed attempt's error, unchanged. The sleeps are the owed ones, none after the last attempt. With no attempt allowed it falls through (`undefined`). |
| Retry.RunRetry | scripts/sidepanel.js:218-271 | The loop written with a counter and early exits computes exactly the run `Loop` describes. |
| Retry.RetryReturnsFirstSuccess | scripts/background.js:69-115 | When attempt `k < retries` is the first success, the loop returns its value after `k + 1` attempts. |
| Retry.RetryRethrowsLastError | scripts/background.js:116-118 | When all `retries` attempts fail, the last error is rethrown unchanged after `retries` attempts, with the owed sleeps. `retries = 0` falls through. |
| Retry.AlwaysWaitsAreLinear | scripts/content.js:172-178 | Under the messaging policy the sleeps are 1, 2, … times the unit, one per failed attempt. |
| Retry.NoRateLimitNoWaits | scripts/background.js:120-122 | Failures that do not mention "rate limit" are retried without sleeping. |
| Retry.ApiRateLimitExample | scripts/sidepanel.js:262-268 | Two rate-limit failures and then a success return the answer after sleeps of 2000 ms and 4000 ms. |
| Retry.MessagingExample | scripts/content.js:172-178 | Three failed deliveries sleep 1000 ms and 2000 ms, with no sleep after the third, and rethrow the third error. |
| RateLimiter.AboveMembers | scripts/sidepanel.js:53 | Pruning keeps exactly the timestamps newer than `now - timeWindow`, in their original order and each as often as it was recorded: repeated timestamps from calls at one instant all stay. |
| RateLimiter.WaitForAvailability | scripts/sidepanel.js:51-62 | The list becomes the pruned list plus the call's start time `now`. The call passes at once iff the pruned count is below `maxRequests`. Otherwise it sleeps `oldest + timeWindow - now`, which is positive. With `maxRequests <= 0` and nothing kept, the sleep is `NaN`. |
| RateLimiter.WaitKeepsSorted | scripts/sidepanel.js:53-61 | With a clock that does not run backwards the list stays sorted, and ends with this call's `now`. |
| RateLimiter.FourthCallWaits | scripts/sidepanel.js:55-61 | On a 3-per-1000 ms limiter, three calls at the same instant pass at once and a fourth sleeps 1000 ms. Each call records the same start time. |
| RateLimiter.AsWrittenOverfillsWindow | scripts/sidepanel.js:51-62 | As written, a full window lets four calls through one 1000 ms window (see Findings). |
| RateLimiter.WaitForAvailabilityFixed | scripts/sidepanel.js:51-62 | The corrected limiter sleeps exactly as the original does, but records the admission time instead of the arrival time. |
| RateLimiter.AdmissionTime | scripts/sidepanel.js:55-58 | The corrected limiter admits a call at `now` while the window has room. When the window is full it admits it exactly when the oldest kept timestamp leaves the window. |
| RateLimiter.FixedNeverOverfills | scripts/sidepanel.js:44-62 | For calls made one after another, the corrected limiter never admits more than `maxRequests` calls in any window of `timeWindow` ms. |
| Messages.StringOr | scripts/background.js:35 | A present string property is read as itself, even when empty; a missing one reads as `absent`. `Interpolate` (`${v}`) uses `"undefined"`, and `OrDefaultEmpty` (the `context = ''` default of `callOpenAI`, scripts/background.js:67) uses `""`. |
| Messages.OrElse | scripts/sidepanel.js:442 | `v \|\| fallback` keeps a non-empty string and replaces an empty or missing one. |
| Messages.ApiErrorMessage | scripts/background.js:106-110 | A failed call throws the endpoint's own error message when it is non-empty, otherwise the fixed fallback. A network failure keeps its message. |
| Messages.ToAttempt | scripts/background.js:106-115 | A call succeeds iff it completed, with the completion's content. Otherwise it fails with `ApiErrorMessage`. |
| Background.BuildRequest | scripts/background.js:75-101 | The request has exactly two turns: system, then user, and no history. The system turn carries the suffix iff quick-ask. The user turn is `"Context: " + context + "\n\nQuestion: " + message`. The token budget is 150 for quick-ask and 800 otherwise. |
| Background.UserTurnRecoversInputs | scripts/background.js:84 | The context and the question can be read back from the user turn. |
| Background.QuickAskOnlyShortens | scripts/background.js:78-80 | Quick-ask mode changes only the system suffix and lowers the token budget. The user turn is the same. |
| Background.BuildRequestSeparatesQuestions | scripts/background.js:84 | Different questions with the same context give different requests. |
| Background.ChatReply | scripts/background.js:37-43 | A `chat` reply is `{answer}` on success and `{error: message}` on failure. |
| Background.SidebarReply | scripts/background.js:49-62 | A `sidebarChat` reply is `{success: true, answer}` or `{success: false, error}`, and never has `formattedAnswer`. |
| Background.Dispatch | scripts/background.js:21-65 | The listener returns true exactly for `chat` and `sidebarChat`. `chat` wraps the prompt and calls in quick-ask mode with 3 attempts. `sidebarChat` calls in full mode. `analyzeText` only forwards the text. Any other action is ignored. |
| Background.RepliesAreDecided | scripts/background.js:36-63 | With three attempts a `chat` reply carries exactly one of answer and error. A `sidebarChat` reply has `success` true iff it has an answer. |
| Background.SidebarNeverFormats | scripts/background.js:51-61 | Whatever the endpoint does, a `sidebarChat` reply never has `formattedAnswer`. |
| Background.ChatFirstCallAnswers | scripts/background.js:32-39 | When the first call completes, a `chat` message gets that answer after one attempt and no sleep. The wrapped prompt is sent after an empty context. |
| SidePanel.FormatFinancialContent | scripts/sidepanel.js:125-139 | The snapshot appears whole, at a fixed offset, inside the frame. |
| SidePanel.PanelRequest | scripts/sidepanel.js:225-247 | The panel's request is the system prompt, then the whole history in order, then the new user turn, with 800 tokens. |
| SidePanel.ContextFor | scripts/sidepanel.js:186-192 | When the session is on its first message and a snapshot exists, the question is sent after the framed snapshot and `"\nUser question: "`. Otherwise the bare question is sent. |
| SidePanel.SendMessage | scripts/sidepanel.js:173-208 | A blank input does nothing. The first-message flag is cleared iff the snapshot is carried, even when the call then fails. A success appends exactly the question and the answer to the history and shows both. A failure leaves the history unchanged and shows "Error analyzing financial data: " plus the message. |
| SidePanel.Reset | scripts/sidepanel.js:274-279 | A reset sets the first-message flag, empties the history and shows only the reset notice. It keeps the snapshot and the selected text. |
| SidePanel.ResetIdempotent | scripts/sidepanel.js:274-279 | Resetting twice is resetting once. |
| SidePanel.CapturePage | scripts/sidepanel.js:294-384 | A captured page becomes the snapshot and starts a fresh conversation. A missing tab, an empty result or a rejected call changes no state and reports its error. A result that is not a page object (`null` or `undefined`) replaces the snapshot with its `JSON.stringify` before reading `pageData.url` throws; the conversation and its flag are left as they were, and the `TypeError` is reported. |
| SidePanel.NullCaptureStillSent | scripts/sidepanel.js:343-351 | After a failed capture whose result was `null`, the next first question still carries a snapshot: the text `"null"` inside the frame. |
| SidePanel.OnRuntimeMessage | scripts/sidepanel.js:477-483 | Only `textSelected` changes the state, and it replaces the selected text. |
| SidePanel.OperationsKeepHistoryWellFormed | scripts/sidepanel.js:198-201 | Send, reset, capture and the runtime listener all keep the history a run of user/assistant pairs. |
| SidePanel.SnapshotSentOnce | scripts/sidepanel.js:186-192 | After a send that carried the snapshot, the next send carries only the bare question. |
| SidePanel.CaptureThenAsk | scripts/sidepanel.js:370-372 | After a capture, the next question is sent with the new snapshot and with no earlier history. |
| SidePanel.SidebarRequest | scripts/sidepanel.js:416-420 | `handleChat` sends a `sidebarChat` message with the question and `selectedText \|\| ''` as context. |
| SidePanel.ChatFailure | scripts/sidepanel.js:414-456 | A delivery error comes first. Then a reply without a truthy `success` fails with its error or "Unknown error occurred". Then a reply without a truthy `formattedAnswer` fails with "No formatted answer in response". |
| SidePanel.HandleChat | scripts/sidepanel.js:388-471 | Corrected `handleChat`: the panel shows the question and then either the formatted answer or `"Error: " + message`. The indicator never stays, and the promise never rejects. |
| SidePanel.HandleChatAsWritten | scripts/sidepanel.js:388-393 | `handleChat` as written: without the messages container nothing is shown and nothing is thrown. |
| SidePanel.AsWrittenHidesEveryError | scripts/sidepanel.js:458-462 | As written, no failure ever shows an error line, because the `catch` block's read of `loadingDiv` rejects the promise with a `ReferenceError` (see Findings). |
| SidePanel.HandleChatAgreesOnSuccess | scripts/sidepanel.js:445-452 | The as-written and corrected versions agree whenever an answer is shown. |
| SidePanel.SidebarAnswerNeverShown | scripts/sidepanel.js:445-456 | End to end with the worker: a side-panel question never shows an answer, because the worker replies with `answer` and the panel demands `formattedAnswer`. |
| PageExtract.ExtractNumbers | scripts/sidepanel.js:312-314 | Every match of the global pattern matches `[\d,]+\.?\d*` whole. |
| PageExtract.ExtractKeepsEveryDigit | scripts/sidepanel.js:312-314 | Taken together, the matches hold exactly the text's digits and commas: none is lost or counted twice. |
| PageExtract.LongestRunMatched | scripts/sidepanel.js:312-314 | The matches are the longest runs. After text with no digit or comma, a run of digits and commas that is followed by neither another one nor `.` is the next match, whole, and matching resumes right after it. |
| PageExtract.DecimalRunMatched | scripts/sidepanel.js:312-314 | A decimal is matched whole and greedily. After text with no digit or comma, a run of digits and commas, a point and every digit after it form one match ("12.5" gives `["12.5"]`, never `["12.", "5"]`), and matching resumes after the last digit. |
| PageExtract.LoneRunMatched | scripts/sidepanel.js:312-314 | A lone run of digits and commas between text holding none is the one match: `"12"` gives `["12"]`, never `["1", "2"]`. |
| PageExtract.NoNumberCharsNoNumbers | scripts/sidepanel.js:313 | The list is empty (the `\|\| []` case) exactly when the text has no digit and no comma. |
| PageExtract.SecondPointStartsAnew | scripts/sidepanel.js:313 | A match takes at most one point: "1.2.3" yields "1.2" and then "3". |
| PageExtract.FindFinancialTerms | scripts/sidepanel.js:317-320 | A term is kept iff it is one of the ten page terms and occurs in the lower-cased text. The result keeps list order. |
| PageExtract.PageTermsAreTooltipTerms | scripts/sidepanel.js:318 | Every term the page capture reports is one the hover tooltip reports for the same text. |
| Markdown.MatchAt | scripts/utils.js:2-18 | A match of any of the nine passes is non-empty and ends inside the text. |
| Markdown.LazyClose | scripts/utils.js:8-10 | `(.*?)close` stops at the first occurrence of the closing literal on the same line. It finds nothing only when no such occurrence exists. |
| Markdown.ItemAt | scripts/utils.js:12 | A bullet body runs to the end of its line and takes the `'\n'` with it. A line ended by another line terminator is no item. |
| Markdown.EnclosedAt | scripts/utils.js:4-10 | A header or emphasis match is the opener, the shortest one-line body, and the closer, replaced by the element around the body. |
| Markdown.NumberedAt | scripts/utils.js:16 | A numbered item is a full digit run, `". "`, and an item to the end of the line. |
| Markdown.WrapAt | scripts/utils.js:14 | The list pass wraps the first `<li>…</li>` on the line in its own `<ul>` and drops the newlines after it. |
| Markdown.NoMatchNoChange | scripts/utils.js:2-18 | A global replace whose pattern matches at no position from `i` on leaves the rest of the text unchanged. |
| Markdown.LeftmostMatch | scripts/utils.js:2-18 | A global replace copies the text before the leftmost match unchanged, emits that match's replacement, and resumes scanning right after the match. |
| Markdown.LineBreakIsSplitJoin | scripts/utils.js:18 | The last pass is `split('\n').join('<br>')`. |
| Markdown.Render | scripts/utils.js:1-19 | The rendered HTML contains no `'\n'`. |
| Markdown.NoMarkerNoChange | scripts/utils.js:2-18 | A pass whose marker literal does not occur leaves the text unchanged. |
| Markdown.RenderPlain | scripts/utils.js:1-19 | Text without `#`, `*`, `-`, `<` or `.` only has its newlines turned into `<br>`, and is not escaped. |
| Markdown.RenderHeader | scripts/utils.js:4-6 | `"### t\n"` renders as `<h3>t</h3>`, newline consumed, never as `<h1>`. |
| Markdown.RenderBold | scripts/utils.js:8-10 | `"**t**"` renders as `<strong>t</strong>`, not as nested `<em>`. |
| Markdown.RenderBulletList | scripts/utils.js:12-14 | Two bullet lines render as two `<ul>` lists of one `<li>` each. |
| Markdown.RenderNumbered | scripts/utils.js:14-16 | `"N. x"` renders as a bare `<li>x</li>`, never wrapped in `<ul>`. |
| ContentScript.DeliveryAttempt | scripts/content.js:154-170 | A missing runtime fails with "Chrome runtime not available". `lastError` fails with its message. A response succeeds. |
| ContentScript.SendWithRetry | scripts/content.js:151-181 | At most `maxRetries` attempts. It returns the response of the last attempt made, all earlier attempts having failed. It falls through when no attempt is allowed. |
| ContentScript.SendWaitsGrowLinearly | scripts/content.js:172-178 | With the default three attempts the sleeps are 1000 ms, 2000 ms, one per failure before the last attempt. |
| ContentScript.NoRuntimeGivesUp | scripts/content.js:155-157 | Without a runtime, three attempts fail with sleeps [1000, 2000], and "Chrome runtime not available" is rethrown. |
| ContentScript.OnMouseUp | scripts/content.js:54-68 | The selection popup is shown 45 px above the selection iff the trimmed selection is non-empty and the target is outside both popups. It is hidden when the selection is empty, and left alone otherwise. |
| ContentScript.OnPopupClick | scripts/content.js:71-90 | The chat icon opens the chat 10 px under the popup, with the trimmed selection as context and as the only entry. |
| ContentScript.OnMouseDown | scripts/content.js:184-191 | A press inside a popup changes nothing. A press outside both popups closes the chat, and closes the selection popup too iff nothing is selected. Only the two `display` flags change: positions, context and chat stay. |
| ContentScript.OnClose | scripts/content.js:194-196 | The close button hides the chat popup and changes nothing else: its position, the selection popup, the context and the chat all stay. |
| ContentScript.PressOutsideIsClose | scripts/content.js:184-196 | While text stays selected, a press outside both popups has exactly the effect of the close button. |
| ContentScript.CloseIdempotent | scripts/content.js:194-196 | Closing an already closed chat changes nothing. |
| ContentScript.ChatRequest | scripts/content.js:160-164 | The message `sendMessageWithRetry` sends has action `chat`, the question as `prompt` and the selection as `context`. |
| ContentScript.ErrorNoteFor | scripts/content.js:139-144 | The error line is `"Error: " + message + ". Please try again."`. An empty message reads "An unknown error occurred". |
| ContentScript.ShowResponse | scripts/content.js:122-135 | A truthy `error` wins over `answer`. A truthy `answer` is rendered as Markdown. Otherwise the line is "Invalid response format from AI". |
| ContentScript.SendFromPopup | scripts/content.js:93-148 | A blank question does nothing. A delivered reply adds the question and the shown reply. A failed delivery adds the question, the stuck indicator and the error line. |
| ContentScript.SendOnlyAppends | scripts/content.js:100-145 | A send appends two or three entries, starting with the question, and removes none. |
| ContentScript.QuickAskAnswerShown | scripts/content.js:117-132 | End to end with the worker: a first-call answer `text` is shown rendered. An empty `text` reads as an invalid response. |
| ContentScript.QuickAskErrorShown | scripts/content.js:122-124 | End to end with the worker: when every call fails, the worker's last error reaches the chat as the error line. |
| ContentScript.WorkerReportsLastError | scripts/background.js:40-43 | When all three calls fail, the worker's `chat` reply is `{error}` with the third call's message. |
| TagSettings.TrimEach | options/options.js:14 | Trimming keeps the number of pieces, and each piece becomes its own trimmed form. |
| TagSettings.DropEmpty | options/options.js:15 | Dropping empty pieces keeps the order and counts of the non-empty ones, and leaves no empty piece. |
| TagSettings.ParseTags | options/options.js:11-15 | Every saved tag is non-empty, upper-case, trimmed and comma-free. |
| TagSettings.SaveConfig | options/options.js:9-16 | Saving stores `showText: true` and the parsed tag list. |
| TagSettings.LoadField | options/options.js:2-5 | On load, the field shows the stored tags joined by `','`. It shows `''` when there is no config or no tag list. |
| TagSettings.ParseJoinedTags | options/options.js:4-15 | Valid tags joined by commas parse back to themselves. |
| TagSettings.LoadThenSaveKeepsTags | options/options.js:2-18 | Loading a saved list and saving it again stores the same configuration. |
| TagSettings.ParseTagsIdempotent | options/options.js:11-15 | Parsing what parsing produced, joined again, gives the same list. |
| TagSettings.SingleTag | options/options.js:11-15 | A field without commas whose text is not blank stores one tag: the text upper-cased and trimmed. |
| TagSettings.SavedTagsReachTooltip | options/options.js:9-16 | After a save, the tooltip uses exactly the saved tags, gains `showText: true`, and keeps its display switches. |

## Left out

- ContentScript.OnMouseUp and ContentScript.OnPopupClick: `getBoundingClientRect()`, `scrollX` and `scrollY` (scripts/content.js:60-63, 77-79) are floating-point numbers in the browser. `Rect` and `Popup` hold `int`s, because floating point is not modelled. The sums and offsets are the source's own formulas; fractional pixels and their `px` spelling are not modelled.
- The text of both `FINANCIAL_SYSTEM_PROMPT`s and of the frame that
  `formatFinancialContent` puts around the snapshot. These are opaque
  constant stand-ins: only their fixed position in the requests is modelled.
- `fetch`, HTTP status handling and JSON parsing of the endpoint's answers.
  Each call is an input `ApiResult`: completed, HTTP error, or network error.
- Every `chrome.*` call: runtime messaging, storage, tabs, scripting and the
  side panel. Their results are inputs. The worker's side-panel opening
  before `textSelected` is reduced to the forwarded text.
- `Date.now` and `setTimeout`. Time is a `nat` argument, and sleeps are
  returned as durations.
- `temperature`, `top_p` and `presence_penalty`. These are floating-point
  constants with no logic behind them.
- DOM construction, `innerHTML`, CSS, scrolling and tab switching.
  - The event wiring, including the Enter-key listeners that re-dispatch a
    click, and the second pair of listeners in the side panel.
  - The 300 ms hover delay and `mouseout`.
  - The page capture's summary HTML, including `slice(0, 10)` of the numbers.
  - The capture's `priceElements` and `tableData` DOM queries.
- Async interleavings. Each operation is modelled as one call at a time:
  overlapping sends, and a limiter pruned by two callers at once, are out.
- Unicode case mapping and `trim` beyond JavaScript's white-space set.
  `toUpperCase`/`toLowerCase` map ASCII letters only.
- The unused `numbers` pattern of the tooltip (`scripts/delete-tooltip.js:12`).
  Nothing reads it.
- A `response` of `undefined` in `handleChat`. The worker always replies
  with an object.
- ContentScript.UndefinedResponseError: the wording of the `TypeError` that
  reading `.error` of an `undefined` reply raises is V8's. Other engines
  word it differently.
- FinancialPatterns.PriceAt, FinancialPatterns.PercentAt and
  FinancialPatterns.MatchAt: their contracts state only where a match may
  end. What each pattern matches is stated by `CodedPriceAtMeansShape`,
  `DollarPriceIsLongest` and `PercentAtMeansShape`, and the leftmost search
  by `FirstMatchFrom`.
- Markdown.MatchAt: its contract states only that a match is non-empty and
  in bounds. What each pass matches is stated by the per-shape matchers
  (`ItemAt`, `EnclosedAt`, `NumberedAt`, `WrapAt`) and by the render lemmas.
- Markdown.RenderHeader, Markdown.RenderBold, Markdown.RenderBulletList and
  Markdown.RenderNumbered: these are stated for bodies without `#`, `*`,
  `-`, `<`, `.` and line terminators. Bodies holding markers of other passes
  interact pass by pass, and the general pass lemmas cover them.
- SidePanel.CapturePage: the message of the `TypeError` an unreadable
  result raises is an input, because its wording is the engine's.
- SidePanel.HandleChatAsWritten: its own contract states only the
  missing-container case. Its behaviour on failures is stated by
  `AsWrittenHidesEveryError`, and on success by `HandleChatAgreesOnSuccess`.

## Findings

| source | as written | input that shows it | evidently intended | confidence | as-written member | corrected member |
|---|---|---|---|---|---|---|
| scripts/sidepanel.js:51-62 | `waitForAvailability` records `now`, the call's arrival time, even when the call then sleeps until the oldest timestamp leaves the window. The defect is latent: the only instance (lines 65-66) is commented out, so no call goes through the limiter. | Limiter of 3 per 1000 ms. Three calls at `t`, then a fourth at `t` that sleeps until `t + 1000` but is recorded at `t`. Then three calls at `t + 1000` find the window empty and pass at once. The window `(t, t + 1000]` admits four calls. | Record the admission time, so at most `maxRequests` calls pass in any `timeWindow`. | not executed | RateLimiter.AsWrittenOverfillsWindow | RateLimiter.FixedNeverOverfills |
| scripts/sidepanel.js:406-462 | `loadingDiv` is declared with `const` inside the `try` block, but the `catch` block reads it. | Any failure, for example a reply `{success: false, error: "x"}`. The `catch` block throws `ReferenceError: loadingDiv is not defined`. No error line is shown, the promise rejects, and after a runtime error "AI is thinking..." stays. | Remove the indicator if present and show `"Error: " + message`. | not executed | SidePanel.AsWrittenHidesEveryError | SidePanel.HandleChat |
