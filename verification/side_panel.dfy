/** The side panel of scripts/sidepanel.js: the conversation session its
    chat keeps (page snapshot, first-turn flag, history), the request its
    own `callOpenAI` sends, reset and page capture, and `handleChat`, which
    forwards a question to the service worker. The endpoint's answers, the
    captured page and the worker's replies are inputs. */
module SidePanel {
  import opened Wrappers
  import opened JsText
  import opened Retry
  import opened Messages
  import Background

  /** The panel's own `FINANCIAL_SYSTEM_PROMPT` (longer than the worker's);
      its wording is not modelled, only that it is one fixed string. */
  const SystemPrompt: string := "<side-panel financial system prompt>"

  /** `max_tokens` of the panel's requests. */
  const TokenLimit: nat := 800

  /** `callOpenAI`'s default number of attempts, which `sendMessage` uses. */
  const Retries: nat := 3

  /** The text around the page snapshot in `formatFinancialContent`; the
      wording is not modelled. */
  const ContextHeader: string := "<financial context header>"
  const ContextFooter: string := "<analysis request footer>"

  const QuestionMarker: string := "\nUser question: "
  const ErrorPrefix: string := "Error analyzing financial data: "
  const ResetNotice: string := "Conversation has been reset. You can start a new conversation with the webpage content."

  /** `formatFinancialContent(content)`: the snapshot inside a fixed frame. */
  function FormatFinancialContent(content: string): (r: string)
    ensures |r| == |ContextHeader| + |content| + |ContextFooter|
    ensures r[|ContextHeader|..|ContextHeader| + |content|] == content
  {
    ContextHeader + content + ContextFooter
  }

  /** The module-level state the chat shares: `isFirstMessage`,
      `pageContent` (the JSON of the last captured page, `null` before),
      `conversationHistory`, and `selectedText`. */
  datatype Session = Session(
    isFirstMessage: bool,
    pageContent: Option<string>,
    history: seq<ChatMessage>,
    selectedText: JsString)

  const InitialSession: Session := Session(true, None, [], Str(""))

  /** A history is a run of (question, answer) pairs. */
  ghost predicate WellFormedHistory(h: seq<ChatMessage>) {
    && |h| % 2 == 0
    && forall k :: 0 <= k < |h| ==> h[k].role == (if k % 2 == 0 then User else Assistant)
  }

  /** A message bubble `appendMessage(role, content)` adds to the chat. */
  datatype Bubble = Bubble(role: Role, text: string)

  /** The request every attempt of `callOpenAI(message)` sends: the system
      prompt, the whole history in order, then the new user turn. */
  function PanelRequest(history: seq<ChatMessage>, message: string): (r: CompletionRequest)
    ensures |r.messages| == |history| + 2
    ensures r.messages[0] == ChatMessage(System, SystemPrompt)
    ensures r.messages[1..|history| + 1] == history
    ensures r.messages[|history| + 1] == ChatMessage(User, message)
    ensures r.maxTokens == TokenLimit
  {
    CompletionRequest([ChatMessage(System, SystemPrompt)] + history + [ChatMessage(User, message)], TokenLimit)
  }

  /** Whether this question is the one that carries the page snapshot. */
  predicate CarriesSnapshot(s: Session) {
    s.isFirstMessage && Truthy(s.pageContent)
  }

  /** What `sendMessage` sends for the trimmed question `message`. */
  function ContextFor(s: Session, message: string): (context: string)
    ensures CarriesSnapshot(s) ==>
              context == FormatFinancialContent(s.pageContent.value) + QuestionMarker + message
    ensures !CarriesSnapshot(s) ==> context == message
  {
    if CarriesSnapshot(s) then FormatFinancialContent(s.pageContent.value) + QuestionMarker + message
    else message
  }

  /** The outcome of one `sendMessage`: the new session, the request its
      attempts sent, the retry loop's run, and the bubbles it added. */
  datatype SendResult = SendResult(session: Session, request: Option<CompletionRequest>, run: Option<Run<string>>, shown: seq<Bubble>)

  /** `sendMessage()` with the input box holding `input`, given what each
      call to the endpoint yields. */
  function SendMessage(s: Session, input: string, calls: nat -> ApiResult): (r: SendResult)
    ensures Trim(input) == "" ==> r == SendResult(s, None, None, [])
    ensures Trim(input) != "" ==>
              var message := Trim(input);
              && r.request == Some(PanelRequest(s.history, ContextFor(s, message)))
              && r.run == Some(Loop(Attempts(calls), Retries, ApiBackoff))
              && r.session.pageContent == s.pageContent
              && r.session.selectedText == s.selectedText
              && (r.session.isFirstMessage <==> s.isFirstMessage && !CarriesSnapshot(s))
              && |r.shown| == 2 && r.shown[0] == Bubble(User, message)
              && (r.run.value.outcome.Returned? ==>
                    && r.session.history == s.history + [ChatMessage(User, message), ChatMessage(Assistant, r.run.value.outcome.value)]
                    && r.shown[1] == Bubble(Assistant, r.run.value.outcome.value))
              && (!r.run.value.outcome.Returned? ==>
                    && r.run.value.outcome.Threw?
                    && r.session.history == s.history
                    && r.shown[1] == Bubble(Assistant, ErrorPrefix + r.run.value.outcome.message))
  {
    var message := Trim(input);
    if message == "" then SendResult(s, None, None, [])
    else
      var context := ContextFor(s, message);
      // the flag is cleared before the call, so an error leaves it cleared
      var flagged := s.(isFirstMessage := s.isFirstMessage && !CarriesSnapshot(s));
      var run := Loop(Attempts(calls), Retries, ApiBackoff);
      var request := PanelRequest(s.history, context);
      if run.outcome.Returned? then
        var answer := run.outcome.value;
        SendResult(flagged.(history := s.history + [ChatMessage(User, message), ChatMessage(Assistant, answer)]),
                   Some(request), Some(run), [Bubble(User, message), Bubble(Assistant, answer)])
      else
        SendResult(flagged, Some(request), Some(run), [Bubble(User, message), Bubble(Assistant, ErrorPrefix + run.outcome.message)])
  }

  /** `resetConversation()`: a fresh conversation about the same snapshot;
      the chat is cleared down to the reset notice. */
  function Reset(s: Session): (r: (Session, seq<Bubble>))
    ensures r.0.isFirstMessage && r.0.history == []
    ensures r.0.pageContent == s.pageContent && r.0.selectedText == s.selectedText
    ensures r.1 == [Bubble(Assistant, ResetNotice)]
  {
    (s.(isFirstMessage := true, history := []), [Bubble(Assistant, ResetNotice)])
  }

  /** Resetting twice is resetting once. */
  lemma ResetIdempotent(s: Session)
    ensures Reset(Reset(s).0) == Reset(s)
  {
  }

  /** How capturing the active page ended. */
  datatype Capture =
    | NoActiveTab                // `chrome.tabs.query` found no tab
    | NoResults                  // the injected script returned nothing
    | Failed(message: string)    // a browser call rejected
    | Captured(pageJson: string) // `JSON.stringify(pageData, null, 2)`
      /** The script's result was not a page object (`null` or `undefined`
          when the injected function threw): `pageContent` is assigned
          `JSON.stringify` of it (`"null"`, or `undefined`) before reading
          `pageData.url` throws a `TypeError` with `message`. */
    | Unreadable(stored: Option<string>, message: string)

  const CaptureDone: string := "Financial data analysis complete!"
  const CaptureFailed: string := "Error in financial analysis!"

  /** The grab button's handler: a captured page replaces the snapshot and
      starts a fresh conversation. A failure before the snapshot is stored
      changes no state; an unreadable result has already replaced the
      snapshot when it fails, but keeps the conversation. Every failure
      reports the error's message. Returns the session, the status line,
      and the error shown, if any. */
  function CapturePage(s: Session, c: Capture): (r: (Session, string, Option<string>))
    ensures c.Captured? ==> r == (Session(true, Some(c.pageJson), [], s.selectedText), CaptureDone, None)
    ensures !c.Captured? ==> r.1 == CaptureFailed && r.2.Some?
    ensures c.NoActiveTab? || c.NoResults? || c.Failed? ==> r.0 == s
    ensures c.NoActiveTab? ==> r.2 == Some("No active tab found")
    ensures c.NoResults? ==> r.2 == Some("No financial data retrieved")
    ensures c.Failed? ==> r.2 == Some(c.message)
    ensures c.Unreadable? ==> r.0 == s.(pageContent := c.stored) && r.2 == Some(c.message)
  {
    match c
    case Captured(json) => (Session(true, Some(json), [], s.selectedText), CaptureDone, None)
    case NoActiveTab => (s, CaptureFailed, Some("No active tab found"))
    case NoResults => (s, CaptureFailed, Some("No financial data retrieved"))
    case Failed(m) => (s, CaptureFailed, Some(m))
    case Unreadable(json, m) => (s.(pageContent := json), CaptureFailed, Some(m))
  }

  /** A capture whose script result was `null` fails, yet leaves the text
      `"null"` as the snapshot: when no question has been sent since the
      last reset, the next question carries `"null"` in the frame. */
  lemma NullCaptureStillSent(s: Session, m: string, input: string, calls: nat -> ApiResult)
    requires s.isFirstMessage && Trim(input) != ""
    ensures var s1 := CapturePage(s, Unreadable(Some("null"), m)).0;
            SendMessage(s1, input, calls).request
            == Some(PanelRequest(s.history, FormatFinancialContent("null") + QuestionMarker + Trim(input)))
  {
  }

  /** The panel's `onMessage` listener: a `textSelected` message replaces
      `selectedText` (even with `undefined`); others change nothing. */
  function OnRuntimeMessage(s: Session, action: JsString, text: JsString): (r: Session)
    ensures action == Str("textSelected") ==> r == s.(selectedText := text)
    ensures action != Str("textSelected") ==> r == s
  {
    if action == Str("textSelected") then s.(selectedText := text) else s
  }

  /** Appending one question and its answer keeps a history well formed. */
  lemma {:induction false} AppendPairKeepsWellFormed(h: seq<ChatMessage>, question: string, answer: string)
    requires WellFormedHistory(h)
    ensures WellFormedHistory(h + [ChatMessage(User, question), ChatMessage(Assistant, answer)])
  {
    var h' := h + [ChatMessage(User, question), ChatMessage(Assistant, answer)];
    forall k | 0 <= k < |h'| ensures h'[k].role == (if k % 2 == 0 then User else Assistant) {
      if k < |h| {
        assert h'[k] == h[k];
      }
    }
  }

  /** Every operation keeps the history a run of question-answer pairs. */
  lemma {:induction false} OperationsKeepHistoryWellFormed(s: Session, input: string, calls: nat -> ApiResult, c: Capture, action: JsString, text: JsString)
    requires WellFormedHistory(s.history)
    ensures WellFormedHistory(SendMessage(s, input, calls).session.history)
    ensures WellFormedHistory(Reset(s).0.history)
    ensures WellFormedHistory(CapturePage(s, c).0.history)
    ensures WellFormedHistory(OnRuntimeMessage(s, action, text).history)
  {
    SendKeepsHistoryWellFormed(s, input, calls);
  }

  /** A send adds a whole pair or nothing. */
  lemma SendKeepsHistoryWellFormed(s: Session, input: string, calls: nat -> ApiResult)
    requires WellFormedHistory(s.history)
    ensures WellFormedHistory(SendMessage(s, input, calls).session.history)
  {
    var r := SendMessage(s, input, calls);
    if Trim(input) != "" && r.run.value.outcome.Returned? {
      AppendPairKeepsWellFormed(s.history, Trim(input), r.run.value.outcome.value);
    }
  }

  /** The snapshot rides along with exactly one question: after a send that
      carried it, later sends carry only the bare question, until a reset
      or a new capture. */
  lemma SnapshotSentOnce(s: Session, input1: string, input2: string, calls1: nat -> ApiResult, calls2: nat -> ApiResult)
    requires CarriesSnapshot(s) && Trim(input1) != "" && Trim(input2) != ""
    ensures var r1 := SendMessage(s, input1, calls1);
            var r2 := SendMessage(r1.session, input2, calls2);
            && r1.request.value.messages[|s.history| + 1].content
               == FormatFinancialContent(s.pageContent.value) + QuestionMarker + Trim(input1)
            && r2.request.value.messages[|r1.session.history| + 1].content == Trim(input2)
  {
  }

  /** A capture followed by a question sends the new snapshot with it, and
      no earlier history. */
  lemma CaptureThenAsk(s: Session, json: string, input: string, calls: nat -> ApiResult)
    requires json != "" && Trim(input) != ""
    ensures var s1 := CapturePage(s, Captured(json)).0;
            SendMessage(s1, input, calls).request
            == Some(PanelRequest([], FormatFinancialContent(json) + QuestionMarker + Trim(input)))
  {
  }

  // ---------------------------------------------------------------------------
  // handleChat: questions forwarded to the service worker
  // ---------------------------------------------------------------------------

  /** What `handleChat` puts in the messages container. */
  datatype PanelEntry =
    | UserLine(text: string)  // the question
    | Thinking                // "AI is thinking..."
    | AiHtml(html: string)    // `response.formattedAnswer`, as HTML
    | ErrorLine(text: string) // "Error: " + the error's message

  /** How the `chrome.runtime.sendMessage` callback fired. */
  datatype Delivery = RuntimeError(message: string) | Delivered(reply: Reply)

  /** `handleChat`'s effect: the entries left in the container, and the
      error the returned promise rejects with, if any. */
  datatype ChatResult = ChatResult(entries: seq<PanelEntry>, rejection: Option<string>)

  const UnknownError: string := "Unknown error occurred"
  const NoFormattedAnswer: string := "No formatted answer in response"

  /** The message of the `ReferenceError` thrown by reading `loadingDiv`
      outside the block that declares it. */
  const LoadingDivReferenceError: string := "loadingDiv is not defined"

  /** The runtime message `handleChat(userMessage)` sends to the worker:
      `selectedText || ''` as the context. */
  function SidebarRequest(s: Session, userMessage: string): (r: Background.Request)
    ensures r.action == Str("sidebarChat") && r.prompt == Str(userMessage)
    ensures r.context == Str(OrDefaultEmpty(s.selectedText))
  {
    Background.Request(Str("sidebarChat"), Undefined, Str(userMessage), Str(OrDefaultEmpty(s.selectedText)))
  }

  /** The message of the error `handleChat`'s `try` block throws, or `None`
      when it shows an answer: delivery errors first, then a reply without
      a truthy `success`, then a reply without a truthy `formattedAnswer`. */
  function ChatFailure(d: Delivery): (e: Option<string>)
    ensures d.RuntimeError? ==> e == Some(d.message)
    ensures d.Delivered? && d.reply.success != Some(true) ==> e == Some(OrElse(d.reply.error, UnknownError))
    ensures d.Delivered? && d.reply.success == Some(true) ==>
              (e.None? <==> Truthy(d.reply.formattedAnswer))
    ensures d.Delivered? && d.reply.success == Some(true) && e.Some? ==> e == Some(NoFormattedAnswer)
  {
    match d
    case RuntimeError(m) => Some(m)
    case Delivered(r) =>
      if r.success != Some(true) then Some(OrElse(r.error, UnknownError))
      else if Truthy(r.formattedAnswer) then None
      else Some(NoFormattedAnswer)
  }

  /** `handleChat` as written. Its `catch` block reads `loadingDiv`, which
      is declared inside the `try` block, so every failure turns into a
      `ReferenceError` before the error line is added. */
  function HandleChatAsWritten(hasContainer: bool, userMessage: string, d: Delivery): (r: ChatResult)
    ensures !hasContainer ==> r == ChatResult([], None)
  {
    if !hasContainer then ChatResult([], None)
    else
      var failure := ChatFailure(d);
      // the indicator is removed once the callback has fired
      var entries := if d.RuntimeError? then [UserLine(userMessage), Thinking] else [UserLine(userMessage)];
      if failure.Some? then ChatResult(entries, Some(LoadingDivReferenceError))
      else ChatResult(entries + [AiHtml(d.reply.formattedAnswer.value)], None)
  }

  /** `handleChat` as evidently intended: the `catch` block removes the
      indicator if it is still there and shows the error's message. */
  function HandleChat(hasContainer: bool, userMessage: string, d: Delivery): (r: ChatResult)
    ensures !hasContainer ==> r == ChatResult([], None)
    ensures hasContainer ==> r.rejection.None? && |r.entries| == 2 && r.entries[0] == UserLine(userMessage)
    ensures hasContainer ==> Thinking !in r.entries
    ensures hasContainer && ChatFailure(d).Some? ==> r.entries[1] == ErrorLine("Error: " + ChatFailure(d).value)
    ensures hasContainer && ChatFailure(d).None? ==> r.entries[1] == AiHtml(d.reply.formattedAnswer.value)
  {
    if !hasContainer then ChatResult([], None)
    else
      match ChatFailure(d)
      case Some(m) => ChatResult([UserLine(userMessage), ErrorLine("Error: " + m)], None)
      case None => ChatResult([UserLine(userMessage), AiHtml(d.reply.formattedAnswer.value)], None)
  }

  /** As written, `handleChat` never shows an error: on every failure the
      user sees no error line and the promise rejects with a
      `ReferenceError`; a delivery error even leaves "AI is thinking..." up. */
  lemma AsWrittenHidesEveryError(userMessage: string, d: Delivery)
    ensures var r := HandleChatAsWritten(true, userMessage, d);
            && (forall k :: 0 <= k < |r.entries| ==> !r.entries[k].ErrorLine?)
            && (r.rejection.Some? <==> ChatFailure(d).Some?)
            && (ChatFailure(d).Some? ==> r.rejection == Some(LoadingDivReferenceError))
            && (d.RuntimeError? ==> Thinking in r.entries)
  {
  }

  /** Both versions agree whenever the worker's reply is shown. */
  lemma HandleChatAgreesOnSuccess(hasContainer: bool, userMessage: string, d: Delivery)
    requires ChatFailure(d).None?
    ensures HandleChatAsWritten(hasContainer, userMessage, d) == HandleChat(hasContainer, userMessage, d)
  {
  }

  /** End to end with the worker: a side-panel question never shows an
      answer. The worker replies with `answer` but the panel demands
      `formattedAnswer`, so even when the endpoint answers at once the
      intended `handleChat` shows "No formatted answer in response", and the
      as-written one shows nothing and rejects. */
  lemma SidebarAnswerNeverShown(s: Session, userMessage: string, calls: nat -> ApiResult)
    ensures var h := Background.Dispatch(SidebarRequest(s, userMessage), calls);
            var d := Delivered(h.effect.reply);
            && h.effect.Respond?
            && ChatFailure(d).Some?
            && (h.run.value.outcome.Returned? ==>
                  && HandleChat(true, userMessage, d).entries == [UserLine(userMessage), ErrorLine("Error: " + NoFormattedAnswer)]
                  && HandleChatAsWritten(true, userMessage, d) == ChatResult([UserLine(userMessage)], Some(LoadingDivReferenceError)))
  {
  }
}
