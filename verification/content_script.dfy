/** The content script of scripts/content.js: the selection popup that
    follows the user's selection, the quick-ask chat popup opened from it,
    and `sendMessageWithRetry`, which carries a question to the service
    worker. Mouse positions, the selection and the worker's deliveries
    are inputs; the DOM is reduced to what the handlers decide. */
module ContentScript {
  import opened Wrappers
  import opened JsText
  import opened Retry
  import opened Messages
  import Markdown
  import Background

  // ---------------------------------------------------------------------------
  // sendMessageWithRetry
  // ---------------------------------------------------------------------------

  /** How one `chrome.runtime.sendMessage` attempt settled. */
  datatype Delivery =
    | RuntimeMissing                    // `chrome.runtime.sendMessage` is not there
    | LastError(message: string)        // the callback saw `chrome.runtime.lastError`
    | Responded(response: Option<Reply>) // the callback got a response (`None`: `undefined`)

  const RuntimeMissingMessage: string := "Chrome runtime not available"

  /** How the retry loop sees one attempt. */
  function DeliveryAttempt(d: Delivery): (a: Attempt<Option<Reply>>)
    ensures a.Ok? <==> d.Responded?
    ensures d.Responded? ==> a.value == d.response
    ensures d.RuntimeMissing? ==> a == Err(RuntimeMissingMessage)
    ensures d.LastError? ==> a == Err(d.message)
  {
    match d
    case RuntimeMissing => Err(RuntimeMissingMessage)
    case LastError(m) => Err(m)
    case Responded(r) => Ok(r)
  }

  function DeliveryAttempts(deliveries: nat -> Delivery): nat -> Attempt<Option<Reply>> {
    (j: nat) => DeliveryAttempt(deliveries(j))
  }

  /** `sendMessageWithRetry(message, context, maxRetries)`: the counted loop
      with a sleep of 1000 ms × (i + 1) after every failed attempt but the
      last. */
  function SendWithRetry(deliveries: nat -> Delivery, maxRetries: int): (r: Run<Option<Reply>>)
    ensures maxRetries <= 0 ==> r == Run(FellThrough, 0, [])
    ensures maxRetries > 0 ==> 1 <= r.attempts <= maxRetries && !r.outcome.FellThrough?
    ensures r.outcome.Returned? ==> deliveries(r.attempts - 1) == Responded(r.outcome.value)
    ensures forall j :: 0 <= j < r.attempts - 1 ==> !deliveries(j).Responded?
  {
    var attempts := DeliveryAttempts(deliveries);
    var run := Loop(attempts, maxRetries, MessagingBackoff);
    forall j | 0 <= j < run.attempts - 1 ensures !deliveries(j).Responded? {
      assert attempts(j) == DeliveryAttempt(deliveries(j));
    }
    run
  }

  /** A first delivery that brings a response ends the loop at once. */
  lemma FirstDeliveryAnswers(deliveries: nat -> Delivery)
    requires deliveries(0).Responded?
    ensures SendWithRetry(deliveries, 3) == Run(Returned(deliveries(0).response), 1, [])
  {
    RetryReturnsFirstSuccess(DeliveryAttempts(deliveries), 3, MessagingBackoff, 0);
  }

  /** A send whose first delivery brings a reply shows the question and
      that reply, and nothing else. */
  lemma FirstReplyShown(p: Page, input: string, deliveries: nat -> Delivery)
    requires Trim(input) != "" && deliveries(0).Responded?
    ensures SendFromPopup(p, input, deliveries).0.chat
            == p.chat + [UserText(Trim(input)), ShowResponse(deliveries(0).response)]
  {
    FirstDeliveryAnswers(deliveries);
  }

  /** The default three attempts: any failures before the first response are
      retried after 1000 ms, then 2000 ms. */
  lemma {:induction false} SendWaitsGrowLinearly(deliveries: nat -> Delivery)
    ensures var r := SendWithRetry(deliveries, 3);
            r.waits == seq(r.attempts - 1, k requires 0 <= k < r.attempts - 1 => 1000 * (k + 1))
  {
    var attempts := DeliveryAttempts(deliveries);
    var r := Loop(attempts, 3, MessagingBackoff);
    AlwaysWaitsAreLinear(attempts, 1000, 0, r.attempts - 1);
    assert seq(r.attempts - 1 - 0, k requires 0 <= k < r.attempts - 1 - 0 => 1000 * (0 + k + 1))
        == seq(r.attempts - 1, k requires 0 <= k < r.attempts - 1 => 1000 * (k + 1));
  }

  /** With the runtime gone, all three attempts fail, with sleeps of 1000 ms
      and 2000 ms between them, and the last error is rethrown. */
  lemma NoRuntimeGivesUp()
    ensures SendWithRetry((j: nat) => RuntimeMissing, 3) == Run(Threw(RuntimeMissingMessage), 3, [1000, 2000])
  {
  }

  // ---------------------------------------------------------------------------
  // The popups
  // ---------------------------------------------------------------------------

  /** A popup's `display` and position (`style.left`, `style.top`). */
  datatype Popup = Popup(visible: bool, left: int, top: int)

  /** What the quick-ask chat shows. */
  datatype ChatEntry =
    | SelectedContext(text: string) // "Selected text: ..."
    | UserText(text: string)
    | Thinking                      // "AI is thinking..."
    | AiAnswer(html: string)
    | ErrorNote(text: string)       // "Error: ... Please try again."

  /** The script's state: both popups, `selectedContext`, and the chat's
      messages. */
  datatype Page = Page(selectionPopup: Popup, chatPopup: Popup, selectedContext: string, chat: seq<ChatEntry>)

  /** The client rectangle of something on screen. */
  datatype Rect = Rect(left: int, top: int, bottom: int)

  /** Where the selection popup goes: 45 px above the selection, in page
      coordinates. */
  const PopupLift: int := 45

  /** The `mouseup` listener. `inPopups` says whether the event's target is
      inside either popup. */
  function OnMouseUp(p: Page, selection: string, inPopups: bool, range: Rect, scrollX: int, scrollY: int): (r: Page)
    ensures Trim(selection) != "" && !inPopups ==>
              r == p.(selectionPopup := Popup(true, range.left + scrollX, range.top + scrollY - PopupLift))
    ensures Trim(selection) == "" ==> r == p.(selectionPopup := p.selectionPopup.(visible := false))
    ensures Trim(selection) != "" && inPopups ==> r == p
    ensures r.selectionPopup.visible <==> Trim(selection) != "" && (!inPopups || p.selectionPopup.visible)
  {
    var t := Trim(selection);
    if t != "" && !inPopups then
      p.(selectionPopup := Popup(true, range.left + scrollX, range.top + scrollY - PopupLift))
    else if t == "" then
      p.(selectionPopup := p.selectionPopup.(visible := false))
    else p
  }

  /** The popup's `click` listener. `onChatIcon` says whether the click
      landed on the chat button: it opens the chat under the popup with the
      trimmed selection as context, replacing whatever the chat showed. */
  function OnPopupClick(p: Page, onChatIcon: bool, selection: string, popupRect: Rect): (r: Page)
    ensures !onChatIcon ==> r == p
    ensures onChatIcon ==> r.selectedContext == Trim(selection) && r.chat == [SelectedContext(Trim(selection))]
    ensures onChatIcon ==> r.chatPopup == Popup(true, popupRect.left, popupRect.bottom + 10)
    ensures r.selectionPopup == p.selectionPopup
  {
    if !onChatIcon then p
    else
      var context := Trim(selection);
      p.(selectedContext := context,
         chatPopup := Popup(true, popupRect.left, popupRect.bottom + 10),
         chat := [SelectedContext(context)])
  }

  /** The `mousedown` listener: a press outside both popups closes the chat,
      and the selection popup too when nothing is selected any more. */
  function OnMouseDown(p: Page, selection: string, inPopups: bool): (r: Page)
    ensures inPopups ==> r == p
    ensures !inPopups ==> !r.chatPopup.visible
    ensures !inPopups ==> (r.selectionPopup.visible <==> p.selectionPopup.visible && Trim(selection) != "")
    ensures r.selectedContext == p.selectedContext && r.chat == p.chat
    ensures r.chatPopup.(visible := p.chatPopup.visible) == p.chatPopup
    ensures r.selectionPopup.(visible := p.selectionPopup.visible) == p.selectionPopup
  {
    if inPopups then p
    else
      var closed := p.(chatPopup := p.chatPopup.(visible := false));
      if Trim(selection) == "" then closed.(selectionPopup := closed.selectionPopup.(visible := false))
      else closed
  }

  /** The close button: only the chat popup's `display` changes. */
  function OnClose(p: Page): (r: Page)
    ensures !r.chatPopup.visible
    ensures r.chatPopup.(visible := p.chatPopup.visible) == p.chatPopup
    ensures r.(chatPopup := p.chatPopup) == p
  {
    p.(chatPopup := p.chatPopup.(visible := false))
  }

  /** While text stays selected, a press outside both popups does what the
      close button does. */
  lemma PressOutsideIsClose(p: Page, selection: string)
    requires Trim(selection) != ""
    ensures OnMouseDown(p, selection, false) == OnClose(p)
  {
  }

  /** Closing an already closed chat changes nothing. */
  lemma CloseIdempotent(p: Page)
    ensures OnClose(OnClose(p)) == OnClose(p)
  {
  }

  // ---------------------------------------------------------------------------
  // Sending from the chat popup
  // ---------------------------------------------------------------------------

  const InvalidResponse: string := "Invalid response format from AI"
  const UnknownError: string := "An unknown error occurred"

  /** The message of the `TypeError` raised by reading `error` of an
      `undefined` response (V8's wording). */
  const UndefinedResponseError: string := "Cannot read properties of undefined (reading 'error')"

  /** The error line for an error with message `m`. */
  function ErrorNoteFor(m: string): (e: ChatEntry)
    ensures m != "" ==> e == ErrorNote("Error: " + m + ". Please try again.")
    ensures m == "" ==> e == ErrorNote("Error: " + UnknownError + ". Please try again.")
  {
    ErrorNote("Error: " + (if m != "" then m else UnknownError) + ". Please try again.")
  }

  /** How a response is shown once the indicator is gone: `error` takes
      precedence, then `answer` rendered from Markdown; a response with
      neither is an error. */
  function ShowResponse(response: Option<Reply>): (e: ChatEntry)
    ensures response.None? ==> e == ErrorNoteFor(UndefinedResponseError)
    ensures response.Some? && Truthy(response.value.error) ==> e == ErrorNoteFor(response.value.error.value)
    ensures response.Some? && !Truthy(response.value.error) && Truthy(response.value.answer) ==>
              e == AiAnswer(Markdown.Render(response.value.answer.value))
    ensures response.Some? && !Truthy(response.value.error) && !Truthy(response.value.answer) ==>
              e == ErrorNoteFor(InvalidResponse)
  {
    match response
    case None => ErrorNoteFor(UndefinedResponseError)
    case Some(r) =>
      if Truthy(r.error) then ErrorNoteFor(r.error.value)
      else if Truthy(r.answer) then AiAnswer(Markdown.Render(r.answer.value))
      else ErrorNoteFor(InvalidResponse)
  }

  /** The runtime message the send button hands to the service worker. */
  function ChatRequest(message: string, context: string): (req: Background.Request)
    ensures req.action == Str("chat") && req.prompt == Str(message) && req.context == Str(context)
  {
    Background.Request(Str("chat"), Undefined, Str(message), Str(context))
  }

  /** The send button with the text area holding `input`: a blank question
      does nothing; otherwise the question is shown, the indicator added,
      and the reply or the error shown after it. An error from the retry
      loop leaves the indicator in place. */
  function SendFromPopup(p: Page, input: string, deliveries: nat -> Delivery): (r: (Page, Option<Run<Option<Reply>>>))
    ensures Trim(input) == "" ==> r == (p, None)
    ensures Trim(input) != "" ==>
              var run := SendWithRetry(deliveries, 3);
              && r.1 == Some(run)
              && r.0 == p.(chat := r.0.chat)
              && (run.outcome.Returned? ==>
                    r.0.chat == p.chat + [UserText(Trim(input)), ShowResponse(run.outcome.value)])
              && (run.outcome.Threw? ==>
                    r.0.chat == p.chat + [UserText(Trim(input)), Thinking, ErrorNoteFor(run.outcome.message)])
  {
    var message := Trim(input);
    if message == "" then (p, None)
    else
      var run := SendWithRetry(deliveries, 3);
      var added :=
        if run.outcome.Returned? then [UserText(message), ShowResponse(run.outcome.value)]
        else [UserText(message), Thinking, ErrorNoteFor(run.outcome.message)];
      (p.(chat := p.chat + added), Some(run))
  }

  /** A send adds two entries, or three when delivery failed; it never
      removes any. */
  lemma SendOnlyAppends(p: Page, input: string, deliveries: nat -> Delivery)
    requires Trim(input) != ""
    ensures var c := SendFromPopup(p, input, deliveries).0.chat;
            && |p.chat| + 2 <= |c| <= |p.chat| + 3
            && c[..|p.chat|] == p.chat
            && c[|p.chat|] == UserText(Trim(input))
  {
  }

  /** End to end with the worker: when the first delivery carries the
      worker's reply to this question and the endpoint answers `text` at
      once, the chat shows `text` rendered, unless `text` is empty, which
      reads as no answer at all. */
  lemma QuickAskAnswerShown(p: Page, input: string, calls: nat -> ApiResult, deliveries: nat -> Delivery)
    requires Trim(input) != "" && calls(0).Completed?
    requires var h := Background.Dispatch(ChatRequest(Trim(input), p.selectedContext), calls);
             deliveries(0) == Responded(Some(h.effect.reply))
    ensures var text := calls(0).content;
            var c := SendFromPopup(p, input, deliveries).0.chat;
            && (text != "" ==> c == p.chat + [UserText(Trim(input)), AiAnswer(Markdown.Render(text))])
            && (text == "" ==> c == p.chat + [UserText(Trim(input)), ErrorNoteFor(InvalidResponse)])
  {
    var reply := Reply(None, Some(calls(0).content), None, None);
    assert deliveries(0) == Responded(Some(reply)) by {
      RetryReturnsFirstSuccess(Attempts(calls), Background.Retries, ApiBackoff, 0);
    }
    FirstDeliveryAnswers(deliveries);
  }

  /** End to end with the worker: when every call to the endpoint fails, the
      worker's `error` reaches the chat as an error line, ahead of any
      answer; an empty error message reads as no answer at all. */
  lemma QuickAskErrorShown(p: Page, input: string, calls: nat -> ApiResult, deliveries: nat -> Delivery)
    requires Trim(input) != ""
    requires !calls(0).Completed? && !calls(1).Completed? && !calls(2).Completed?
    requires var h := Background.Dispatch(ChatRequest(Trim(input), p.selectedContext), calls);
             deliveries(0) == Responded(Some(h.effect.reply))
    ensures var m := ApiErrorMessage(calls(2));
            var c := SendFromPopup(p, input, deliveries).0.chat;
            && (m != "" ==> c == p.chat + [UserText(Trim(input)), ErrorNoteFor(m)])
            && (m == "" ==> c == p.chat + [UserText(Trim(input)), ErrorNoteFor(InvalidResponse)])
  {
    ErrorReplyDelivered(ChatRequest(Trim(input), p.selectedContext), calls, deliveries);
    FirstReplyShown(p, input, deliveries);
    ErrorReplyShown(ApiErrorMessage(calls(2)));
  }

  /** The reply the popup receives when the worker's attempts all fail. */
  lemma ErrorReplyDelivered(req: Background.Request, calls: nat -> ApiResult, deliveries: nat -> Delivery)
    requires req.action == Str("chat")
    requires !calls(0).Completed? && !calls(1).Completed? && !calls(2).Completed?
    requires deliveries(0) == Responded(Some(Background.Dispatch(req, calls).effect.reply))
    ensures deliveries(0) == Responded(Some(Reply(None, None, Some(ApiErrorMessage(calls(2))), None)))
  {
    WorkerReportsLastError(req, calls);
  }

  /** How a reply carrying only `error: m` shows. */
  lemma ErrorReplyShown(m: string)
    ensures m != "" ==> ShowResponse(Some(Reply(None, None, Some(m), None))) == ErrorNoteFor(m)
    ensures m == "" ==> ShowResponse(Some(Reply(None, None, Some(m), None))) == ErrorNoteFor(InvalidResponse)
  {
  }

  /** The worker's reply to a `chat` message when all its attempts fail. */
  lemma WorkerReportsLastError(req: Background.Request, calls: nat -> ApiResult)
    requires req.action == Str("chat")
    requires !calls(0).Completed? && !calls(1).Completed? && !calls(2).Completed?
    ensures Background.Dispatch(req, calls).effect == Background.Respond(Reply(None, None, Some(ApiErrorMessage(calls(2))), None))
  {
    var attempts := Attempts(calls);
    forall j | 0 <= j < 3 ensures attempts(j).Err? {
      assert attempts(j) == ToAttempt(calls(j));
    }
    RetryRethrowsLastError(attempts, Background.Retries, ApiBackoff);
    assert attempts(2) == ToAttempt(calls(2));
  }
}
