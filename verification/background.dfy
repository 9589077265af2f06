/** The service worker of scripts/background.js: how it answers runtime
    messages, and the completion request its `callOpenAI` sends. The
    endpoint's answers are an input, one per attempt. */
module Background {
  import opened Wrappers
  import opened JsText
  import opened Retry
  import opened Messages

  /** The worker's `FINANCIAL_SYSTEM_PROMPT`; its wording is not modelled,
      only that it is one fixed string. */
  const SystemPrompt: string := "<background financial system prompt>"

  /** `QUICK_ASK_TOKEN_LIMIT`. */
  const QuickAskTokenLimit: nat := 150

  /** `max_tokens` outside quick-ask mode. */
  const DefaultTokenLimit: nat := 800

  /** Appended to the system prompt in quick-ask mode. */
  const BriefSuffix: string := "\nProvide very brief, concise responses."

  /** Put in front of the prompt of a `chat` message. */
  const BriefPromptPrefix: string := "Please provide a brief and concise response in 2-3 sentences: "

  const ContextLabel: string := "Context: "
  const QuestionLabel: string := "\n\nQuestion: "

  /** `callOpenAI`'s default number of attempts, which both callers use. */
  const Retries: nat := 3

  /** The request every attempt of `callOpenAI(message, context, _, isQuickAsk)`
      sends: a system turn and one user turn, no history. */
  function BuildRequest(message: string, context: string, quickAsk: bool): (r: CompletionRequest)
    ensures |r.messages| == 2
    ensures r.messages[0].role == System && r.messages[1].role == User
    ensures r.messages[0].content == SystemPrompt + (if quickAsk then BriefSuffix else "")
    ensures r.messages[1].content == ContextLabel + context + QuestionLabel + message
    ensures r.maxTokens == (if quickAsk then QuickAskTokenLimit else DefaultTokenLimit)
  {
    CompletionRequest(
      [ChatMessage(System, if quickAsk then SystemPrompt + BriefSuffix else SystemPrompt),
       ChatMessage(User, ContextLabel + context + QuestionLabel + message)],
      if quickAsk then QuickAskTokenLimit else DefaultTokenLimit)
  }

  /** The question is the tail of the user turn and the context sits between
      the two labels, so for a known context length both can be read back. */
  lemma UserTurnRecoversInputs(message: string, context: string, quickAsk: bool)
    ensures var u := BuildRequest(message, context, quickAsk).messages[1].content;
            var a := |ContextLabel|;
            && u[a..a + |context|] == context
            && u[a + |context|..a + |context| + |QuestionLabel|] == QuestionLabel
            && u[|u| - |message|..] == message
  {
  }

  /** Quick-ask mode changes only the system turn's suffix and the token
      budget: the user turn is the same, and the budget is smaller. */
  lemma QuickAskOnlyShortens(message: string, context: string)
    ensures var quick := BuildRequest(message, context, true);
            var full := BuildRequest(message, context, false);
            && quick.messages[1] == full.messages[1]
            && quick.messages[0].content == full.messages[0].content + BriefSuffix
            && quick.maxTokens < full.maxTokens
  {
  }

  /** Two different questions with the same context give different requests. */
  lemma BuildRequestSeparatesQuestions(m1: string, m2: string, context: string, quickAsk: bool)
    requires m1 != m2
    ensures BuildRequest(m1, context, quickAsk) != BuildRequest(m2, context, quickAsk)
  {
    var u1 := BuildRequest(m1, context, quickAsk).messages[1].content;
    var u2 := BuildRequest(m2, context, quickAsk).messages[1].content;
    var p := ContextLabel + context + QuestionLabel;
    assert u1 == p + m1 && u2 == p + m2;
    assert u1[|p|..] == m1 && u2[|p|..] == m2;
  }

  /** An incoming runtime message; only these properties are read. */
  datatype Request = Request(action: JsString, text: JsString, prompt: JsString, context: JsString)

  /** What the listener does besides its return value. */
  datatype Effect =
    | ForwardSelection(text: JsString)  // open the side panel, then send `{action: "textSelected", text}`
    | Respond(reply: Reply)             // call `sendResponse(reply)` once `callOpenAI` settles
    | Ignore                            // an action the listener does not know

  /** One delivery to the listener: whether it returned `true` (keeping the
      reply channel open), the completion request its attempts send, the
      retry loop's run, and its effect. */
  datatype Handled = Handled(keepChannelOpen: bool, apiRequest: Option<CompletionRequest>, run: Option<Run<string>>, effect: Effect)

  /** The reply to a `chat` message once `callOpenAI` settled. */
  function ChatReply(outcome: Outcome<string>): (r: Reply)
    ensures r.success.None? && r.formattedAnswer.None?
    ensures outcome.Returned? ==> r.answer == Some(outcome.value) && r.error.None?
    ensures outcome.Threw? ==> r.error == Some(outcome.message) && r.answer.None?
    ensures outcome.FellThrough? ==> r.answer.None? && r.error.None?
  {
    match outcome
    case Returned(v) => Reply(None, Some(v), None, None)
    case Threw(m) => Reply(None, None, Some(m), None)
    case FellThrough => Reply(None, None, None, None)
  }

  /** The reply to a `sidebarChat` message once `callOpenAI` settled: it
      carries `answer`, never `formattedAnswer`. */
  function SidebarReply(outcome: Outcome<string>): (r: Reply)
    ensures r.formattedAnswer.None?
    ensures outcome.Returned? ==> r.success == Some(true) && r.answer == Some(outcome.value) && r.error.None?
    ensures outcome.Threw? ==> r.success == Some(false) && r.error == Some(outcome.message) && r.answer.None?
    ensures outcome.FellThrough? ==> r.success == Some(true) && r.answer.None? && r.error.None?
  {
    match outcome
    case Returned(v) => Reply(Some(true), Some(v), None, None)
    case Threw(m) => Reply(Some(false), None, Some(m), None)
    case FellThrough => Reply(Some(true), None, None, None)
  }

  /** The `chrome.runtime.onMessage` listener, given what each call to the
      endpoint yields. */
  function Dispatch(req: Request, calls: nat -> ApiResult): (h: Handled)
    ensures h.keepChannelOpen <==> req.action == Str("chat") || req.action == Str("sidebarChat")
    ensures req.action == Str("analyzeText") ==> h == Handled(false, None, None, ForwardSelection(req.text))
    ensures h.apiRequest.Some? <==> h.keepChannelOpen
    ensures req.action == Str("chat") ==>
              && h.apiRequest == Some(BuildRequest(BriefPromptPrefix + Interpolate(req.prompt), OrDefaultEmpty(req.context), true))
              && h.run == Some(Loop(Attempts(calls), Retries, ApiBackoff))
              && h.effect == Respond(ChatReply(h.run.value.outcome))
    ensures req.action == Str("sidebarChat") ==>
              && h.apiRequest == Some(BuildRequest(Interpolate(req.prompt), OrDefaultEmpty(req.context), false))
              && h.run == Some(Loop(Attempts(calls), Retries, ApiBackoff))
              && h.effect == Respond(SidebarReply(h.run.value.outcome))
    ensures h.effect.Respond? ==> h.keepChannelOpen
    ensures req.action !in {Str("analyzeText"), Str("chat"), Str("sidebarChat")} ==> h == Handled(false, None, None, Ignore)
  {
    if req.action == Str("analyzeText") then
      Handled(false, None, None, ForwardSelection(req.text))
    else if req.action == Str("chat") then
      var run := Loop(Attempts(calls), Retries, ApiBackoff);
      Handled(true, Some(BuildRequest(BriefPromptPrefix + Interpolate(req.prompt), OrDefaultEmpty(req.context), true)),
              Some(run), Respond(ChatReply(run.outcome)))
    else if req.action == Str("sidebarChat") then
      var run := Loop(Attempts(calls), Retries, ApiBackoff);
      Handled(true, Some(BuildRequest(Interpolate(req.prompt), OrDefaultEmpty(req.context), false)),
              Some(run), Respond(SidebarReply(run.outcome)))
    else
      Handled(false, None, None, Ignore)
  }

  /** With three attempts the loop never falls through: a `chat` reply
      carries exactly one of `answer` and `error`, and a `sidebarChat` reply
      is a success with an answer or a failure with an error. */
  lemma RepliesAreDecided(req: Request, calls: nat -> ApiResult)
    ensures var h := Dispatch(req, calls);
            h.effect.Respond? ==>
              var r := h.effect.reply;
              && (r.answer.Some? <==> r.error.None?)
              && (r.success.Some? ==> (r.success.value <==> r.answer.Some?))
  {
  }

  /** A `sidebarChat` reply never carries `formattedAnswer`, whatever the
      endpoint does. */
  lemma SidebarNeverFormats(req: Request, calls: nat -> ApiResult)
    requires req.action == Str("sidebarChat")
    ensures Dispatch(req, calls).effect.Respond?
    ensures Dispatch(req, calls).effect.reply.formattedAnswer.None?
  {
  }

  /** The endpoint answering at the first call: a `chat` message without a
      context gets that answer after one attempt and no sleep, and asked the
      wrapped prompt after an empty context. */
  lemma ChatFirstCallAnswers(prompt: string, calls: nat -> ApiResult)
    requires calls(0).Completed?
    ensures var h := Dispatch(Request(Str("chat"), Undefined, Str(prompt), Undefined), calls);
            && h.run == Some(Run(Returned(calls(0).content), 1, []))
            && h.effect == Respond(Reply(None, Some(calls(0).content), None, None))
            && h.apiRequest.value.messages[1].content
               == ContextLabel + QuestionLabel + BriefPromptPrefix + prompt
  {
    RetryReturnsFirstSuccess(Attempts(calls), Retries, ApiBackoff, 0);
    assert ContextLabel + "" + QuestionLabel + (BriefPromptPrefix + prompt)
        == ContextLabel + QuestionLabel + BriefPromptPrefix + prompt;
  }
}
