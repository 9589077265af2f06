/** The shapes the extension's scripts exchange: chat-completion requests
    sent to the model endpoint, runtime messages between the scripts, and
    the replies to them, with the JavaScript conversions applied to their
    fields. */
module Messages {
  import opened Wrappers
  import opened Retry

  datatype Role = System | User | Assistant

  /** One entry of a chat-completion request: `{ role, content }`. */
  datatype ChatMessage = ChatMessage(role: Role, content: string)

  /** The parts of a chat-completion request body that the scripts compute:
      the messages and `max_tokens`. */
  datatype CompletionRequest = CompletionRequest(messages: seq<ChatMessage>, maxTokens: nat)

  /** A string property of a runtime message, which the sender may leave out. */
  datatype JsString = Undefined | Str(s: string)

  /** A string property read where a missing one stands as `absent`. */
  function StringOr(v: JsString, absent: string): (r: string)
    ensures v.Str? ==> r == v.s
    ensures v.Undefined? ==> r == absent
  {
    match v
    case Undefined => absent
    case Str(s) => s
  }

  /** `${v}` in a template literal: a missing property reads `undefined`. */
  function Interpolate(v: JsString): string {
    StringOr(v, "undefined")
  }

  /** A parameter with default `''`: the default replaces only `undefined`. */
  function OrDefaultEmpty(v: JsString): string {
    StringOr(v, "")
  }

  /** JavaScript truthiness of a string property. */
  predicate Truthy(v: Option<string>) {
    v.Some? && v.value != ""
  }

  /** `v || fallback` for a string property. */
  function OrElse(v: Option<string>, fallback: string): (r: string)
    ensures Truthy(v) ==> r == v.value
    ensures !Truthy(v) ==> r == fallback
  {
    if Truthy(v) then v.value else fallback
  }

  /** A reply sent back over runtime messaging. A field is `None` when the
      object lacks it, which includes a field whose value was `undefined`,
      since the reply is serialised. */
  datatype Reply = Reply(
    success: Option<bool>,
    answer: Option<string>,
    error: Option<string>,
    formattedAnswer: Option<string>)

  /** What one call to the completion endpoint yields, before the retry loop
      sees it. */
  datatype ApiResult =
    | Completed(content: string)               // `data.choices[0].message.content`
    | HttpError(errorMessage: Option<string>)  // `!response.ok`, with `errorData.error?.message`
    | NetworkError(message: string)            // `fetch` or `response.json()` rejected

  const ApiFailureFallback: string := "Failed to get response from Azure OpenAI"

  /** The message of the error an attempt throws: the endpoint's own error
      message when it gave a non-empty one, the fixed fallback otherwise. */
  function ApiErrorMessage(r: ApiResult): (m: string)
    requires !r.Completed?
    ensures r.HttpError? && Truthy(r.errorMessage) ==> m == r.errorMessage.value
    ensures r.HttpError? && !Truthy(r.errorMessage) ==> m == ApiFailureFallback
    ensures r.NetworkError? ==> m == r.message
  {
    match r
    case HttpError(em) => OrElse(em, ApiFailureFallback)
    case NetworkError(msg) => msg
  }

  /** How the retry loop sees one call. */
  function ToAttempt(r: ApiResult): (a: Attempt<string>)
    ensures a.Ok? <==> r.Completed?
    ensures r.Completed? ==> a.value == r.content
    ensures !r.Completed? ==> a.message == ApiErrorMessage(r)
  {
    if r.Completed? then Ok(r.content) else Err(ApiErrorMessage(r))
  }

  /** The attempts of a retry loop whose `j`-th call yields `calls(j)`. */
  function Attempts(calls: nat -> ApiResult): nat -> Attempt<string> {
    (j: nat) => ToAttempt(calls(j))
  }
}
