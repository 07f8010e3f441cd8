/**
 * `enhanceContent` and `processDirectTextInput`, which exist twice: once in
 * `aiService.ts`, whose success path strips the reasoning block from the
 * reply, and once in `api.ts`, which returns the reply's content as it
 * came. The chat-completion request itself is a parameter: the value the
 * HTTP client resolved with, or what it threw.
 */
module Completion {
  import opened Basics
  import opened JsString
  import opened Transport
  import opened ThinkTags

  const NoTextProvided: string := "No text provided for enhancement"
  const MissingKey: string := "Groq API key is missing. Please check your environment variables."
  const InvalidResponse: string := "Invalid response from Groq API"
  const NoEnhancedContent: string := "No enhanced content received"
  const EnterSomeText: string := "Please enter some text to enhance."

  /** The two copies of the service. */
  datatype Profile =
      /** `aiService.ts`: the content goes through `stripThinkContent`. */
    | StripsThink
      /** `api.ts`: the content is returned unchanged. */
    | KeepsThink

  /**
   * The body of a successful reply: absent, or its `choices`, each reduced to
   * `message?.content` (None when the message or its content is missing).
   * A missing `choices` array behaves like an empty one.
   */
  datatype ReplyBody = NoBody | Body(choices: seq<Option<string>>)

  /** What the success path does to the content. */
  function Finish(profile: Profile, content: string): string {
    match profile
    case StripsThink => StripThinkContent(content)
    case KeepsThink => content
  }

  /** The usable content of a reply: the first choice's content, when it is a non-empty string. */
  predicate HasContent(call: Result<ReplyBody, Thrown>) {
    call.Success? && call.value.Body? && |call.value.choices| > 0
    && call.value.choices[0].Some? && call.value.choices[0].value != []
  }

  /** The `try` block of `enhanceContent` after the key check: the reply checks and the success value. */
  function Reply(profile: Profile, call: Result<ReplyBody, Thrown>): (r: Result<string, Thrown>)
    ensures r.Success? <==> HasContent(call)
    ensures r.Success? ==> r.value == Finish(profile, call.value.choices[0].value)
    ensures call.Failure? ==> r == Failure(call.error)
    ensures call.Success? && (call.value.NoBody? || |call.value.choices| == 0) ==> r == Failure(ErrorValue(InvalidResponse))
    ensures call.Success? && call.value.Body? && |call.value.choices| > 0 && !HasContent(call) ==>
      r == Failure(ErrorValue(NoEnhancedContent))
  {
    if call.Failure? then Failure(call.error)
    else if call.value.NoBody? || |call.value.choices| == 0 then Failure(ErrorValue(InvalidResponse))
    else if call.value.choices[0].None? || call.value.choices[0].value == [] then Failure(ErrorValue(NoEnhancedContent))
    else Success(Finish(profile, call.value.choices[0].value))
  }

  /**
   * `enhanceContent(text)`: a blank text is refused before anything else;
   * a missing key is thrown inside the `try`, so it passes through the Groq
   * error mapping; every failure of the request or of the reply checks
   * leaves through that mapping.
   */
  function EnhanceContent(profile: Profile, text: string, hasKey: bool, call: Result<ReplyBody, Thrown>): (r: Attempt<string>)
    ensures r.requested <==> !IsBlank(text) && hasKey
    ensures IsBlank(text) ==> r.result == Failure(NoTextProvided)
    ensures !IsBlank(text) && !hasKey ==> r.result == Failure(MissingKey)
    ensures r.result.Success? <==> r.requested && HasContent(call)
    ensures r.result.Success? ==> r.result.value == Finish(profile, call.value.choices[0].value)
    ensures r.requested && call.Failure? ==> r.result == Failure(GroqMessage(call.error))
    ensures r.requested && call.Success? && (call.value.NoBody? || |call.value.choices| == 0) ==>
      r.result == Failure(InvalidResponse)
    ensures r.requested && call.Success? && call.value.Body? && |call.value.choices| > 0 && !HasContent(call) ==>
      r.result == Failure(NoEnhancedContent)
  {
    GroqPassesOwnErrors(MissingKey);
    GroqPassesOwnErrors(InvalidResponse);
    GroqPassesOwnErrors(NoEnhancedContent);
    if IsBlank(text) then Attempt(false, Failure(NoTextProvided))
    else if !hasKey then Attempt(false, Failure(GroqMessage(ErrorValue(MissingKey))))
    else
      match Reply(profile, call)
      case Success(content) => Attempt(true, Success(content))
      case Failure(e) => Attempt(true, Failure(GroqMessage(e)))
  }

  /** `processDirectTextInput(text)`: its own blank check, then `enhanceContent`. */
  function ProcessDirectTextInput(profile: Profile, text: string, hasKey: bool, call: Result<ReplyBody, Thrown>): (r: Attempt<string>)
    ensures IsBlank(text) ==> r == Attempt(false, Failure(EnterSomeText))
    ensures !IsBlank(text) ==> r == EnhanceContent(profile, text, hasKey, call)
  {
    if IsBlank(text) then Attempt(false, Failure(EnterSomeText)) else EnhanceContent(profile, text, hasKey, call)
  }

  /**
   * Through `processDirectTextInput`, the blank-text message of
   * `enhanceContent` is never the answer to a blank text: the outer check
   * answers first, with its own message.
   */
  lemma DirectInputAnswersBlankFirst(profile: Profile, text: string, hasKey: bool, call: Result<ReplyBody, Thrown>)
    ensures IsBlank(text) ==> ProcessDirectTextInput(profile, text, hasKey, call).result != Failure(NoTextProvided)
    ensures ProcessDirectTextInput(profile, text, hasKey, call).requested == EnhanceContent(profile, text, hasKey, call).requested
  {
  }

  /**
   * The two copies agree on everything but the success value, where the
   * `aiService.ts` copy is the `api.ts` copy with the reasoning removed.
   */
  lemma ProfilesAgree(text: string, hasKey: bool, call: Result<ReplyBody, Thrown>)
    ensures EnhanceContent(StripsThink, text, hasKey, call).requested == EnhanceContent(KeepsThink, text, hasKey, call).requested
    ensures EnhanceContent(StripsThink, text, hasKey, call).result.Success? == EnhanceContent(KeepsThink, text, hasKey, call).result.Success?
    ensures EnhanceContent(StripsThink, text, hasKey, call).result.Failure? ==>
      EnhanceContent(StripsThink, text, hasKey, call).result == EnhanceContent(KeepsThink, text, hasKey, call).result
    ensures EnhanceContent(StripsThink, text, hasKey, call).result.Success? ==>
      EnhanceContent(StripsThink, text, hasKey, call).result.value
      == StripThinkContent(EnhanceContent(KeepsThink, text, hasKey, call).result.value)
  {
  }

  /**
   * The emptiness check runs on the content before the reasoning is
   * stripped: a reply that is nothing but a reasoning block, such as
   * `<think>x</think>`, passes it and succeeds with an empty string in the
   * `aiService.ts` copy, while the `api.ts` copy returns it whole.
   */
  lemma ReasoningOnlyReplySucceedsEmpty(text: string, content: string)
    requires !IsBlank(text)
    requires content == Framed("", "x", "")
    ensures EnhanceContent(StripsThink, text, true, Success(Body([Some(content)]))) == Attempt(true, Success([]))
    ensures EnhanceContent(KeepsThink, text, true, Success(Body([Some(content)]))) == Attempt(true, Success(content))
  {
    ReasoningOnlyStripsToEmpty(content);
    assert HasContent(Success(Body([Some(content)])));
  }

  /** A blank text never reaches the network and never depends on the key or the reply. */
  lemma BlankTextIsRefusedFirst(profile: Profile, text: string, hasKey: bool, call: Result<ReplyBody, Thrown>, other: Result<ReplyBody, Thrown>)
    requires IsBlank(text)
    ensures EnhanceContent(profile, text, hasKey, call) == EnhanceContent(profile, text, !hasKey, other)
  {
  }
}
