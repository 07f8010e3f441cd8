/**
 * What the services' `catch` blocks can receive, and how they turn it into
 * the message of the `Error` they re-throw: the HTTP client's error (timed
 * out, answered with a status, or sent without an answer), an ordinary
 * `Error`, or a thrown value that is not an `Error` at all.
 */
module Transport {
  import opened Basics
  import opened JsString

  /** The fields of an error response's body the mappings read: `data.error.message` and `data.message`. */
  datatype ErrorBody = ErrorBody(errorMessage: Option<string>, message: Option<string>)

  /** An HTTP response outside the 2xx range. */
  datatype HttpError = HttpError(status: nat, body: ErrorBody)

  /** A thrown value. */
  datatype Thrown =
      /** An `Error` with its message (the services' own `throw new Error(...)`). */
    | ErrorValue(message: string)
      /** A value that is not an `Error`; `text` is what `String(value)` gives. */
    | NonErrorValue(text: string)
      /**
       * An error of the HTTP client: `timedOut` is `code === 'ECONNABORTED'`,
       * `response` the answer if one came, `requestSent` whether a request
       * went out, and `message` its own `Error` message.
       */
    | ClientError(timedOut: bool, response: Option<HttpError>, requestSent: bool, message: string)

  /** What a service call did: whether it sent a request at all, and what it resolved or rejected with. */
  datatype Attempt<T> = Attempt(requested: bool, result: Result<T, string>)

  /** `x || fallback` for a string that may be absent: the empty string counts as absent. */
  function OrElse(x: Option<string>, fallback: string): (r: string)
    ensures x.Some? && x.value != [] ==> r == x.value
    ensures x.None? || x.value == [] ==> r == fallback
  {
    if x.Some? && x.value != [] then x.value else fallback
  }

  /** `(error instanceof Error) ? error.message : String(error)`. */
  function CaughtText(e: Thrown): string {
    match e
    case ErrorValue(m) => m
    case NonErrorValue(t) => t
    case ClientError(_, _, _, m) => m
  }

  /**
   * The services' last line: `throw new Error(message || fallback)`. The
   * fallback replaces every empty message, whether it came from an `Error`
   * or from a non-`Error` value.
   */
  function Rethrown(e: Thrown, fallback: string): (r: string)
    ensures CaughtText(e) != [] ==> r == CaughtText(e)
    ensures CaughtText(e) == [] ==> r == fallback
  {
    OrElse(Some(CaughtText(e)), fallback)
  }

  /**
   * The components' way: `err instanceof Error ? err.message : String(err) || fallback`,
   * which groups as `a ? b : (c || d)`: only a non-`Error` value with an empty
   * string form gets the fallback; an `Error` with an empty message gives "".
   */
  function Displayed(e: Thrown, fallback: string): (r: string)
    ensures !e.NonErrorValue? ==> r == CaughtText(e)
    ensures e.NonErrorValue? ==> r == OrElse(Some(e.text), fallback)
  {
    match e
    case NonErrorValue(t) => OrElse(Some(t), fallback)
    case _ => CaughtText(e)
  }

  /** The two fallbacks differ exactly on an `Error` with an empty message. */
  lemma RethrownVersusDisplayed(e: Thrown, fallback: string)
    requires fallback != []
    ensures Rethrown(e, fallback) != Displayed(e, fallback) <==> !e.NonErrorValue? && CaughtText(e) == []
  {
  }

  // ------------------------------------------------------------------ Groq

  const GroqTimeout: string := "Request to Groq API timed out. Please try again."
  const GroqAuth: string := "Authentication error. Please check your API key."
  const GroqRateLimit: string := "Rate limit exceeded. Please try again later."
  const GroqBadRequestPrefix: string := "Bad request to Groq API: "
  const GroqInvalidParameters: string := "Invalid request parameters"
  const GroqStatusPrefix: string := "Groq API error: "
  const StatusSeparator: string := " - "
  const UnknownError: string := "Unknown error"
  const GroqNoResponse: string := "No response from Groq API. Please check your internet connection."
  const GroqFallback: string := "Failed to enhance content. Please try again later."

  /** `Groq API error: {status} - {detail}`. */
  function StatusMessage(prefix: string, status: nat, detail: string): string {
    prefix + DecimalString(status) + StatusSeparator + detail
  }

  /** The rows of the Groq decision table, in the order they are tried. */
  datatype GroqRow = Timeout | Auth | RateLimit | BadRequest | OtherStatus | NoResponse | Passthrough

  /** Which row applies: a timeout before any status, a status before "no response". */
  function GroqRowOf(e: Thrown): (row: GroqRow)
    ensures row == Timeout <==> e.ClientError? && e.timedOut
    ensures row == NoResponse <==> e.ClientError? && !e.timedOut && e.response.None? && e.requestSent
    ensures row == Passthrough <==> !e.ClientError? || (!e.timedOut && e.response.None? && !e.requestSent)
    ensures row in {Auth, RateLimit, BadRequest, OtherStatus} <==> e.ClientError? && !e.timedOut && e.response.Some?
  {
    if !e.ClientError? then Passthrough
    else if e.timedOut then Timeout
    else if e.response.Some? then
      var status := e.response.value.status;
      if status == 401 then Auth
      else if status == 429 then RateLimit
      else if status == 400 then BadRequest
      else OtherStatus
    else if e.requestSent then NoResponse
    else Passthrough
  }

  /** The message `enhanceContent` throws for a caught value. */
  function GroqMessage(e: Thrown): (r: string)
    ensures GroqRowOf(e) == Timeout ==> r == GroqTimeout
    ensures GroqRowOf(e) == Auth ==> r == GroqAuth && e.response.value.status == 401
    ensures GroqRowOf(e) == RateLimit ==> r == GroqRateLimit && e.response.value.status == 429
    ensures GroqRowOf(e) == BadRequest ==>
      e.response.value.status == 400
      && r == GroqBadRequestPrefix + OrElse(e.response.value.body.errorMessage, GroqInvalidParameters)
    ensures GroqRowOf(e) == OtherStatus ==>
      e.response.value.status !in {400, 401, 429}
      && r == StatusMessage(GroqStatusPrefix, e.response.value.status, OrElse(e.response.value.body.message, UnknownError))
    ensures GroqRowOf(e) == NoResponse ==> r == GroqNoResponse
    ensures GroqRowOf(e) == Passthrough ==> r == Rethrown(e, GroqFallback)
  {
    match GroqRowOf(e)
    case Timeout => GroqTimeout
    case Auth => GroqAuth
    case RateLimit => GroqRateLimit
    case BadRequest => GroqBadRequestPrefix + OrElse(e.response.value.body.errorMessage, GroqInvalidParameters)
    case OtherStatus => StatusMessage(GroqStatusPrefix, e.response.value.status, OrElse(e.response.value.body.message, UnknownError))
    case NoResponse => GroqNoResponse
    case Passthrough => Rethrown(e, GroqFallback)
  }

  /** A timeout wins over any response the error also carries. */
  lemma GroqTimeoutFirst(response: Option<HttpError>, requestSent: bool, message: string)
    ensures GroqMessage(ClientError(true, response, requestSent, message)) == GroqTimeout
  {
  }

  /** The service's own errors (the missing key, a malformed reply) come out with their message unchanged. */
  lemma GroqPassesOwnErrors(message: string)
    requires message != []
    ensures GroqMessage(ErrorValue(message)) == message
  {
  }

  /** The leading run of decimal digits of `s`. */
  function DigitPrefix(s: string): (r: string)
    ensures |r| <= |s| && r == s[..|r|]
    ensures forall i :: 0 <= i < |r| ==> '0' <= r[i] <= '9'
  {
    if s != [] && '0' <= s[0] <= '9' then [s[0]] + DigitPrefix(s[1..]) else []
  }

  lemma {:induction false} DigitPrefixOfDigits(d: string, rest: string)
    requires forall i :: 0 <= i < |d| ==> '0' <= d[i] <= '9'
    requires rest != [] && !('0' <= rest[0] <= '9')
    ensures DigitPrefix(d + rest) == d
  {
    if d == [] {
      assert d + rest == rest;
    } else {
      assert (d + rest)[1..] == d[1..] + rest;
      DigitPrefixOfDigits(d[1..], rest);
    }
  }

  /** The status read back from a status message, after a known prefix. */
  function StatusOf(prefix: string, m: string): nat
    requires |prefix| <= |m|
  {
    DecimalValue(DigitPrefix(m[|prefix|..]))
  }

  /** The status can be read back from the message: the message loses no status. */
  lemma StatusMessageRoundTrip(prefix: string, status: nat, detail: string)
    ensures |prefix| <= |StatusMessage(prefix, status, detail)|
    ensures StatusOf(prefix, StatusMessage(prefix, status, detail)) == status
  {
    var d := DecimalString(status);
    var m := StatusMessage(prefix, status, detail);
    assert m == prefix + (d + (StatusSeparator + detail));
    assert m[|prefix|..] == d + (StatusSeparator + detail);
    DigitPrefixOfDigits(d, StatusSeparator + detail);
    DecimalRoundTrip(status);
  }

  // ------------------------------------------------------------------- OCR

  const OcrTimeout: string := "Request timed out. Please try again."
  const OcrStatusPrefix: string := "OCR service error: "
  const OcrNoResponse: string := "No response from OCR service. Please check your internet connection."
  const OcrFallback: string := "Failed to extract text from image. Please try again or enter text manually."

  /** The message `extractTextFromImage` throws for a caught value: timeout, then status, then no response. */
  function OcrMessage(e: Thrown): (r: string)
    ensures e.ClientError? && e.timedOut ==> r == OcrTimeout
    ensures e.ClientError? && !e.timedOut && e.response.Some? ==>
      r == StatusMessage(OcrStatusPrefix, e.response.value.status, OrElse(e.response.value.body.message, UnknownError))
    ensures e.ClientError? && !e.timedOut && e.response.None? && e.requestSent ==> r == OcrNoResponse
    ensures !e.ClientError? || (!e.timedOut && e.response.None? && !e.requestSent) ==> r == Rethrown(e, OcrFallback)
  {
    if e.ClientError? && e.timedOut then OcrTimeout
    else if e.ClientError? && e.response.Some? then
      StatusMessage(OcrStatusPrefix, e.response.value.status, OrElse(e.response.value.body.message, UnknownError))
    else if e.ClientError? && e.requestSent then OcrNoResponse
    else Rethrown(e, OcrFallback)
  }

  /** Every status, 401 and 429 included, gets the generic status message from the OCR mapping. */
  lemma OcrStatusRoundTrip(status: nat, body: ErrorBody, requestSent: bool, message: string)
    ensures var m := OcrMessage(ClientError(false, Some(HttpError(status, body)), requestSent, message));
      |OcrStatusPrefix| <= |m| && StatusOf(OcrStatusPrefix, m) == status
  {
    StatusMessageRoundTrip(OcrStatusPrefix, status, OrElse(body.message, UnknownError));
  }

  /** A thrown value that no row of either table claims is re-thrown with its own message or the fallback. */
  lemma UnclaimedErrorsPassThrough(e: Thrown)
    requires !e.ClientError? || (!e.timedOut && e.response.None? && !e.requestSent)
    ensures GroqMessage(e) == Rethrown(e, GroqFallback)
    ensures OcrMessage(e) == Rethrown(e, OcrFallback)
  {
  }
}
