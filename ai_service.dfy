/**
 * `generateSummary` and `askQuestion` of `aiService.ts`: one chat-completion
 * request each, whose answer is the first choice's content with the
 * reasoning block stripped, and whose every failure is replaced by one
 * fixed message. The `fetch` and `response.json()` steps are a parameter.
 */
module AiService {
  import opened Basics
  import opened JsString
  import opened ThinkTags

  const SummaryFailed: string := "Failed to generate summary. Please try again."
  const AnswerFailed: string := "Failed to answer question. Please try again."
  const OriginalLabel: string := "Original text: "
  const SummaryLabel: string := "\n\nSummary: "
  const QuestionLabel: string := "\n\nStudent question: "

  /**
   * What the request gave when `fetch` and `response.json()` both resolved:
   * `response.ok`, and `data.choices[0].message.content` when that is a
   * string (None when any step of the path is missing).
   */
  datatype FetchReply = FetchReply(ok: bool, content: Option<string>)

  /** What a call sends as the user message, and what it resolves or rejects with. */
  datatype Exchange = Exchange(userMessage: string, result: Result<string, string>)

  /**
   * The shared `try`/`catch`: a rejected request (None), a non-ok status, or a
   * reply without string content all end in `fallback`; otherwise the content
   * is stripped of its reasoning.
   */
  function Completed(call: Option<FetchReply>, fallback: string): (r: Result<string, string>)
    ensures r.Success? <==> call.Some? && call.value.ok && call.value.content.Some?
    ensures r.Success? ==> r.value == StripThinkContent(call.value.content.value)
    ensures r.Failure? ==> r.error == fallback
  {
    if call.Some? && call.value.ok && call.value.content.Some? then
      Success(StripThinkContent(call.value.content.value))
    else
      Failure(fallback)
  }

  /** `generateSummary(text)`: there is no blank check; any text is sent as it is. */
  function GenerateSummary(text: string, call: Option<FetchReply>): (r: Exchange)
    ensures r.userMessage == text
    ensures r.result.Failure? ==> r.result.error == SummaryFailed
    ensures r.result.Success? <==> call.Some? && call.value.ok && call.value.content.Some?
    ensures r.result.Success? ==> r.result.value == StripThinkContent(call.value.content.value)
  {
    Exchange(text, Completed(call, SummaryFailed))
  }

  /** The user message of `askQuestion`. */
  function QuestionPrompt(question: string, originalText: string, summary: string): string {
    OriginalLabel + originalText + SummaryLabel + summary + QuestionLabel + question
  }

  /** `askQuestion(question, originalText, summary)`. */
  function AskQuestion(question: string, originalText: string, summary: string, call: Option<FetchReply>): (r: Exchange)
    ensures r.userMessage == QuestionPrompt(question, originalText, summary)
    ensures r.result.Failure? ==> r.result.error == AnswerFailed
    ensures r.result.Success? <==> call.Some? && call.value.ok && call.value.content.Some?
    ensures r.result.Success? ==> r.result.value == StripThinkContent(call.value.content.value)
  {
    Exchange(QuestionPrompt(question, originalText, summary), Completed(call, AnswerFailed))
  }

  /**
   * The prompt is the labelled original text and summary followed by the
   * question label, and ends with the question itself.
   */
  lemma PromptEndsWithQuestion(question: string, originalText: string, summary: string)
    ensures var m := QuestionPrompt(question, originalText, summary);
      |question| <= |m|
      && m[|m| - |question|..] == question
      && m[..|m| - |question|] == OriginalLabel + originalText + SummaryLabel + summary + QuestionLabel
  {
    var head := OriginalLabel + originalText + SummaryLabel + summary + QuestionLabel;
    assert QuestionPrompt(question, originalText, summary) == head + question;
  }

  /** The prompt begins with the label and the original text. */
  lemma PromptStartsWithOriginal(question: string, originalText: string, summary: string)
    ensures var m := QuestionPrompt(question, originalText, summary);
      |OriginalLabel + originalText| <= |m|
      && m[..|OriginalLabel + originalText|] == OriginalLabel + originalText
  {
    var tail := SummaryLabel + summary + QuestionLabel + question;
    assert QuestionPrompt(question, originalText, summary) == (OriginalLabel + originalText) + tail;
  }

  /** For a fixed text and summary, different questions give different prompts. */
  lemma PromptDeterminesQuestion(q1: string, q2: string, originalText: string, summary: string)
    requires QuestionPrompt(q1, originalText, summary) == QuestionPrompt(q2, originalText, summary)
    ensures q1 == q2
  {
    var head := OriginalLabel + originalText + SummaryLabel + summary + QuestionLabel;
    assert QuestionPrompt(q1, originalText, summary) == head + q1;
    assert QuestionPrompt(q2, originalText, summary) == head + q2;
    assert q1 == (head + q1)[|head|..];
    assert q2 == (head + q2)[|head|..];
  }

  /**
   * The labels are not escaped: an original text that itself contains the
   * summary label gives the same prompt as a shorter text with a longer
   * summary, so the model cannot tell the two apart.
   */
  lemma PromptLabelsAreNotEscaped(question: string, text: string, middle: string, summary: string)
    ensures QuestionPrompt(question, text + SummaryLabel + middle, summary)
         == QuestionPrompt(question, text, middle + SummaryLabel + summary)
  {
    Regroup(OriginalLabel, text, SummaryLabel, middle, summary, QuestionLabel, question);
  }

  lemma Regroup(o: string, t: string, l: string, m: string, s: string, q: string, x: string)
    ensures o + (t + l + m) + l + s + q + x == o + t + l + (m + l + s) + q + x
  {
  }

  /** A reply with no reasoning block comes back only trimmed, from either call, whatever was asked. */
  lemma AnswerWithoutReasoningIsTrimmed(text: string, question: string, originalText: string, summary: string,
                                        call: Option<FetchReply>)
    requires call.Some? && call.value.ok && call.value.content.Some?
    requires !HasPair(call.value.content.value)
    ensures GenerateSummary(text, call).result == Success(Trim(call.value.content.value))
    ensures AskQuestion(question, originalText, summary, call).result == Success(Trim(call.value.content.value))
  {
    UnchangedIffNoPair(call.value.content.value);
  }
}
