/**
 * The state of `AISummaryQA.tsx`: the input text, the summary, the question,
 * the answer, the loading flag and the error, what `handleSummarize` and
 * `handleAsk` do to them around their awaited call, and when the two buttons
 * are enabled and the question section and the error panel are shown.
 */
module SummaryQa {
  import opened Basics
  import opened JsString
  import opened Transport
  import opened ThinkTags
  import opened AiService

  const SummarizeFallback: string := "Failed to generate summary."
  const AskFallback: string := "Failed to get answer."

  /** The component's `useState` fields. */
  datatype QaState = QaState(inputText: string, summary: string, question: string, answer: string,
                             loading: bool, error: Option<string>)

  /** The first render, from the optional prop: `initialInputText || ''`. */
  function InitialState(initialInputText: Option<string>): (r: QaState)
    ensures initialInputText.Some? ==> r.inputText == initialInputText.value
    ensures initialInputText.None? ==> r.inputText == []
    ensures r.summary == [] && r.question == [] && r.answer == [] && !r.loading && r.error == None
  {
    QaState(OrElse(initialInputText, []), [], [], [], false, None)
  }

  /** `loading || !inputText.trim()`. */
  predicate SummarizeDisabled(s: QaState) {
    s.loading || IsBlank(s.inputText)
  }

  /** `loading || !question.trim()`. */
  predicate AskDisabled(s: QaState) {
    s.loading || IsBlank(s.question)
  }

  /** `{summary && ...}`: the summary and the question section render only for a non-empty summary. */
  predicate QuestionSectionShown(s: QaState) {
    s.summary != []
  }

  /**
   * `{error && ...}`: the error panel renders for a non-empty error, but it
   * sits inside the `{summary && ...}` block, so only beside a non-empty summary.
   */
  predicate ErrorShown(s: QaState) {
    s.summary != [] && s.error.Some? && s.error.value != []
  }

  /** The error panel as evidently intended, outside the summary block: any non-empty error renders. */
  predicate ErrorShownOutsideSummary(s: QaState) {
    s.error.Some? && s.error.value != []
  }

  /** The state while `generateSummary` is awaited. */
  function WhileSummarizing(s: QaState): QaState {
    s.(loading := true, error := None, summary := [], answer := [])
  }

  /** The state `handleSummarize` leaves behind, given what `generateSummary` did. */
  function AfterSummarize(s: QaState, result: Result<string, Thrown>): QaState {
    var w := WhileSummarizing(s);
    if result.Success? then w.(summary := result.value, loading := false)
    else w.(error := Some(Displayed(result.error, SummarizeFallback)), loading := false)
  }

  /** The state while `askQuestion` is awaited. */
  function WhileAsking(s: QaState): QaState {
    s.(loading := true, error := None, answer := [])
  }

  /** The state `handleAsk` leaves behind, given what `askQuestion` did. */
  function AfterAsk(s: QaState, result: Result<string, Thrown>): QaState {
    var w := WhileAsking(s);
    if result.Success? then w.(answer := result.value, loading := false)
    else w.(error := Some(Displayed(result.error, AskFallback)), loading := false)
  }

  /** A button is enabled exactly when no call is awaited and its field has a non-whitespace character. */
  lemma EnabledConditions(s: QaState)
    ensures !SummarizeDisabled(s) <==> !s.loading && exists i :: 0 <= i < |s.inputText| && !IsWhitespace(s.inputText[i])
    ensures !AskDisabled(s) <==> !s.loading && exists i :: 0 <= i < |s.question| && !IsWhitespace(s.question[i])
  {
    BlankIffAllWhitespace(s.inputText);
    BlankIffAllWhitespace(s.question);
  }

  /** While a call is awaited both buttons are disabled, and a new summary hides the question section. */
  lemma LoadingDisablesButtons(s: QaState)
    ensures SummarizeDisabled(WhileSummarizing(s)) && AskDisabled(WhileSummarizing(s))
    ensures SummarizeDisabled(WhileAsking(s)) && AskDisabled(WhileAsking(s))
    ensures !QuestionSectionShown(WhileSummarizing(s))
    ensures QuestionSectionShown(WhileAsking(s)) == QuestionSectionShown(s)
  {
  }

  /**
   * `handleSummarize`: the summary replaces the old one on success and the
   * error is set on failure, never both; the old answer is gone either way,
   * and the input and question are kept.
   */
  lemma SummarizeOutcome(s: QaState, result: Result<string, Thrown>)
    ensures var t := AfterSummarize(s, result);
      && !t.loading && t.answer == [] && t.inputText == s.inputText && t.question == s.question
      && (result.Success? <==> t.error == None)
      && (result.Success? ==> t.summary == result.value)
      && (result.Failure? ==> t.summary == [] && t.error == Some(Displayed(result.error, SummarizeFallback)))
  {
  }

  /**
   * `handleAsk`: only the answer and the error change; the summary the
   * question was about stays, so the question section stays as it was.
   */
  lemma AskOutcome(s: QaState, result: Result<string, Thrown>)
    ensures var t := AfterAsk(s, result);
      && !t.loading && t.summary == s.summary && t.inputText == s.inputText && t.question == s.question
      && QuestionSectionShown(t) == QuestionSectionShown(s)
      && (result.Success? <==> t.error == None)
      && (result.Success? ==> t.answer == result.value)
      && (result.Failure? ==> t.answer == [] && t.error == Some(Displayed(result.error, AskFallback)))
  {
  }

  /**
   * With `generateSummary` plugged in, a completion that was only a reasoning
   * block succeeds with an empty summary: no error shows and the question
   * section stays hidden.
   */
  lemma ReasoningOnlySummaryHidesQuestions(s: QaState, content: string)
    requires content == Framed([], "x", [])
    ensures var r := GenerateSummary(s.inputText, Some(FetchReply(true, Some(content)))).result;
      var t := AfterSummarize(s, Success(r.value));
      r.Success? && t.error == None && !QuestionSectionShown(t)
  {
    ReasoningOnlyStripsToEmpty(content);
  }

  /**
   * As written, a failed `handleSummarize` stores its message but never shows
   * it: the summary was cleared, and the error panel renders only beside one.
   */
  lemma SummarizeFailureIsHidden(s: QaState, e: Thrown)
    ensures var t := AfterSummarize(s, Failure(e));
      t.error == Some(Displayed(e, SummarizeFallback)) && !ErrorShown(t) && !QuestionSectionShown(t)
  {
  }

  /** A failed `handleAsk` shows its non-empty message exactly when the summary it was about is there. */
  lemma AskFailureShown(s: QaState, e: Thrown)
    ensures var t := AfterAsk(s, Failure(e));
      ErrorShown(t) <==> s.summary != [] && Displayed(e, AskFallback) != []
  {
  }

  /**
   * With the error panel outside the summary block, every failure with a
   * non-empty message is shown, whichever handler failed, and a success
   * shows no error.
   */
  lemma ErrorPanelOutsideSummary(s: QaState, result: Result<string, Thrown>)
    ensures var t := AfterSummarize(s, result);
      ErrorShownOutsideSummary(t) <==> result.Failure? && Displayed(result.error, SummarizeFallback) != []
    ensures var t := AfterAsk(s, result);
      ErrorShownOutsideSummary(t) <==> result.Failure? && Displayed(result.error, AskFallback) != []
    ensures var t := AfterSummarize(s, result);
      result.Failure? ==> (ErrorShownOutsideSummary(t) && !ErrorShown(t) <==> Displayed(result.error, SummarizeFallback) != [])
  {
  }

  /**
   * With the services plugged in, a failure stores the service's own message,
   * not the component's fallback. Under the intended layout that message is
   * shown for both handlers; as written only `handleAsk`'s is, and only beside
   * a summary.
   */
  lemma ServiceMessagesShown(text: string, question: string, summary: string, call: Option<FetchReply>, s: QaState)
    ensures var r := GenerateSummary(text, call).result;
      r.Failure? ==> Displayed(ErrorValue(r.error), SummarizeFallback) == SummaryFailed
    ensures var r := AskQuestion(question, text, summary, call).result;
      r.Failure? ==> Displayed(ErrorValue(r.error), AskFallback) == AnswerFailed
    ensures var r := GenerateSummary(text, call).result;
      r.Failure? ==>
        var t := AfterSummarize(s, Failure(ErrorValue(r.error)));
        t.error == Some(SummaryFailed) && ErrorShownOutsideSummary(t) && !ErrorShown(t)
    ensures var r := AskQuestion(question, text, summary, call).result;
      r.Failure? ==>
        var t := AfterAsk(s, Failure(ErrorValue(r.error)));
        t.error == Some(AnswerFailed) && ErrorShownOutsideSummary(t) && (ErrorShown(t) <==> s.summary != [])
  {
  }

  class SummaryQaView {
    var inputText: string
    var summary: string
    var question: string
    var answer: string
    var loading: bool
    var error: Option<string>

    function State(): QaState
      reads this
    {
      QaState(inputText, summary, question, answer, loading, error)
    }

    /** Between two events no call is awaited. */
    ghost predicate Valid()
      reads this
    {
      !loading
    }

    constructor (initialInputText: Option<string>)
      ensures Valid()
      ensures State() == InitialState(initialInputText)
    {
      inputText := OrElse(initialInputText, []);
      summary := [];
      question := [];
      answer := [];
      loading := false;
      error := None;
    }

    /** The text area's `onChange`. */
    method SetInputText(text: string)
      requires Valid()
      modifies this
      ensures Valid()
      ensures State() == old(State()).(inputText := text)
    {
      inputText := text;
    }

    /** The question field's `onChange`. */
    method SetQuestion(text: string)
      requires Valid()
      modifies this
      ensures Valid()
      ensures State() == old(State()).(question := text)
    {
      question := text;
    }

    /**
     * `handleSummarize`: `result` is what `generateSummary(inputText)` did.
     * `sent` is the text it was called with and `during` the state on screen
     * while it was awaited.
     */
    method HandleSummarize(result: Result<string, Thrown>) returns (sent: string, during: QaState)
      requires Valid()
      modifies this
      ensures Valid()
      ensures State() == AfterSummarize(old(State()), result)
      ensures sent == old(inputText) && during == WhileSummarizing(old(State()))
    {
      loading := true;
      error := None;
      summary := [];
      answer := [];
      sent := inputText;
      during := State();
      if result.Success? {
        summary := result.value;
      } else {
        error := Some(Displayed(result.error, SummarizeFallback));
      }
      loading := false;
    }

    /**
     * `handleAsk`: `result` is what `askQuestion(question, inputText, summary)`
     * did; `sent` is the user message built from those three.
     */
    method HandleAsk(result: Result<string, Thrown>) returns (sent: string, during: QaState)
      requires Valid()
      modifies this
      ensures Valid()
      ensures State() == AfterAsk(old(State()), result)
      ensures sent == QuestionPrompt(old(question), old(inputText), old(summary))
      ensures during == WhileAsking(old(State()))
    {
      loading := true;
      error := None;
      answer := [];
      sent := QuestionPrompt(question, inputText, summary);
      during := State();
      if result.Success? {
        answer := result.value;
      } else {
        error := Some(Displayed(result.error, AskFallback));
      }
      loading := false;
    }
  }
}
