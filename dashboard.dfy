/**
 * The state of the dashboard page (`Dashboard.tsx`): the pipeline status,
 * the extracted text and summary, the error, the history of processed
 * images and the chat about the current one. Each awaited service call is
 * given as its outcome: the value it resolved with, or the message of the
 * `Error` it rejected with. The lemmas below plug the service models in.
 */
module DashboardPage {
  import opened Basics
  import opened ProcessingSteps
  import opened OcrService
  import opened AiService

  const UploadGreeting: string := "I've summarized the content. Ask me anything about it!"
  const LoadedGreeting: string := "I've loaded this previous summary. Ask me anything about it!"
  const AnswerApology: string := "Sorry, I had trouble answering that question. Please try again."

  datatype Role = User | Assistant
  datatype ChatMessage = ChatMessage(role: Role, content: string)

  /** One processed image; `id` is the `Date.now()` string and the timestamp is left out. */
  datatype HistoryItem = HistoryItem(id: string, imageUrl: string, text: string, summary: string)

  /** The page's `useState` fields, as one value. */
  datatype PageState = PageState(
    status: Status,
    currentImage: Option<string>,
    extractedText: string,
    summary: string,
    error: Option<string>,
    history: seq<HistoryItem>,
    chatMessages: seq<ChatMessage>,
    isHistoryOpen: bool)

  /**
   * An assistant greeting followed by pairs of a user question and an
   * assistant reply: odd positions are the user's, even ones the assistant's,
   * and the chat ends with a reply.
   */
  predicate GreetingThenPairs(chat: seq<ChatMessage>) {
    && |chat| % 2 == 1
    && forall i :: 0 <= i < |chat| ==> chat[i].role == (if i % 2 == 1 then User else Assistant)
  }

  /** Once a summary is on screen the chat is a greeting followed by question-and-answer pairs. */
  predicate ValidState(s: PageState) {
    s.status == Complete ==> GreetingThenPairs(s.chatMessages)
  }

  /**
   * The state `handleImageUpload` leaves behind, given what `processImage`
   * and then `generateSummary` did; the second is consulted only when the
   * first resolved.
   */
  function AfterUpload(s: PageState, imageUrl: string, id: string, text: Result<string, string>, aiSummary: Result<string, string>): PageState {
    var started := s.(status := Extracting, error := None, currentImage := Some(imageUrl));
    if text.Failure? then
      started.(status := Error, error := Some(text.error))
    else if aiSummary.Failure? then
      started.(extractedText := text.value, status := Error, error := Some(aiSummary.error))
    else
      started.(extractedText := text.value, summary := aiSummary.value,
               history := [HistoryItem(id, imageUrl, text.value, aiSummary.value)] + s.history,
               status := Complete, chatMessages := [ChatMessage(Assistant, UploadGreeting)])
  }

  /** The statuses `handleImageUpload` sets, in order. */
  function UploadStatuses(text: Result<string, string>, aiSummary: Result<string, string>): seq<Status> {
    if text.Failure? then [Uploading, Extracting, Error]
    else if aiSummary.Failure? then [Uploading, Extracting, Summarizing, Error]
    else [Uploading, Extracting, Summarizing, Complete]
  }

  /** The state `handleAskQuestion` leaves behind, given what `askQuestion` did. */
  function AfterQuestion(s: PageState, question: string, answer: Result<string, string>): PageState {
    s.(chatMessages := s.chatMessages + [ChatMessage(User, question),
         ChatMessage(Assistant, if answer.Success? then answer.value else AnswerApology)])
  }

  /** The state `handleHistoryItemSelect` leaves behind. */
  function AfterSelect(s: PageState, item: HistoryItem): PageState {
    s.(currentImage := Some(item.imageUrl), extractedText := item.text, summary := item.summary,
       status := Complete, chatMessages := [ChatMessage(Assistant, LoadedGreeting)], isHistoryOpen := false)
  }

  /** A successful upload: one entry is prepended to the history, the older ones keep their order, and the chat restarts. */
  lemma UploadSucceeds(s: PageState, imageUrl: string, id: string, text: Result<string, string>, aiSummary: Result<string, string>)
    requires text.Success? && aiSummary.Success?
    ensures var t := AfterUpload(s, imageUrl, id, text, aiSummary);
      && t.status == Complete && t.error == None && t.currentImage == Some(imageUrl)
      && t.extractedText == text.value && t.summary == aiSummary.value
      && |t.history| == |s.history| + 1
      && t.history[0] == HistoryItem(id, imageUrl, text.value, aiSummary.value) && t.history[1..] == s.history
      && t.chatMessages == [ChatMessage(Assistant, UploadGreeting)]
      && t.isHistoryOpen == s.isHistoryOpen
  {
  }

  /**
   * A failed upload: the status is `error` with the failing call's message,
   * and neither the history, the summary nor the chat changes. A text already
   * extracted when the summary fails stays on the page.
   */
  lemma UploadFails(s: PageState, imageUrl: string, id: string, text: Result<string, string>, aiSummary: Result<string, string>)
    requires text.Failure? || aiSummary.Failure?
    ensures var t := AfterUpload(s, imageUrl, id, text, aiSummary);
      && t.status == Error && t.currentImage == Some(imageUrl)
      && t.history == s.history && t.chatMessages == s.chatMessages && t.summary == s.summary
      && (text.Failure? ==> t.error == Some(text.error) && t.extractedText == s.extractedText)
      && (text.Success? ==> t.error == Some(aiSummary.error) && t.extractedText == text.value)
  {
  }

  /**
   * With the two services plugged in: the error shown is one of their two
   * fixed messages, and a remembered entry holds the OCR text, which is never
   * empty, and the stripped completion.
   */
  lemma UploadThroughServices(s: PageState, imageUrl: string, id: string, upload: Option<UploadReply>, completion: Option<FetchReply>)
    ensures var text := ProcessImage(upload);
      var aiSummary := if text.Success? then GenerateSummary(text.value, completion).result else Failure([]);
      var t := AfterUpload(s, imageUrl, id, text, aiSummary);
      && (t.status == Error ==> t.error == Some(ProcessFailed) || t.error == Some(SummaryFailed))
      && (t.status == Complete ==>
            t.history[0].text == upload.value.text.value && t.history[0].text != []
            && t.history[0].summary == ThinkTags.StripThinkContent(completion.value.content.value))
  {
    var text := ProcessImage(upload);
    if text.Success? {
      UploadSucceedsOrFails(s, imageUrl, id, text, GenerateSummary(text.value, completion).result);
    }
  }

  lemma UploadSucceedsOrFails(s: PageState, imageUrl: string, id: string, text: Result<string, string>, aiSummary: Result<string, string>)
    requires text.Success?
    ensures AfterUpload(s, imageUrl, id, text, aiSummary).status == Complete ==>
      aiSummary.Success? && AfterUpload(s, imageUrl, id, text, aiSummary).history[0] == HistoryItem(id, imageUrl, text.value, aiSummary.value)
    ensures AfterUpload(s, imageUrl, id, text, aiSummary).status == Error ==>
      aiSummary.Failure? && AfterUpload(s, imageUrl, id, text, aiSummary).error == Some(aiSummary.error)
  {
  }

  /**
   * Each status is set before the call it announces: every upload shows
   * `uploading` then `extracting`; `summarizing` only once text came back;
   * the last one is the final status, `complete` exactly when an entry was added.
   */
  lemma StatusesInOrder(s: PageState, imageUrl: string, id: string, text: Result<string, string>, aiSummary: Result<string, string>)
    ensures var shown := UploadStatuses(text, aiSummary);
      && 3 <= |shown| <= 4 && shown[..2] == [Uploading, Extracting]
      && shown[|shown| - 1] == AfterUpload(s, imageUrl, id, text, aiSummary).status
      && (Summarizing in shown <==> text.Success?)
      && (shown[|shown| - 1] == Complete <==> |AfterUpload(s, imageUrl, id, text, aiSummary).history| == |s.history| + 1)
  {
  }

  /** An upload, successful or not, keeps the chat a greeting followed by pairs. */
  lemma UploadKeepsValid(s: PageState, imageUrl: string, id: string, text: Result<string, string>, aiSummary: Result<string, string>)
    requires ValidState(s)
    ensures ValidState(AfterUpload(s, imageUrl, id, text, aiSummary))
  {
  }

  /** A question and its reply form one more pair after the greeting. */
  lemma {:induction false} QuestionKeepsValid(s: PageState, question: string, answer: Result<string, string>)
    requires ValidState(s)
    ensures ValidState(AfterQuestion(s, question, answer))
  {
    if s.status == Complete {
      var c, d := s.chatMessages, AfterQuestion(s, question, answer).chatMessages;
      assert |d| == |c| + 2;
      forall i | 0 <= i < |d|
        ensures d[i].role == (if i % 2 == 1 then User else Assistant)
      {
        if i < |c| {
          assert d[i] == c[i];
        }
      }
    }
  }

  /** Loading an entry restarts the chat with its greeting. */
  lemma SelectKeepsValid(s: PageState, item: HistoryItem)
    ensures ValidState(AfterSelect(s, item))
  {
  }

  /** A question adds exactly two messages, the question and its reply, and changes nothing else. */
  lemma QuestionAddsTwo(s: PageState, question: string, answer: Result<string, string>)
    ensures var t := AfterQuestion(s, question, answer);
      && |t.chatMessages| == |s.chatMessages| + 2
      && t.chatMessages[..|s.chatMessages|] == s.chatMessages
      && t.chatMessages[|s.chatMessages|] == ChatMessage(User, question)
      && t.chatMessages[|s.chatMessages| + 1] == ChatMessage(Assistant, if answer.Success? then answer.value else AnswerApology)
      && t.(chatMessages := s.chatMessages) == s
  {
  }

  /** Loading an entry shows it again with a fresh chat, closes the panel and leaves the history as it was. */
  lemma SelectKeepsHistory(s: PageState, item: HistoryItem)
    ensures var t := AfterSelect(s, item);
      t.history == s.history && t.error == s.error && t.status == Complete
      && t.currentImage == Some(item.imageUrl) && t.extractedText == item.text && t.summary == item.summary
      && t.chatMessages == [ChatMessage(Assistant, LoadedGreeting)] && !t.isHistoryOpen
  {
  }

  class Dashboard {
    var status: Status
    var currentImage: Option<string>
    var extractedText: string
    var summary: string
    var error: Option<string>
    var history: seq<HistoryItem>
    var chatMessages: seq<ChatMessage>
    var isHistoryOpen: bool

    function State(): PageState
      reads this
    {
      PageState(status, currentImage, extractedText, summary, error, history, chatMessages, isHistoryOpen)
    }

    ghost predicate Valid()
      reads this
    {
      ValidState(State())
    }

    constructor ()
      ensures Valid()
      ensures State() == PageState(Idle, None, [], [], None, [], [], false)
    {
      status := Idle;
      currentImage := None;
      extractedText := [];
      summary := [];
      error := None;
      history := [];
      chatMessages := [];
      isHistoryOpen := false;
    }

    /**
     * `handleImageUpload`. `imageUrl` is the object URL of the file and `id`
     * the clock reading for the history entry; `text` is what
     * `processImage(imageFile)` did and `aiSummary` what
     * `generateSummary(text)` did. `shown` lists the statuses in the order
     * they are set.
     */
    method HandleImageUpload(imageUrl: string, id: string, text: Result<string, string>, aiSummary: Result<string, string>)
      returns (shown: seq<Status>)
      requires Valid()
      modifies this
      ensures Valid()
      ensures State() == AfterUpload(old(State()), imageUrl, id, text, aiSummary)
      ensures shown == UploadStatuses(text, aiSummary)
    {
      UploadKeepsValid(State(), imageUrl, id, text, aiSummary);
      status := Uploading;
      shown := [status];
      error := None;
      currentImage := Some(imageUrl);
      status := Extracting;
      shown := shown + [status];
      if text.Failure? {
        status := Error;
        shown := shown + [status];
        error := Some(text.error);
        return;
      }
      extractedText := text.value;
      status := Summarizing;
      shown := shown + [status];
      if aiSummary.Failure? {
        status := Error;
        shown := shown + [status];
        error := Some(aiSummary.error);
        return;
      }
      summary := aiSummary.value;
      history := [HistoryItem(id, imageUrl, text.value, aiSummary.value)] + history;
      status := Complete;
      shown := shown + [status];
      chatMessages := [ChatMessage(Assistant, UploadGreeting)];
    }

    /**
     * `handleAskQuestion`: the question is appended, then the answer or the
     * apology. `sent` is the user message `askQuestion` builds from the
     * question and the current text and summary; `answer` is what it did.
     */
    method HandleAskQuestion(question: string, answer: Result<string, string>) returns (sent: string)
      requires Valid()
      modifies this
      ensures Valid()
      ensures State() == AfterQuestion(old(State()), question, answer)
      ensures sent == QuestionPrompt(question, extractedText, summary)
    {
      QuestionKeepsValid(State(), question, answer);
      chatMessages := chatMessages + [ChatMessage(User, question)];
      sent := QuestionPrompt(question, extractedText, summary);
      if answer.Success? {
        chatMessages := chatMessages + [ChatMessage(Assistant, answer.value)];
      } else {
        chatMessages := chatMessages + [ChatMessage(Assistant, AnswerApology)];
      }
    }

    /** `handleHistoryItemSelect`: the item is shown again with a fresh chat; the history is untouched. */
    method HandleHistoryItemSelect(item: HistoryItem)
      requires Valid()
      modifies this
      ensures Valid()
      ensures State() == AfterSelect(old(State()), item)
    {
      SelectKeepsValid(State(), item);
      currentImage := Some(item.imageUrl);
      extractedText := item.text;
      summary := item.summary;
      status := Complete;
      chatMessages := [ChatMessage(Assistant, LoadedGreeting)];
      isHistoryOpen := false;
    }

    /** The reset button of the progress panel: back to `idle`, nothing else changes. */
    method Reset()
      requires Valid()
      modifies this
      ensures Valid()
      ensures State() == old(State()).(status := Idle)
    {
      status := Idle;
    }
  }
}
