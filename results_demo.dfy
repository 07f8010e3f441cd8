/**
 * The chat tab of `ResultsDemo.tsx`: a list of messages that opens with one
 * system greeting, the input field, and `handleSendMessage`, which appends
 * the question and a placeholder and then puts the reply of `askQuestion`,
 * or the message of what it threw, in the placeholder's place.
 */
module ResultsDemo {
  import opened Basics
  import opened JsString
  import opened Transport
  import opened AiService

  const Greeting: string := "How can I help you understand this content better?"
  const Thinking: string := "Thinking..."
  const SorryFallback: string := "Sorry, I could not process your question at this time."

  datatype Speaker = UserSide | SystemSide
  datatype Message = Message(role: Speaker, content: string)
  datatype Tab = SummaryTab | ChatTab

  /** The component's `useState` fields. */
  datatype DemoState = DemoState(activeTab: Tab, chatMessages: seq<Message>, inputMessage: string)

  const InitialState: DemoState := DemoState(SummaryTab, [Message(SystemSide, Greeting)], [])

  /**
   * The chat is the greeting followed by question-and-reply pairs: each
   * question from the user, each reply from the system side.
   */
  predicate ValidState(s: DemoState) {
    && |s.chatMessages| % 2 == 1
    && s.chatMessages[0] == Message(SystemSide, Greeting)
    && (forall k :: 0 <= k < |s.chatMessages| / 2 ==> s.chatMessages[2 * k + 1].role == UserSide)
    && (forall k :: 0 <= k < |s.chatMessages| / 2 ==> s.chatMessages[2 * k + 2].role == SystemSide)
  }

  /** The content shown for what `askQuestion` did: its answer, or the caught value's message. */
  function ReplyText(reply: Result<string, Thrown>): string {
    if reply.Success? then reply.value else Displayed(reply.error, SorryFallback)
  }

  /** `[...prev.slice(0, -1), m]`: the last message is dropped (an empty list stays empty) and `m` appended. */
  function ReplaceLast(chat: seq<Message>, m: Message): (r: seq<Message>)
    ensures chat != [] ==> |r| == |chat| && r[..|chat| - 1] == chat[..|chat| - 1] && r[|chat| - 1] == m
    ensures chat == [] ==> r == [m]
  {
    (if chat == [] then [] else chat[..|chat| - 1]) + [m]
  }

  /** The state at the `await`: the question and then the placeholder appended, the input cleared. */
  function Submitted(s: DemoState): DemoState {
    s.(chatMessages := s.chatMessages + [Message(UserSide, s.inputMessage)] + [Message(SystemSide, Thinking)],
       inputMessage := [])
  }

  /** The state `handleSendMessage` leaves behind, given what `askQuestion` did. */
  function AfterSend(s: DemoState, reply: Result<string, Thrown>): DemoState {
    if IsBlank(s.inputMessage) then s
    else
      var t := Submitted(s);
      t.(chatMessages := ReplaceLast(t.chatMessages, Message(SystemSide, ReplyText(reply))))
  }

  /** The chat starts with exactly the system greeting, on the summary tab, with an empty input. */
  lemma StartsWithGreeting()
    ensures ValidState(InitialState)
    ensures |InitialState.chatMessages| == 1 && InitialState.chatMessages[0].content == Greeting
  {
  }

  /** A blank input (after trimming) changes nothing at all. */
  lemma BlankInputIgnored(s: DemoState, reply: Result<string, Thrown>)
    requires forall i :: 0 <= i < |s.inputMessage| ==> IsWhitespace(s.inputMessage[i])
    ensures AfterSend(s, reply) == s
  {
    BlankIffAllWhitespace(s.inputMessage);
  }

  /** While waiting, the question and then the placeholder follow the old messages, and the input is empty. */
  lemma SubmitAppendsQuestionAndPlaceholder(s: DemoState)
    ensures var t := Submitted(s);
      && |t.chatMessages| == |s.chatMessages| + 2
      && t.chatMessages[..|s.chatMessages|] == s.chatMessages
      && t.chatMessages[|s.chatMessages|] == Message(UserSide, s.inputMessage)
      && t.chatMessages[|s.chatMessages| + 1] == Message(SystemSide, Thinking)
      && t.inputMessage == [] && t.activeTab == s.activeTab
  {
  }

  /**
   * A sent question grows the chat by two: every earlier message stays, the
   * question follows them, and the placeholder has been replaced by the reply.
   */
  lemma SendGrowsByTwo(s: DemoState, reply: Result<string, Thrown>)
    requires !IsBlank(s.inputMessage)
    ensures var t := AfterSend(s, reply);
      && |t.chatMessages| == |s.chatMessages| + 2
      && t.chatMessages[..|s.chatMessages|] == s.chatMessages
      && t.chatMessages[|s.chatMessages|] == Message(UserSide, s.inputMessage)
      && t.chatMessages[|s.chatMessages| + 1] == Message(SystemSide, ReplyText(reply))
      && t.inputMessage == [] && t.activeTab == s.activeTab
  {
    var u := Submitted(s).chatMessages;
    SubmitAppendsQuestionAndPlaceholder(s);
    assert u[..|u| - 1][..|s.chatMessages|] == s.chatMessages;
  }

  /** Every send keeps the greeting first and the chat in question-and-reply pairs. */
  lemma SendKeepsValid(s: DemoState, reply: Result<string, Thrown>)
    requires ValidState(s)
    ensures ValidState(AfterSend(s, reply))
  {
    if !IsBlank(s.inputMessage) {
      SendGrowsByTwo(s, reply);
      var c, d := s.chatMessages, AfterSend(s, reply).chatMessages;
      forall k | 0 <= k < |d| / 2
        ensures d[2 * k + 1].role == UserSide && d[2 * k + 2].role == SystemSide
      {
        if k < |c| / 2 {
          assert d[2 * k + 1] == d[..|c|][2 * k + 1] == c[2 * k + 1];
          assert d[2 * k + 2] == d[..|c|][2 * k + 2] == c[2 * k + 2];
        } else {
          assert 2 * k + 1 == |c|;
        }
      }
      assert d[0] == d[..|c|][0];
    }
  }

  /**
   * With `askQuestion` plugged in: the reply is the stripped completion or
   * its fixed failure message.
   */
  lemma ServiceReplyShown(question: string, originalText: string, enhancedText: string, call: Option<FetchReply>)
    ensures var r := AskQuestion(question, originalText, enhancedText, call).result;
      var reply: Result<string, Thrown> := if r.Success? then Success(r.value) else Failure(ErrorValue(r.error));
      && (r.Success? ==> ReplyText(reply) == ThinkTags.StripThinkContent(call.value.content.value))
      && (r.Failure? ==> ReplyText(reply) == AnswerFailed)
  {
  }

  class Demo {
    const enhancedText: string
    const originalText: string
    var activeTab: Tab
    var chatMessages: seq<Message>
    var inputMessage: string

    function State(): DemoState
      reads this
    {
      DemoState(activeTab, chatMessages, inputMessage)
    }

    ghost predicate Valid()
      reads this
    {
      ValidState(State())
    }

    /** The component mounted with its two props. */
    constructor (enhancedText: string, originalText: string)
      ensures Valid()
      ensures State() == InitialState
      ensures this.enhancedText == enhancedText && this.originalText == originalText
    {
      this.enhancedText := enhancedText;
      this.originalText := originalText;
      activeTab := SummaryTab;
      chatMessages := [Message(SystemSide, Greeting)];
      inputMessage := [];
    }

    /** A tab button. */
    method SetActiveTab(tab: Tab)
      requires Valid()
      modifies this
      ensures Valid()
      ensures State() == old(State()).(activeTab := tab)
    {
      activeTab := tab;
    }

    /** The input field's `onChange`. */
    method SetInputMessage(text: string)
      requires Valid()
      modifies this
      ensures Valid()
      ensures State() == old(State()).(inputMessage := text)
    {
      inputMessage := text;
    }

    /**
     * `handleSendMessage`: `reply` is what `askQuestion` did; `sent` is the
     * user message it was asked with, from the input before it was cleared,
     * or None when the input was blank and nothing was asked.
     */
    method HandleSendMessage(reply: Result<string, Thrown>) returns (sent: Option<string>)
      requires Valid()
      modifies this
      ensures Valid()
      ensures State() == AfterSend(old(State()), reply)
      ensures IsBlank(old(inputMessage)) <==> sent.None?
      ensures sent.Some? ==> sent.value == QuestionPrompt(old(inputMessage), originalText, enhancedText)
    {
      SendKeepsValid(State(), reply);
      if IsBlank(inputMessage) {
        return None;
      }
      var question := inputMessage;
      chatMessages := chatMessages + [Message(UserSide, inputMessage)];
      inputMessage := [];
      chatMessages := chatMessages + [Message(SystemSide, Thinking)];
      sent := Some(QuestionPrompt(question, originalText, enhancedText));
      assert State() == Submitted(old(State()));
      chatMessages := chatMessages[..|chatMessages| - 1] + [Message(SystemSide, ReplyText(reply))];
    }
  }
}
