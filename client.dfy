/**
 * `GroqClient.generate_response` with `stream=False`, and `get_response`,
 * which assembles a system prompt, the history and the new prompt and asks
 * for a non-streamed answer.  With `stream=True`, `generate_response` hands
 * back the generator of `StreamRelay.GenerateResponseStream` unchanged.
 */
module Client {
  import opened Wrappers
  import opened AsciiText
  import opened Messages
  import opened Greetings
  import opened StreamRelay
  import opened Slices

  /** The text returned, and the request sent to the remote service if one was sent. */
  datatype Reply = Reply(text: string, request: Option<Request>)

  /** The text returned when the request raises. */
  function ErrorText(message: string): string
  {
    "I encountered an error: " + message + ". Please try again."
  }

  /** The error text names the exception's message verbatim: different messages give different texts. */
  lemma {:induction false} ErrorTextInjective(m: string, n: string)
    requires ErrorText(m) == ErrorText(n)
    ensures m == n
  {
    CancelAround("I encountered an error: ", m, n, ". Please try again.");
  }

  /** What `generate_response(messages, stream=False)` returns, given the service's answer. */
  function ReplySpec(messages: seq<Turn>, answer: Completion): Reply
  {
    var converted := Converted(messages);
    match CannedAnswer(converted)
    case Some(text) => Reply(text, None)
    case None =>
      var request := Some(Request(Model, converted, false, ChatMaxTokens));
      match answer
      case Completed(content) => Reply(content, request)
      case Failed(e) => Reply(ErrorText(e), request)
  }

  /** `generate_response(messages, stream=False)` */
  method GenerateResponse(messages: seq<Turn>, answer: Completion) returns (reply: Reply)
    ensures reply == ReplySpec(messages, answer)
  {
    var groqMessages := ConvertMessages(messages);
    var canned := DetectCanned(groqMessages);
    if canned.Some? {
      return Reply(canned.value, None);
    }
    var request := Request(Model, groqMessages, false, ChatMaxTokens);
    match answer {
      case Completed(content) =>
        reply := Reply(content, Some(request));
      case Failed(e) =>
        reply := Reply(ErrorText(e), Some(request));
    }
  }

  /**
   * A canned answer is returned as it is and the service is not contacted;
   * otherwise exactly one non-streaming request carries the converted
   * messages, and the reply is the service's text or the error text.
   */
  lemma {:induction false} ReplyCases(messages: seq<Turn>, answer: Completion)
    ensures var r := ReplySpec(messages, answer);
            var canned := CannedAnswer(Converted(messages));
            && (r.request == None <==> canned.Some?)
            && (canned.Some? ==> r.text == canned.value && r.text != "")
            && (canned.None? ==> r.request == Some(Request(Model, Converted(messages), false, ChatMaxTokens)))
            && (canned.None? && answer.Completed? ==> r.text == answer.content)
            && (canned.None? && answer.Failed? ==> r.text == ErrorText(answer.error))
  {
  }

  /**
   * Both generation paths contact the service under the same condition and
   * with the same messages; when they do not, the streamed fragments hold
   * exactly the words of the non-streamed text.
   */
  lemma {:induction false} StreamAgreesWithReply(messages: seq<Turn>, start: int, events: seq<StreamEvent>, answer: Completion)
    ensures var s := StreamSpec(messages, start, events);
            var r := ReplySpec(messages, answer);
            && (s.request == None <==> r.request == None)
            && (s.request != None ==> s.request.value.messages == r.request.value.messages
                                      && s.request.value.stream && !r.request.value.stream)
            && (s.request != None ==> s.request.value == r.request.value.(stream := true))
            && (s.request == None ==> Split(Concat(s.fragments)) == Split(r.text))
  {
    if CannedAnswer(Converted(messages)).Some? {
      StreamCanned(messages, start, events, start, events);
    }
  }

  // `get_response`

  /** The fixed opening of `get_response`'s system prompt. */
  const PromptPreamble: string :=
    "You are a helpful assistant. "
    + "If 'specific', be brief and to-the-point and answer in 3-4 sentences."
    + "If 'detailed', provide comprehensive, elaborate answers with examples in 10-12 sentences.\n\n"
    + "Respond in a "

  const PromptClosing: string := " manner."

  /** The system prompt of `get_response`, which names the answer mode verbatim. */
  function SystemPrompt(answerMode: string): string
  {
    PromptPreamble + answerMode + PromptClosing
  }

  /** Different answer modes give different system prompts. */
  lemma {:induction false} SystemPromptInjective(a: string, b: string)
    requires SystemPrompt(a) == SystemPrompt(b)
    ensures a == b
  {
    CancelAround(PromptPreamble, a, b, PromptClosing);
  }

  /** A history item as `get_response` copies it: its role (default `user`) and its content (default empty). */
  function HistoryRecord(item: Dict): (d: Dict)
    ensures d.Keys == {"role", "content"}
    ensures d["role"] == Get(item, "role", "user") && d["content"] == Get(item, "content", "")
  {
    RoleContent(Get(item, "role", "user"), Get(item, "content", ""))
  }

  /** The list `get_response` hands to `generate_response`. */
  function ResponseMessages(prompt: string, history: seq<Dict>, answerMode: string): (ms: seq<Dict>)
    ensures |ms| == |history| + 2
    ensures ms[0] == RoleContent("system", SystemPrompt(answerMode))
    ensures forall i :: 0 <= i < |history| ==> ms[i + 1] == HistoryRecord(history[i])
    ensures ms[|ms| - 1] == RoleContent("user", prompt)
  {
    [RoleContent("system", SystemPrompt(answerMode))]
    + seq(|history|, i requires 0 <= i < |history| => HistoryRecord(history[i]))
    + [RoleContent("user", prompt)]
  }

  /** The answer mode `get_response` uses when its caller names none. */
  const DefaultAnswerMode: string := "specific"

  /**
   * `get_response`: `answer` stands for what the service would answer; it
   * comes before `answerMode` so that the mode can keep its default.
   */
  method GetResponse(prompt: string, history: seq<Dict>, answer: Completion, answerMode: string := DefaultAnswerMode)
    returns (reply: Reply)
    ensures reply == ReplySpec(AsTurns(ResponseMessages(prompt, history, answerMode)), answer)
  {
    var messages: seq<Dict> := [RoleContent("system", SystemPrompt(answerMode))];
    for i := 0 to |history|
      invariant |messages| == i + 1
      invariant messages[0] == RoleContent("system", SystemPrompt(answerMode))
      invariant forall k :: 0 <= k < i ==> messages[k + 1] == HistoryRecord(history[k])
    {
      var item := history[i];
      var role := Get(item, "role", "user");
      messages := messages + [RoleContent(role, Get(item, "content", ""))];
    }
    messages := messages + [RoleContent("user", prompt)];
    assert messages == ResponseMessages(prompt, history, answerMode);
    reply := GenerateResponse(AsTurns(messages), answer);
  }

  /**
   * A prompt with a canned answer gets that answer without a request;
   * any other prompt sends the system prompt, the copied history and the
   * prompt, in that order, in one non-streaming request.
   */
  lemma {:induction false} GetResponseCases(prompt: string, history: seq<Dict>, answerMode: string, answer: Completion)
    ensures var r := ReplySpec(AsTurns(ResponseMessages(prompt, history, answerMode)), answer);
            var quick := QuickResponse(prompt);
            && (quick.Some? ==> r == Reply(quick.value, None))
            && (quick.None? ==> r.request == Some(Request(Model, ResponseMessages(prompt, history, answerMode), false, ChatMaxTokens)))
            && (quick.None? && answer.Completed? ==> r.text == answer.content)
            && (quick.None? && answer.Failed? ==> r.text == ErrorText(answer.error))
  {
    var ms := ResponseMessages(prompt, history, answerMode);
    ConvertDicts(ms);
    assert LastContent(ms) == prompt;
    if QuickResponse(prompt).Some? {
      QuickResponseIsGreeting(prompt);
    }
  }
}
