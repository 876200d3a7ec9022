/**
 * What every agent shares: recording its reply in the conversation, and
 * turning the state into the message list the language model is called
 * with (a fixed system prompt, the user and assistant history, and a
 * context summary of the request and the earlier results).
 */
module AgentBase {
  import opened Optional
  import opened Text
  import opened AgentState

  /** The LangChain message classes the model is called with. */
  datatype LcMessage = SystemMessage(content: string) | HumanMessage(content: string) | AiMessage(content: string)

  /** `_add_message`: one assistant message from the agent `name` joins the end of the conversation. */
  method AddMessage(state: State, name: string, content: string)
    modifies state
    ensures state.Value() == old(state.Value()).(messages := old(state.messages) + [Message(Assistant, content, Some(name))])
  {
    var newMessage := Message(Assistant, content, Some(name));
    state.messages := state.messages + [newMessage];
  }

  // ---------------------------------------------------------------------------
  // The context summary
  // ---------------------------------------------------------------------------

  const ResultsHeader := "\n이전 작업 결과:"

  function RequestLine(userRequest: string): string {
    "사용자 요청: " + userRequest
  }

  function StatusLine(r: TaskResult): string {
    "- " + r.agent + ": " + StatusName(r.status)
  }

  /** The output line, the output cut to its first 200 characters. */
  function OutputLine(output: string): string {
    "  출력: " + Take(output, 200) + "..."
  }

  /** The lines one result contributes: its status, then its output when it has a non-empty one. */
  function ResultLines(r: TaskResult): seq<string> {
    [StatusLine(r)] + (if r.output.Some? && r.output.value != "" then [OutputLine(r.output.value)] else [])
  }

  function AllResultLines(rs: seq<TaskResult>): seq<string> {
    FlatMap(rs, ResultLines)
  }

  /** The `parts` list `_build_context` joins. */
  function ContextParts(userRequest: string, rs: seq<TaskResult>): seq<string> {
    (if userRequest != "" then [RequestLine(userRequest)] else [])
      + (if rs != [] then [ResultsHeader] + AllResultLines(rs) else [])
  }

  function Context(userRequest: string, rs: seq<TaskResult>): string {
    Join(ContextParts(userRequest, rs), "\n")
  }

  /** `_build_context`. */
  method BuildContext(state: State) returns (context: string)
    ensures context == Context(state.userRequest, state.taskResults)
  {
    var parts := BuildContextParts(state.userRequest, state.taskResults);
    context := Join(parts, "\n");
  }

  /** The `parts` list of `_build_context`: the request line, then the results header and the result lines. */
  method BuildContextParts(req: string, rs: seq<TaskResult>) returns (parts: seq<string>)
    ensures parts == ContextParts(req, rs)
  {
    parts := if req != "" then [RequestLine(req)] else [];
    ghost var pre := parts;
    if rs != [] {
      parts := AppendResultLines(parts + [ResultsHeader], rs);
      assert parts == pre + ([ResultsHeader] + AllResultLines(rs));
    } else {
      assert parts == pre + [];
    }
  }

  /** The loop of `_build_context` over the results. */
  method AppendResultLines(parts0: seq<string>, rs: seq<TaskResult>) returns (parts: seq<string>)
    ensures parts == parts0 + AllResultLines(rs)
  {
    parts := parts0;
    var k := 0;
    while k < |rs|
      invariant 0 <= k <= |rs|
      invariant parts == parts0 + AllResultLines(rs[..k])
    {
      var r := rs[k];
      ghost var before := parts;
      parts := parts + ResultLines(r);
      FlatMapExtend(rs, k, ResultLines, parts0, before);
      k := k + 1;
    }
    assert rs[..|rs|] == rs;
  }

  /** The context is empty exactly when there is neither a request nor any result. */
  lemma ContextEmptyIff(userRequest: string, rs: seq<TaskResult>)
    ensures Context(userRequest, rs) == "" <==> userRequest == "" && rs == []
  {
    var parts := ContextParts(userRequest, rs);
    if parts != [] {
      assert parts[0] != "";
      assert |Join(parts, "\n")| >= |parts[0]|;
    }
  }

  /** The request line comes first when there is a request; the results header follows it. */
  lemma ContextOrder(userRequest: string, rs: seq<TaskResult>)
    ensures userRequest != "" ==> ContextParts(userRequest, rs)[0] == RequestLine(userRequest)
    ensures rs != [] ==> ContextParts(userRequest, rs)[if userRequest != "" then 1 else 0] == ResultsHeader
  {
  }

  /** The number of results with a non-empty output. */
  function WithOutput(rs: seq<TaskResult>): nat {
    if rs == [] then 0
    else WithOutput(rs[..|rs| - 1]) + (if rs[|rs| - 1].output.Some? && rs[|rs| - 1].output.value != "" then 1 else 0)
  }

  /** One status line per result, and one output line for each result with output and no other. */
  lemma {:induction false} ResultLinesCount(rs: seq<TaskResult>)
    ensures |AllResultLines(rs)| == |rs| + WithOutput(rs)
  {
    if rs != [] {
      ResultLinesCount(rs[..|rs| - 1]);
      assert |ResultLines(rs[|rs| - 1])| == 1 + (if rs[|rs| - 1].output.Some? && rs[|rs| - 1].output.value != "" then 1 else 0);
    }
  }

  // ---------------------------------------------------------------------------
  // The message list
  // ---------------------------------------------------------------------------

  /** The history as model messages: user and assistant messages in order, system messages dropped. */
  function Converted(history: seq<Message>): (r: seq<LcMessage>)
    ensures |r| <= |history|
  {
    if history == [] then []
    else
      var m := history[|history| - 1];
      Converted(history[..|history| - 1])
        + (match m.role
           case User => [HumanMessage(m.content)]
           case Assistant => [AiMessage(m.content)]
           case System => [])
  }

  /** The number of messages that are not system messages. */
  function NonSystem(history: seq<Message>): nat {
    if history == [] then 0
    else NonSystem(history[..|history| - 1]) + (if history[|history| - 1].role == System then 0 else 1)
  }

  /** No converted message is a system message, and every non-system message is kept. */
  lemma {:induction false} ConvertedKeepsUserAndAssistant(history: seq<Message>)
    ensures forall k :: 0 <= k < |Converted(history)| ==> !Converted(history)[k].SystemMessage?
    ensures |Converted(history)| == NonSystem(history)
  {
    if history != [] {
      ConvertedKeepsUserAndAssistant(history[..|history| - 1]);
    }
  }

  /** `_build_messages`. */
  method BuildMessages(state: State, systemPrompt: string) returns (msgs: seq<LcMessage>)
    ensures msgs == [SystemMessage(systemPrompt)] + Converted(state.messages)
                    + (if Context(state.userRequest, state.taskResults) != ""
                       then [HumanMessage(Context(state.userRequest, state.taskResults))] else [])
  {
    msgs := [SystemMessage(systemPrompt)];
    var history := state.messages;
    var k := 0;
    while k < |history|
      invariant 0 <= k <= |history|
      invariant msgs == [SystemMessage(systemPrompt)] + Converted(history[..k])
    {
      var m := history[k];
      assert history[..k + 1][..k] == history[..k];
      if m.role == User {
        msgs := msgs + [HumanMessage(m.content)];
      } else if m.role == Assistant {
        msgs := msgs + [AiMessage(m.content)];
      }
      k := k + 1;
    }
    assert history[..|history|] == history;
    var context := BuildContext(state);
    if context != "" {
      msgs := msgs + [HumanMessage(context)];
    }
  }

  /** The list holds exactly one system message, at its head, and ends with the context when there is one. */
  lemma MessagesShape(history: seq<Message>, systemPrompt: string, context: string)
    ensures var msgs := [SystemMessage(systemPrompt)] + Converted(history) + (if context != "" then [HumanMessage(context)] else []);
            && msgs[0] == SystemMessage(systemPrompt)
            && (forall k :: 0 < k < |msgs| ==> !msgs[k].SystemMessage?)
            && |msgs| == 1 + NonSystem(history) + (if context != "" then 1 else 0)
            && (context != "" ==> msgs[|msgs| - 1] == HumanMessage(context))
  {
    ConvertedKeepsUserAndAssistant(history);
  }
}
