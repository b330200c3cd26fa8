/**
 * The deterministic rules of `AdvancedRAGAgent` in
 * `backend/rags/advanced_rag_agent.py`: the workflow graph, what each node
 * reads from and adds to the message list, the grading decision, and what
 * `invoke` builds and returns. The chat models are parameters: `respond`,
 * `model` and `gradeModel` stand for their replies. The retriever's output
 * enters only as the `"tool"` messages in a message list and as the update
 * of a `retrieve` visit, which `Fits` requires to hold no human message.
 */
module RagAgent {
  import opened Wrappers

  /**
   * A LangChain message: its id, its `type` (`"human"`, `"ai"`, `"tool"`, ...),
   * its content, and whether it asks for a tool call. Two messages are equal
   * when all four agree.
   */
  datatype Message = Message(id: string, kind: string, content: string, hasToolCalls: bool)

  /** The graph's nodes, with the two ends LangGraph adds. */
  datatype Node = Start | GenerateQueryOrRespond | Retrieve | RewriteQuestion | GenerateAnswer | End

  /** The fields each prompt template is filled with. */
  datatype Prompt =
    | GradePrompt(question: string, context: string)
    | RewritePrompt(question: string)
    | AnswerPrompt(question: string, context: string)

  // ---- the question and the context ----

  /** `state["messages"][0].content`; indexing an empty list raises. */
  function Question(messages: seq<Message>): Option<string> {
    if messages == [] then None else Some(messages[0].content)
  }

  /** Message `i` is of type `"tool"` and no later message is. */
  predicate LastToolAt(messages: seq<Message>, i: int) {
    0 <= i < |messages| && messages[i].kind == "tool"
    && forall j :: i < j < |messages| ==> messages[j].kind != "tool"
  }

  predicate NoTool(messages: seq<Message>) {
    forall j :: 0 <= j < |messages| ==> messages[j].kind != "tool"
  }

  /** The context the grading prompt and the answer prompt see: the last tool message's content, or `""`. */
  function ToolContext(messages: seq<Message>): (r: string)
    ensures forall i :: LastToolAt(messages, i) ==> r == messages[i].content
    ensures NoTool(messages) ==> r == ""
    decreases |messages|
  {
    if messages == [] then ""
    else if messages[|messages| - 1].kind == "tool" then messages[|messages| - 1].content
    else
      var earlier := messages[..|messages| - 1];
      assert forall i :: LastToolAt(messages, i) ==> LastToolAt(earlier, i);
      ToolContext(earlier)
  }

  /** The `for message in reversed(state["messages"])` loop that stops at the first tool message. */
  method LastToolContent(messages: seq<Message>) returns (context: string)
    ensures context == ToolContext(messages)
  {
    context := "";
    var i := |messages|;
    while i > 0
      invariant 0 <= i <= |messages|
      invariant forall j :: i <= j < |messages| ==> messages[j].kind != "tool"
      invariant context == ""
    {
      i := i - 1;
      if messages[i].kind == "tool" {
        context := messages[i].content;
        assert LastToolAt(messages, i);
        return;
      }
    }
    assert NoTool(messages);
  }

  // ---- the nodes ----

  /** The routing rule of `grade_documents`: only the exact score `"yes"` leads to an answer. */
  function RouteFor(binaryScore: string): (r: Node)
    ensures r == GenerateAnswer <==> binaryScore == "yes"
    ensures r == GenerateAnswer || r == RewriteQuestion
  {
    if binaryScore == "yes" then GenerateAnswer else RewriteQuestion
  }

  /**
   * `generate_query_or_respond`: the tool-bound model sees the whole message
   * list, and its one reply is appended.
   */
  function QueryOrRespond(messages: seq<Message>, respond: seq<Message> -> Message): seq<Message> {
    [respond(messages)]
  }

  /**
   * After `generate_query_or_respond`, `tools_condition` looks at the reply
   * just appended: the run goes to `retrieve` exactly when that reply asks for
   * a tool call, and ends otherwise.
   */
  lemma ToolsConditionReadsReply(messages: seq<Message>, respond: seq<Message> -> Message, binaryScore: string)
    ensures var after := messages + QueryOrRespond(messages, respond);
      Next(GenerateQueryOrRespond, after[|after| - 1].hasToolCalls, binaryScore)
        == (if respond(messages).hasToolCalls then Some(Retrieve) else Some(End))
  {
  }

  /** What `grade_documents` asks the grading model and where it routes. */
  datatype Graded = Graded(prompt: Prompt, route: Node)

  /** `grade_documents`: grade the last tool message against the first message's content. */
  method GradeDocuments(messages: seq<Message>, gradeModel: Prompt -> string) returns (r: Option<Graded>)
    ensures r.None? <==> messages == []
    ensures r.Some? ==> r.value.prompt == GradePrompt(Question(messages).value, ToolContext(messages))
    ensures r.Some? ==> (r.value.route == GenerateAnswer <==> gradeModel(r.value.prompt) == "yes")
    ensures r.Some? ==> r.value.route in Edges(Retrieve)
  {
    if messages == [] {
      return None;
    }
    var question := Question(messages).value;
    var context := LastToolContent(messages);
    var prompt := GradePrompt(question, context);
    return Some(Graded(prompt, RouteFor(gradeModel(prompt))));
  }

  /** What a node sends to the chat model and the messages it returns to be appended. */
  datatype Step = Step(prompt: Prompt, update: seq<Message>)

  /** `rewrite_question`: the model's reply to the rewrite prompt comes back as one user message. */
  function Rewrite(messages: seq<Message>, model: Prompt -> Message, newId: string): (r: Option<Step>)
    ensures r.None? <==> messages == []
    ensures r.Some? ==> r.value.prompt == RewritePrompt(Question(messages).value)
    ensures r.Some? ==> |r.value.update| == 1 && r.value.update[0].kind == "human"
    ensures r.Some? ==> r.value.update[0].content == model(r.value.prompt).content
  {
    if messages == [] then None
    else
      var prompt := RewritePrompt(Question(messages).value);
      Some(Step(prompt, [Message(newId, "human", model(prompt).content, false)]))
  }

  /** `generate_answer`: answer the first message's content from the last tool message's content. */
  method Answer(messages: seq<Message>, model: Prompt -> Message) returns (r: Option<Step>)
    ensures r.None? <==> messages == []
    ensures r.Some? ==> r.value.prompt == AnswerPrompt(Question(messages).value, ToolContext(messages))
    ensures r.Some? ==> r.value.update == [model(r.value.prompt)]
  {
    if messages == [] {
      return None;
    }
    var question := Question(messages).value;
    var context := LastToolContent(messages);
    var prompt := AnswerPrompt(question, context);
    return Some(Step(prompt, [model(prompt)]));
  }

  // ---- the graph ----

  /** The edges of `_build_graph`, read off its `add_edge` and `add_conditional_edges` calls. */
  function Edges(n: Node): set<Node> {
    match n
    case Start => {GenerateQueryOrRespond}
    case GenerateQueryOrRespond => {Retrieve, End}
    case Retrieve => {GenerateAnswer, RewriteQuestion}
    case RewriteQuestion => {GenerateQueryOrRespond}
    case GenerateAnswer => {End}
    case End => {}
  }

  /**
   * The node taken after `n`: `tools_condition` looks at whether the last
   * message asks for a tool call, `grade_documents` at the grading model's score.
   */
  function Next(n: Node, lastHasToolCalls: bool, binaryScore: string): (r: Option<Node>)
    ensures r.None? <==> n == End
    ensures r.Some? ==> r.value in Edges(n)
  {
    match n
    case Start => Some(GenerateQueryOrRespond)
    case GenerateQueryOrRespond => if lastHasToolCalls then Some(Retrieve) else Some(End)
    case Retrieve => Some(RouteFor(binaryScore))
    case RewriteQuestion => Some(GenerateQueryOrRespond)
    case GenerateAnswer => Some(End)
    case End => None
  }

  /** Every edge is taken for some tool-call flag and score, so the edges are exactly the possible steps. */
  lemma EveryEdgeTaken(n: Node, m: Node)
    requires m in Edges(n)
    ensures exists calls: bool, score: string :: Next(n, calls, score) == Some(m)
  {
    if n == Retrieve {
      if m == GenerateAnswer {
        assert Next(n, false, "yes") == Some(m);
      } else {
        assert Next(n, false, "no") == Some(m);
      }
    } else if n == GenerateQueryOrRespond {
      assert Next(n, m == Retrieve, "") == Some(m);
    } else {
      assert Next(n, false, "") == Some(m);
    }
  }

  /** A path through the graph that begins at START. */
  predicate IsRun(path: seq<Node>) {
    |path| > 0 && path[0] == Start
    && forall i :: 0 < i < |path| ==> path[i] in Edges(path[i - 1])
  }

  lemma EdgeAt(path: seq<Node>, k: int)
    requires IsRun(path) && 0 < k < |path|
    ensures path[k] in Edges(path[k - 1])
  {
  }

  /** `generate_answer` is entered only straight from `retrieve`, and is followed only by END. */
  lemma AnswerOnlyAfterRetrieve(path: seq<Node>, i: int)
    requires IsRun(path) && 0 <= i < |path| && path[i] == GenerateAnswer
    ensures i > 0 && path[i - 1] == Retrieve
    ensures i + 1 < |path| ==> path[i + 1] == End && i + 2 == |path|
  {
    assert path[i] in Edges(path[i - 1]);
    if i + 2 < |path| {
      assert path[i + 1] in Edges(path[i]);
      EdgeAt(path, i + 2);
      assert false;
    }
  }

  /** How often `n` occurs in `path`. */
  function Count(path: seq<Node>, n: Node): nat
    decreases |path|
  {
    if path == [] then 0 else Count(path[..|path| - 1], n) + (if path[|path| - 1] == n then 1 else 0)
  }

  /** Every rewrite follows a retrieval of its own, so a run never rewrites more often than it retrieves. */
  lemma {:induction false} RewritesFollowRetrievals(path: seq<Node>)
    requires IsRun(path)
    ensures Count(path, RewriteQuestion) + (if path[|path| - 1] == Retrieve then 1 else 0) <= Count(path, Retrieve)
    decreases |path|
  {
    if |path| > 1 {
      var earlier := path[..|path| - 1];
      assert IsRun(earlier);
      RewritesFollowRetrievals(earlier);
      assert path[|path| - 1] in Edges(earlier[|earlier| - 1]);
    }
  }

  // ---- invoke ----

  /** The run configuration `invoke` builds. */
  datatype Config = NoConfig | Configurable(threadId: string)

  /** `thread_id` as Python sees it: `None`, or a string that is falsy when empty. */
  predicate Truthy(threadId: Option<string>) {
    threadId.Some? && threadId.value != ""
  }

  /** `config = {}`, replaced by `{"configurable": {"thread_id": thread_id}}` when `thread_id` is truthy. */
  method BuildConfig(threadId: Option<string>) returns (config: Config)
    ensures config.Configurable? <==> Truthy(threadId)
    ensures config.Configurable? ==> config.threadId == threadId.value
  {
    config := NoConfig;
    if threadId.Some? && threadId.value != "" {
      config := Configurable(threadId.value);
    }
  }

  /** The messages of type `"human"` that differ from `first`. */
  function CountOther(messages: seq<Message>, first: Message): (r: nat)
    ensures r <= |messages|
    decreases |messages|
  {
    if messages == [] then 0
    else (if messages[0].kind == "human" && messages[0] != first then 1 else 0) + CountOther(messages[1..], first)
  }

  /** `num_rewrites`: the human messages other than the first; the first itself is never counted. */
  function NumRewrites(messages: seq<Message>): (r: nat)
    ensures messages == [] ==> r == 0
    ensures messages != [] ==> r < |messages|
  {
    if messages == [] then 0
    else
      assert messages == [messages[0]] + messages[1..];
      CountOther(messages, messages[0])
  }

  lemma {:induction false} CountOtherAppend(a: seq<Message>, b: seq<Message>, first: Message)
    ensures CountOther(a + b, first) == CountOther(a, first) + CountOther(b, first)
    decreases |a|
  {
    if a == [] {
      assert a + b == b;
    } else {
      assert (a + b)[1..] == a[1..] + b;
      CountOtherAppend(a[1..], b, first);
    }
  }

  /** The reply `invoke` returns. */
  datatype Reply = Reply(answer: string, messages: seq<Message>, numRewrites: nat, threadId: Option<string>)

  /** The reply built from the graph's final messages; an empty final list makes `[-1]` raise. */
  function InvokeReply(threadId: Option<string>, result: seq<Message>): (r: Option<Reply>)
    ensures r.None? <==> result == []
    ensures r.Some? ==> r.value.answer == result[|result| - 1].content && r.value.threadId == threadId
    ensures r.Some? ==> r.value.messages == result && r.value.numRewrites == NumRewrites(result)
    ensures r.Some? ==> r.value.numRewrites < |result|
  {
    if result == [] then None
    else Some(Reply(result[|result| - 1].content, result, NumRewrites(result), threadId))
  }

  /** One node visit of a run: the node and the messages it appended. */
  datatype Visit = Visit(node: Node, update: seq<Message>)

  /**
   * The messages a visit appends in a run: none for the two ends, one human
   * message with a new id for a rewrite, and only non-human messages (the
   * model's replies, the retriever's tool messages) for the other nodes.
   */
  predicate Fits(v: Visit, first: Message) {
    match v.node
    case Start => v.update == []
    case End => v.update == []
    case RewriteQuestion => |v.update| == 1 && v.update[0].kind == "human" && v.update[0].id != first.id
    case _ => forall m :: m in v.update ==> m.kind != "human"
  }

  function Appended(visits: seq<Visit>): seq<Message>
    decreases |visits|
  {
    if visits == [] then [] else Appended(visits[..|visits| - 1]) + visits[|visits| - 1].update
  }

  function Nodes(visits: seq<Visit>): seq<Node>
    decreases |visits|
  {
    if visits == [] then [] else Nodes(visits[..|visits| - 1]) + [visits[|visits| - 1].node]
  }

  /**
   * In a run of a new thread that starts from the question alone,
   * `num_rewrites` is the number of `rewrite_question` visits.
   */
  lemma NumRewritesCountsRewrites(first: Message, visits: seq<Visit>)
    requires forall i :: 0 <= i < |visits| ==> Fits(visits[i], first)
    ensures NumRewrites([first] + Appended(visits)) == Count(Nodes(visits), RewriteQuestion)
  {
    var ms := [first] + Appended(visits);
    assert ms[1..] == Appended(visits);
    assert [first] + ms[1..] == ms;
    CountOtherAppend([first], ms[1..], first);
    assert [first][1..] == [];
    AppendedCountsRewrites(first, visits);
  }

  /** The human messages other than the question in what the visits appended, one per rewrite. */
  lemma {:induction false} AppendedCountsRewrites(first: Message, visits: seq<Visit>)
    requires forall i :: 0 <= i < |visits| ==> Fits(visits[i], first)
    ensures CountOther(Appended(visits), first) == Count(Nodes(visits), RewriteQuestion)
    decreases |visits|
  {
    if visits != [] {
      var earlier := visits[..|visits| - 1];
      var v := visits[|visits| - 1];
      AppendedCountsRewrites(first, earlier);
      assert Nodes(visits)[..|Nodes(visits)| - 1] == Nodes(earlier);
      CountOtherAppend(Appended(earlier), v.update, first);
      VisitCountsItself(v, first);
    }
  }

  /** The message `rewrite_question` appends fits a run: one human message, with an id of its own. */
  lemma RewriteFits(messages: seq<Message>, model: Prompt -> Message, newId: string, first: Message)
    requires messages != [] && newId != first.id
    ensures Fits(Visit(RewriteQuestion, Rewrite(messages, model, newId).value.update), first)
  {
  }

  /** The reply `generate_answer` appends fits a run whenever the model's reply is not a human message. */
  lemma AnswerFits(reply: Message, first: Message)
    requires reply.kind != "human"
    ensures Fits(Visit(GenerateAnswer, [reply]), first)
  {
  }

  /** The reply `generate_query_or_respond` appends fits a run whenever it is not a human message. */
  lemma QueryOrRespondFits(messages: seq<Message>, respond: seq<Message> -> Message, first: Message)
    requires respond(messages).kind != "human"
    ensures Fits(Visit(GenerateQueryOrRespond, QueryOrRespond(messages, respond)), first)
  {
  }

  /** A visit that fits adds one counted message exactly when it is a rewrite. */
  lemma VisitCountsItself(v: Visit, first: Message)
    requires Fits(v, first)
    ensures CountOther(v.update, first) == (if v.node == RewriteQuestion then 1 else 0)
  {
    if v.node == RewriteQuestion {
      assert v.update[0] != first;
      assert v.update[1..] == [];
    } else {
      UpdateWithoutHumansUncounted(v.update, first);
    }
  }

  lemma {:induction false} UpdateWithoutHumansUncounted(update: seq<Message>, first: Message)
    requires forall m :: m in update ==> m.kind != "human"
    ensures CountOther(update, first) == 0
    decreases |update|
  {
    if update != [] {
      assert update[0] in update;
      UpdateWithoutHumansUncounted(update[1..], first);
    }
  }
}
