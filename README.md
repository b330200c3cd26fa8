# Streaming decoder and agent routing, modelled in Dafny

This project models two parts of a retrieval-augmented question-answering app.

**The browser's stream handlers** (`StreamingTest` in `frontend/src/StreamingTest.jsx`).
- `handleStreamWithFetch` reads a chunked response body and appends each decoded chunk to a text `buffer`.
  - It splits the buffer on the blank line `"\n\n"` and keeps the last, unterminated piece for the next read.
  - Every other piece is a frame. A frame counts only if the whole frame starts with `data: `.
  - A counted frame's payload drives a fold over the shown response:
    - `token` appends its `content`;
    - `error` appends `"\n\nError: "` and the error;
    - `complete`, other types and payloads that fail to parse change nothing, and decoding goes on.
  - A thrown error replaces the response with `Error: ` and its message. The streaming flag is cleared in `finally`.
- The older `handleStream` splits every chunk on `'\n'` by itself and carries nothing between reads. Its `complete` and `error` events clear the streaming flag.

**The agent's deterministic rules** (`AdvancedRAGAgent` in `backend/rags/advanced_rag_agent.py`).
- The workflow graph, as a transition function over its five nodes and END.
- The grading decision. Only the exact score `"yes"` leads to an answer.
- The context: the content of the last tool message, or `""` when there is none.
- The first message as the question.
- The messages each node appends.
- What `invoke` builds and returns: the config, `num_rewrites`, the answer and the thread id.

The project has five modules.
- `Wrappers`: `Option`.
- `Text`: JavaScript's `split` with a string separator, plus `startsWith` and `trim`.
- `Sse`: frames, payloads and the two folds.
- `StreamingTest`: the component as a class with both handlers.
- `RagAgent`: the agent's rules.

## How the model takes the source

- **Split.** `split` is modelled recursively through `indexOf`. It is proved to cut at leftmost, non-overlapping occurrences (`Text.IndexOfIsLeftmost`). It is never empty, and `Text.Join` undoes it.
- **Frame loop.** The component's state is a class. Its fields are `question`, `response` (`streamedResponse`), `streaming` (`isStreaming`) and `buffer`.
  - Two ghost fields record the text received and the frames handed on.
  - The class invariant `Valid` says the handed-on frames followed by the buffer are the pieces of the received text.
  - `FeedChunk` performs one read: append, split, keep the last piece, then a loop over the frames.
  - `ReadLoop` is the `while (true)` read loop.
  - The methods are proved against the specification functions `Sse.AbsorbAll`, `Sse.Fold`, `Sse.FoldChunks`, `StreamingTest.FetchResponse` and `StreamingTest.StreamOutcome`.
- **Network.** The network is a `Transport` value. It says whether the request was rejected or answered (with `response.ok`), gives the already-decoded text of each successful read, and says how reading ended.
- **`JSON.parse`.** It becomes a `Parser` parameter that returns the three fields the handlers read, or `None` when parsing, or reading `.type` of `null`, throws.
  - A field is `Undefined`, a string, or another JSON value with the text that `+` gives it.
  - So a token without `content` appends `"undefined"`, as JavaScript does.
- **Agent.** The chat models and the grading model are function parameters: `respond`, `model` and `gradeModel` stand for their replies. The retriever is not a parameter. Its output enters as the `"tool"` messages already in a node's message list, and as the update of a `retrieve` visit, which a run only requires to hold no human message.

What the code does, and so what the model does:
- There is no terminal guard. Tokens after `complete` are still appended, and `error` does not stop decoding (`Sse.FoldIsTranscript`, `Sse.InertFrameDropped`).
- The `data: ` test is on the whole frame, not on each line (`Sse.DataOnLaterLineIgnored`).
- Neither handler can cancel, and neither synthesizes an "ended unexpectedly" error.
- `handleStream` has no `finally`. On `done` the flag stays set unless a `complete` or `error` line was seen.
- `lines.pop() || ''` behaves like `lines.pop()`. `split` never returns an empty array (`Text.Split`), and `'' || ''` is `''`.

## Model

| member | source | states |
|---|---|---|
| Text.IndexOfIsLeftmost | frontend/src/StreamingTest.jsx:117 | `indexOf` returns the leftmost occurrence of the separator, and returns none exactly when the text does not contain it |
| Text.Split | frontend/src/StreamingTest.jsx:117-120 | splitting always yields at least one piece, so `lines.pop()` always has a piece to keep |
| Text.JoinSplit | frontend/src/StreamingTest.jsx:117 | joining the pieces of a split with the separator gives back the text that was split |
| Text.SplitPiecesFree | frontend/src/StreamingTest.jsx:117-120 | no piece of a split contains the separator |
| Text.SplitAppend | frontend/src/StreamingTest.jsx:116-120 | splitting `s + c` keeps every piece of `s` but the last and re-splits only that last piece with `c` appended, which is why carrying the remainder is sound |
| Text.StartsWith | frontend/src/StreamingTest.jsx:123 | definition: `s.startsWith(prefix)`, the prefix is no longer than the text and equals its first characters |
| Text.IsJsWhitespace | frontend/src/StreamingTest.jsx:86 | definition: the characters `trim` strips, the WhiteSpace and LineTerminator characters of the ECMAScript language specification |
| Text.Trim | frontend/src/StreamingTest.jsx:86 | definition: `trimEnd` of `trimStart`, the text without its leading and trailing whitespace |
| Text.TrimStart | frontend/src/StreamingTest.jsx:86 | the result is a suffix of the input, everything dropped is whitespace, and the result does not start with whitespace |
| Text.TrimEnd | frontend/src/StreamingTest.jsx:86 | the result is a prefix of the input, everything dropped is whitespace, and the result does not end with whitespace |
| Text.TrimEmptyIffBlank | frontend/src/StreamingTest.jsx:86 | `!question.trim()` holds exactly when every character of the question is whitespace |
| Sse.Frames | frontend/src/StreamingTest.jsx:117-120 | definition: the pieces of the split on `"\n\n"` other than the last, the `lines` left after the pop |
| Sse.Remainder | frontend/src/StreamingTest.jsx:117-120 | definition: the last piece of the split on `"\n\n"`, what `lines.pop()` keeps as the buffer, the empty-string fallback never being needed |
| Sse.Absorb | frontend/src/StreamingTest.jsx:116-120 | definition: one read appends the chunk to the buffer, hands on every piece of the split but the last, and keeps the last piece as the new buffer |
| Sse.AbsorbAll | frontend/src/StreamingTest.jsx:112-121 | definition: the reads absorbed in arrival order, from an empty buffer and no frames |
| Sse.AbsorbAllIsWholeText | frontend/src/StreamingTest.jsx:110-122 | after any sequence of reads, the frames handed on and the buffer are those of splitting the concatenated text at once |
| Sse.ChunkBoundariesIrrelevant | frontend/src/StreamingTest.jsx:116-122 | two chunkings of the same text, including one that cuts a delimiter in half, hand on the same frames and keep the same buffer |
| Sse.FramesThenRemainderIsText | frontend/src/StreamingTest.jsx:110-122 | the frames handed on, joined with `"\n\n"`, followed by the buffer, are exactly the received text, and the buffer contains no `"\n\n"` |
| Sse.CarryRemainder | frontend/src/StreamingTest.jsx:116-120 | if the handed-on frames followed by the buffer are the pieces of the received text, then after one more chunk they are again, once the new buffer's complete frames are handed on |
| Sse.Render | frontend/src/StreamingTest.jsx:128 | definition: the text `prev + v` appends for a payload field: `"undefined"` for a missing field, the string itself, or the rendering of another JSON value |
| Sse.Classify | frontend/src/StreamingTest.jsx:125-134 | definition: a payload that fails to parse is `Unparseable`; otherwise a `type` of exactly the string `token`, `complete` or `error` gives that event, carrying the rendered `content` or `error`, and any other `type` is `UnknownType` |
| Sse.Decode | frontend/src/StreamingTest.jsx:123-125 | definition: a frame that starts with `data: ` is classified by parsing the frame without its first six characters; any other frame is `NotData` |
| Sse.DecodeDataFrame | frontend/src/StreamingTest.jsx:123-125 | the payload of the frame `data: p` is exactly `p`, the frame without its first six characters |
| Sse.DataOnLaterLineIgnored | frontend/src/StreamingTest.jsx:123 | a frame whose first line is not a `data: ` line is ignored, even when a later line of it is one |
| Sse.Apply | frontend/src/StreamingTest.jsx:125-137 | definition: a token appends its content, an error appends `"\n\nError: "` and its message, and every other event leaves the response as it was |
| Sse.Fold | frontend/src/StreamingTest.jsx:122-138 | definition: the frames applied to the response one after the other, in order |
| Sse.FoldIsTranscript | frontend/src/StreamingTest.jsx:125-137 | the response is the starting text followed by what each frame shows, in order: the token's content, `"\n\nError: "` and the error, or nothing; nothing is removed and nothing after `complete` or `error` is suppressed |
| Sse.FoldAppend | frontend/src/StreamingTest.jsx:122-138 | folding the frames of two reads one after the other equals folding their concatenation |
| Sse.InertFrameDropped | frontend/src/StreamingTest.jsx:129-137 | removing a `complete`, unknown-type, unparseable or non-`data:` frame from anywhere in the stream leaves the response unchanged |
| Sse.ApplyLine | frontend/src/StreamingTest.jsx:51-64 | definition: in `handleStream`, a token appends its content, `complete` and `error` clear the flag, and every other line changes nothing |
| Sse.FoldLines | frontend/src/StreamingTest.jsx:51-66 | definition: the lines applied to the state one after the other, in order |
| Sse.ApplyChunk | frontend/src/StreamingTest.jsx:47-67 | definition: one read of `handleStream` is the fold of the chunk's own `'\n'` pieces, with nothing carried from earlier reads |
| Sse.FoldChunks | frontend/src/StreamingTest.jsx:44-68 | definition: the reads applied one after the other, in order |
| Sse.FlagClearedIffTerminal | frontend/src/StreamingTest.jsx:51-64 | in the unbuffered handler, a streaming state ends up with its flag clear exactly when one of the lines was a `complete` or `error` event |
| Sse.FlagClearedIffTerminalChunk | frontend/src/StreamingTest.jsx:44-68 | over whole reads of `handleStream`, a streaming state ends with its flag clear exactly when some line of some read was a `complete` or `error` event |
| Sse.FlagStaysClear | frontend/src/StreamingTest.jsx:58-64 | in the unbuffered handler, once the flag is clear no line sets it again |
| StreamingTest.FetchResponse | frontend/src/StreamingTest.jsx:91-144 | definition: a rejected request shows `Error: ` and its message, a response that is not ok shows `Error: Stream request failed`, a failed read shows `Error: ` and its message in place of what was shown, and a stream that ends normally shows the fold of the frames handed on |
| StreamingTest.StreamOutcome | frontend/src/StreamingTest.jsx:23-81 | definition: a rejected request or a response that is not ok shows `Error: Failed to stream response` with the flag clear; otherwise the state is the fold of the reads from an empty, streaming state, and a failed read also clears the flag |
| StreamingTest.StreamFlagOnDone | frontend/src/StreamingTest.jsx:44-68 | when every read succeeds, `handleStream` ends with its flag clear exactly when some line of some read was `complete` or `error`, and with it set otherwise |
| StreamingTest.FetchResponseIgnoresChunking | frontend/src/StreamingTest.jsx:110-138 | the buffered handler's final response depends only on the received text, not on how the reads cut it |
| StreamingTest.FetchResponseOfCompleteFrames | frontend/src/StreamingTest.jsx:112-138 | a stream that ends normally shows what its complete frames show, in order |
| StreamingTest.UnterminatedTailDiscarded | frontend/src/StreamingTest.jsx:113-120 | text that does not complete a frame before the stream ends hands on no frame, so it is never parsed |
| StreamingTest.CutFrameBuffered | frontend/src/StreamingTest.jsx:116-122 | a one-line frame cut across two reads is handed on whole, once, after the second read, and the buffer is then empty |
| StreamingTest.CutFrameUnbuffered | frontend/src/StreamingTest.jsx:45-68 | the same cut frame in `handleStream` changes neither the response nor the flag, because neither part alone is a parsable `data:` line |
| StreamingTest.HeadPartInert | frontend/src/StreamingTest.jsx:48-67 | in `handleStream`, a read holding one unparsable line leaves the state unchanged |
| StreamingTest.TailPartInert | frontend/src/StreamingTest.jsx:48-67 | in `handleStream`, a read holding one non-`data:` line and a blank line leaves the state unchanged |
| StreamingTest.CutTokenOnlyBufferedRecovers | frontend/src/StreamingTest.jsx:45-128 | a token frame cut across two reads is shown by `handleStreamWithFetch` and lost by `handleStream`, whose flag then stays set |
| StreamingTest.HiAcrossTwoReads | frontend/src/StreamingTest.jsx:116-128 | the frame `data: {"type":"token","content":"Hi"}` delivered in two reads shows `Hi` in the buffered handler and nothing in the unbuffered one |
| StreamingTest.StreamingTest.constructor | frontend/src/StreamingTest.jsx:4-6 | the component starts with the given question, an empty response and the flag clear |
| StreamingTest.StreamingTest.Begin | frontend/src/StreamingTest.jsx:86-89 | the handler starts exactly when the question is not blank and no stream is running; it then empties the response and sets the flag, and otherwise changes nothing |
| StreamingTest.StreamingTest.ResetBuffer | frontend/src/StreamingTest.jsx:110 | the buffer starts empty, with nothing received and no frame handed on |
| StreamingTest.StreamingTest.FeedChunk | frontend/src/StreamingTest.jsx:116-138 | one read keeps the remainder invariant, sets the buffer and frames to those of absorbing the chunk, folds exactly the new complete frames into the response, and leaves a buffer without `"\n\n"` |
| StreamingTest.StreamingTest.ReadLoop | frontend/src/StreamingTest.jsx:112-139 | after the reads, the buffer and the frames handed on are those of the chunks, and the response is the fold of those frames |
| StreamingTest.StreamingTest.HandleStreamWithFetch | frontend/src/StreamingTest.jsx:85-147 | with a blank question or a stream running, nothing changes; otherwise the response is the folded frames, or `Error: ` with the thrown message in place of it, and the flag is always clear at the end |
| StreamingTest.StreamingTest.ReadChunk | frontend/src/StreamingTest.jsx:48-67 | one read of `handleStream` applies the chunk's lines in order, and nothing is carried to the next read |
| StreamingTest.StreamingTest.HandleStream | frontend/src/StreamingTest.jsx:9-83 | with a blank question or a stream running, nothing changes; a failed request shows the fixed failure text and clears the flag; otherwise the state is the fold of each read's own lines, and a failed read clears the flag |
| RagAgent.Question | backend/rags/advanced_rag_agent.py:137 | definition: the content of the first message, and nothing for an empty list, where indexing raises |
| RagAgent.ToolContext | backend/rags/advanced_rag_agent.py:140-144 | the context is the content of the last message of type `"tool"`, or `""` when there is none |
| RagAgent.LastToolContent | backend/rags/advanced_rag_agent.py:168-172 | the reversed loop that stops at the first tool message it meets returns that context |
| RagAgent.RouteFor | backend/rags/advanced_rag_agent.py:151-154 | the route is `generate_answer` exactly when the score is the string `"yes"`, and `rewrite_question` for every other score |
| RagAgent.GradeDocuments | backend/rags/advanced_rag_agent.py:135-154 | the grading model is asked about the first message's content and the last tool message's content, and the route follows its score; an empty message list raises |
| RagAgent.Rewrite | backend/rags/advanced_rag_agent.py:156-161 | the rewrite prompt holds the first message's content, and the node appends exactly one user message carrying the model's reply |
| RagAgent.Answer | backend/rags/advanced_rag_agent.py:163-176 | the answer prompt holds the first message's content and the last tool context, and the node appends exactly the model's one reply |
| RagAgent.QueryOrRespond | backend/rags/advanced_rag_agent.py:130-133 | definition: the node appends exactly one message, the tool-bound model's reply to the whole message list |
| RagAgent.ToolsConditionReadsReply | backend/rags/advanced_rag_agent.py:110-117 | after `generate_query_or_respond` appends its reply, the run goes to `retrieve` exactly when that reply asks for a tool call, and ends otherwise |
| RagAgent.Edges | backend/rags/advanced_rag_agent.py:107-125 | definition: the successors of each node, read off the `add_edge` and `add_conditional_edges` calls; END has none |
| RagAgent.Next | backend/rags/advanced_rag_agent.py:107-125 | every step follows an edge of the graph, and only END has no next node |
| RagAgent.EveryEdgeTaken | backend/rags/advanced_rag_agent.py:107-125 | every edge of the graph is taken for some tool-call flag and grade |
| RagAgent.AnswerOnlyAfterRetrieve | backend/rags/advanced_rag_agent.py:119-124 | in any run from START, `generate_answer` comes straight after `retrieve` and is followed by END alone |
| RagAgent.RewritesFollowRetrievals | backend/rags/advanced_rag_agent.py:119-125 | a run never visits `rewrite_question` more often than `retrieve` |
| RagAgent.Truthy | backend/rags/advanced_rag_agent.py:189 | definition: `if thread_id:`, true for a present, non-empty string and false for `None` or `""` |
| RagAgent.BuildConfig | backend/rags/advanced_rag_agent.py:188-190 | the config names a thread exactly when `thread_id` is truthy, and then names that thread |
| RagAgent.CountOther | backend/rags/advanced_rag_agent.py:199-202 | the count of human messages other than the first is at most the number of messages |
| RagAgent.NumRewrites | backend/rags/advanced_rag_agent.py:199-202 | `num_rewrites` is 0 for no messages and otherwise less than the number of messages, because the first message is never counted |
| RagAgent.CountOtherAppend | backend/rags/advanced_rag_agent.py:199-202 | the count over two lists one after the other is the sum of their counts |
| RagAgent.InvokeReply | backend/rags/advanced_rag_agent.py:205-211 | the answer is the last message's content, the messages are returned as they are, the thread id is echoed, and an empty result raises |
| RagAgent.NumRewritesCountsRewrites | backend/rags/advanced_rag_agent.py:199-202 | in a new thread that starts from the question alone, `num_rewrites` equals the number of `rewrite_question` visits |
| RagAgent.AppendedCountsRewrites | backend/rags/advanced_rag_agent.py:199-202 | among the messages the nodes append, the human ones other than the question are one per rewrite |
| RagAgent.RewriteFits | backend/rags/advanced_rag_agent.py:156-161 | what `rewrite_question` appends is one human message, so it fits a run whenever its id is new |
| RagAgent.AnswerFits | backend/rags/advanced_rag_agent.py:163-176 | what `generate_answer` appends fits a run whenever the model's reply is not a human message |
| RagAgent.QueryOrRespondFits | backend/rags/advanced_rag_agent.py:130-133 | what `generate_query_or_respond` appends fits a run whenever the model's reply is not a human message |
| RagAgent.VisitCountsItself | backend/rags/advanced_rag_agent.py:156-161 | a rewrite visit adds one counted message, and any other visit adds none |
| RagAgent.UpdateWithoutHumansUncounted | backend/rags/advanced_rag_agent.py:199-202 | messages that are not human add nothing to the count |

## Left out

- `fetch`, `response.body.getReader()` and `TextDecoder` are foreign calls. Their outcome is the `Transport` input, and a read's value is already-decoded text.
- The `EventSource` that `handleStream` creates and never reads is left out. It has no effect on the state.
- `JSON.parse` is the abstract `Parser`. Full JSON is not modelled.
- React state updates are modelled as immediate assignments. Batching, re-rendering and the stale `question`/`isStreaming` values a closure may see are left out.
- Concurrent calls of the handlers are left out, and so is the promise chain in `handleStream`, where the read loop runs after the handler has returned. Each model method runs a handler to its end.
- `console.log` and `console.error` are left out: they are output only.
- The constructor's `question` parameter stands for the text typed into the input, through `onChange`, by the time a handler is called. The component itself starts it at `''`.
- `sessionId`, built from `Date.now()`, is left out. It is only content of the request body.
- LLM, grading-model, retriever and LangGraph internals are left out: `init_chat_model`, `bind_tools`, `with_structured_output`, `ToolNode`, `InMemorySaver` and the prompt templates' `.format`. The model replies and the grading model's score are inputs, and a prompt is the tuple of values it is filled with.
- `tools_condition` is modelled by the last message's tool-call flag.
- The `add_messages` merge, which replaces a message with the same id, is modelled as appending. A run's visits always carry new ids.
- RagAgent.QueryOrRespond: its contract is only the one about `tools_condition` in `RagAgent.ToolsConditionReadsReply`. The reply comes from the tool-bound model and is not constrained further.
- RagAgent.NumRewritesCountsRewrites: covers a new thread only. With a thread's memory, `messages[0]` is the thread's first question, so later questions of the same thread count as rewrites. The model of `num_rewrites` itself covers every message list.
- Thread memory also reaches the question. On a thread's later `invoke`, the checkpointer keeps the earlier messages, so `messages[0]` is the thread's first question. `RagAgent.GradeDocuments`, `RagAgent.Rewrite` and `RagAgent.Answer` then grade, rewrite and answer that first question, as the code does; the model takes the message list as given and does not model the checkpointer.
- Message equality in `num_rewrites` is modelled by comparing the four modelled fields, and `content` is a string, while LangChain messages compare every field and may carry a list of content blocks. Neither simplification changes a count, because message ids are unique within a list.
- LangGraph's recursion limit, which stops a run after 25 steps by default with `GraphRecursionError`, is not modelled. `RagAgent.IsRun` allows rewrite loops of any length; the path lemmas hold for every such run, and so for every shorter one.
- The other front-end views, the server's HTTP handlers and the memory tests are not part of this model.
