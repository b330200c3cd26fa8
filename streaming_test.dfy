/**
 * The `StreamingTest` component of `frontend/src/StreamingTest.jsx`: its
 * state (`question`, `streamedResponse`, `isStreaming`) and its two stream
 * handlers, `handleStreamWithFetch` (frames carried across reads in a
 * buffer) and the older `handleStream` (each read split on its own).
 */
module StreamingTest {
  import opened Wrappers
  import opened Text
  import opened Sse

  /** How the POST request ended: the promise rejected, or a response arrived with `response.ok`. */
  datatype Request = Rejected(message: string) | Responded(ok: bool)

  /** How the read loop ended: `done`, or `reader.read()` rejected. */
  datatype ReadEnd = Done | ReadFailed(message: string)

  /**
   * Everything the network does during one call: the request's fate, the
   * already-decoded text of each successful read, in order, and how reading stopped.
   */
  datatype Transport = Transport(request: Request, chunks: seq<string>, end: ReadEnd)

  /** The message of `new Error('Stream request failed')`, thrown when `response.ok` is false. */
  const RequestFailed: string := "Stream request failed"

  /** The fixed text `handleStream` shows when the request fails. */
  const FailedToStream: string := "Error: Failed to stream response"

  /** `streamedResponse` after `handleStreamWithFetch` has run to its end. */
  function FetchResponse(net: Transport, parse: Parser): string {
    match net.request
    case Rejected(message) => "Error: " + message
    case Responded(ok) =>
      if !ok then "Error: " + RequestFailed
      else match net.end
        case Done => Fold("", AbsorbAll(net.chunks).frames, parse)
        case ReadFailed(message) => "Error: " + message
  }

  /** `streamedResponse` and `isStreaming` after `handleStream` has run to its end. */
  function StreamOutcome(net: Transport, parse: Parser): View {
    match net.request
    case Rejected(_) => View(FailedToStream, false)
    case Responded(ok) =>
      if !ok then View(FailedToStream, false)
      else
        var v := FoldChunks(View("", true), net.chunks, parse);
        if net.end.ReadFailed? then v.(streaming := false) else v
  }

  /**
   * The buffered handler's result depends on the received text only: two
   * deliveries of the same text in different chunks end with the same response.
   */
  lemma FetchResponseIgnoresChunking(net1: Transport, net2: Transport, parse: Parser)
    requires net1.request == net2.request && net1.end == net2.end
    requires Concat(net1.chunks) == Concat(net2.chunks)
    ensures FetchResponse(net1, parse) == FetchResponse(net2, parse)
  {
    ChunkBoundariesIrrelevant(net1.chunks, net2.chunks);
  }

  /**
   * A stream that ends normally shows what its complete frames show, in
   * order; the unterminated remainder left in the buffer is never parsed.
   */
  lemma FetchResponseOfCompleteFrames(net: Transport, parse: Parser)
    requires net.request == Responded(true) && net.end == Done
    ensures FetchResponse(net, parse) == Transcript(Frames(Concat(net.chunks)), parse)
  {
    AbsorbAllIsWholeText(net.chunks);
    FoldIsTranscript("", Frames(Concat(net.chunks)), parse);
  }

  /** Text that does not finish a frame before the stream ends changes nothing. */
  lemma UnterminatedTailDiscarded(chunks: seq<string>, tail: string)
    requires !Contains(AbsorbAll(chunks).buffer + tail, FrameDelimiter)
    ensures AbsorbAll(chunks + [tail]).frames == AbsorbAll(chunks).frames
  {
  }

  /**
   * When every read succeeds, `handleStream` ends with its flag clear exactly
   * when some line of some read was `complete` or `error`; otherwise it stays set.
   */
  lemma StreamFlagOnDone(net: Transport, parse: Parser)
    requires net.request == Responded(true) && net.end == Done
    ensures !StreamOutcome(net, parse).streaming
            <==> exists i :: 0 <= i < |net.chunks| && ChunkHasTerminal(net.chunks[i], parse)
  {
    FlagClearedIffTerminalChunk("", net.chunks, parse);
  }

  // ---- a frame split across two reads ----

  /**
   * A one-line frame cut in two by the reads: the buffered handler hands on
   * nothing after the first part and the whole frame after the second.
   */
  lemma CutFrameBuffered(h1: string, h2: string)
    requires '\n' !in h1 + h2
    ensures AbsorbAll([h1]) == ReadState(h1, [])
    ensures AbsorbAll([h1, h2 + FrameDelimiter]) == ReadState("", [h1 + h2])
  {
    NoLineBreakInParts(h1, h2);
    SplitWithoutSeparator(h1, FrameDelimiter);
    assert AllButLast([h1]) == [];
    assert AllButLast([h1, h2 + FrameDelimiter]) == [h1];
    assert h1 + (h2 + FrameDelimiter) == (h1 + h2) + FrameDelimiter + "";
    SplitAfterFirst(h1 + h2, FrameDelimiter, "");
    assert Split("", FrameDelimiter) == [""];
  }

  lemma NoLineBreakInParts(h1: string, h2: string)
    requires '\n' !in h1 + h2
    ensures '\n' !in h1 && '\n' !in h2
  {
    forall i | 0 <= i < |h1| ensures h1[i] != '\n' { assert h1[i] == (h1 + h2)[i]; }
    forall i | 0 <= i < |h2| ensures h2[i] != '\n' { assert h2[i] == (h1 + h2)[|h1| + i]; }
  }

  /**
   * The same cut frame in the unbuffered handler: the first part alone does
   * not parse and the second part is not a `data: ` line, so the state is as before.
   */
  lemma CutFrameUnbuffered(h1: string, h2: string, v: View, parse: Parser)
    requires '\n' !in h1 + h2
    requires StartsWith(h1, DataPrefix) ==> parse(h1[|DataPrefix|..]) == None
    requires !StartsWith(h2, DataPrefix)
    ensures FoldChunks(v, [h1, h2 + FrameDelimiter], parse) == v
  {
    NoLineBreakInParts(h1, h2);
    HeadPartInert(v, h1, parse);
    TailPartInert(v, h2, parse);
    assert AllButLast([h1, h2 + FrameDelimiter]) == [h1];
    assert AllButLast([h1]) == [];
    assert FoldChunks(v, [h1], parse) == ApplyChunk(v, h1, parse);
  }

  /** A read with no line break that does not parse leaves the unbuffered state alone. */
  lemma HeadPartInert(v: View, h1: string, parse: Parser)
    requires '\n' !in h1
    requires StartsWith(h1, DataPrefix) ==> parse(h1[|DataPrefix|..]) == None
    ensures ApplyChunk(v, h1, parse) == v
  {
    SplitWithoutSeparator(h1, LineDelimiter);
    assert AllButLast([h1]) == [];
    assert FoldLines(v, [h1], parse) == ApplyLine(v, h1, parse);
    assert Decode(h1, parse).Unparseable? || Decode(h1, parse).NotData?;
  }

  /** A read that is a non-`data: ` line and a blank line leaves the unbuffered state alone. */
  lemma TailPartInert(v: View, h2: string, parse: Parser)
    requires '\n' !in h2
    requires !StartsWith(h2, DataPrefix)
    ensures ApplyChunk(v, h2 + FrameDelimiter, parse) == v
  {
    assert h2 + FrameDelimiter == h2 + LineDelimiter + ("" + LineDelimiter + "");
    SplitAfterFirst(h2, LineDelimiter, "" + LineDelimiter + "");
    SplitAfterFirst("", LineDelimiter, "");
    assert Split(h2 + FrameDelimiter, LineDelimiter) == [h2, "", ""];
    assert AllButLast([h2, "", ""]) == [h2, ""];
    assert AllButLast([h2, ""]) == [h2];
    assert AllButLast([h2]) == [];
    assert !StartsWith("", DataPrefix);
    assert FoldLines(v, [h2], parse) == ApplyLine(v, h2, parse) == v;
    assert FoldLines(v, [h2, ""], parse) == ApplyLine(v, "", parse) == v;
  }

  /**
   * A token frame cut in two by the reads, so that the first part alone does
   * not parse and the second part is not a `data: ` line: the buffered
   * handler shows the token; the unbuffered handler shows nothing and, seeing
   * no `complete`, never clears its flag.
   */
  lemma CutTokenOnlyBufferedRecovers(h1: string, h2: string, p: string, content: string, parse: Parser)
    requires h1 + h2 == DataPrefix + p && '\n' !in h1 + h2
    requires parse(p) == Some(Payload(Str("token"), Str(content), Undefined))
    requires StartsWith(h1, DataPrefix) ==> parse(h1[|DataPrefix|..]) == None
    requires !StartsWith(h2, DataPrefix)
    ensures FetchResponse(Transport(Responded(true), [h1, h2 + FrameDelimiter], Done), parse) == content
    ensures StreamOutcome(Transport(Responded(true), [h1, h2 + FrameDelimiter], Done), parse) == View("", true)
  {
    var frame := DataPrefix + p;
    CutFrameBuffered(h1, h2);
    DecodeDataFrame(p, parse);
    assert Fold("", [frame], parse) == Apply("", frame, parse);
    CutFrameUnbuffered(h1, h2, View("", true), parse);
  }

  const FirstHalf: string := "data: {\"type\":\"tok"
  const SecondHalf: string := "en\",\"content\":\"Hi\"}"
  const TokenPayload: string := "{\"type\":\"token\",\"content\":\"Hi\"}"

  /**
   * The frame `data: {"type":"token","content":"Hi"}` delivered as
   * `data: {"type":"tok` and `en","content":"Hi"}` followed by the blank line.
   */
  lemma HiAcrossTwoReads(parse: Parser)
    requires parse("{\"type\":\"tok") == None
    requires parse(TokenPayload) == Some(Payload(Str("token"), Str("Hi"), Undefined))
    ensures FetchResponse(Transport(Responded(true), [FirstHalf, SecondHalf + "\n\n"], Done), parse) == "Hi"
    ensures StreamOutcome(Transport(Responded(true), [FirstHalf, SecondHalf + "\n\n"], Done), parse) == View("", true)
  {
    HalvesOfHi();
    CutTokenOnlyBufferedRecovers(FirstHalf, SecondHalf, TokenPayload, "Hi", parse);
  }

  /** The two halves put back together are the frame, and neither is cut at a line break. */
  lemma HalvesOfHi()
    ensures FirstHalf[|DataPrefix|..] == "{\"type\":\"tok"
    ensures FirstHalf + SecondHalf == DataPrefix + TokenPayload
    ensures '\n' !in FirstHalf + SecondHalf
    ensures !StartsWith(SecondHalf, DataPrefix)
  {
    FirstHalfPayload();
    HalvesJoin();
    HalvesOnOneLine();
    SecondHalfNotData();
  }

  lemma FirstHalfPayload()
    ensures FirstHalf[|DataPrefix|..] == "{\"type\":\"tok"
  {
  }

  lemma HalvesJoin()
    ensures FirstHalf + SecondHalf == DataPrefix + TokenPayload
  {
  }

  lemma HalvesOnOneLine()
    ensures '\n' !in FirstHalf + SecondHalf
  {
  }

  lemma SecondHalfNotData()
    ensures !StartsWith(SecondHalf, DataPrefix)
  {
    assert SecondHalf[..|DataPrefix|][0] != DataPrefix[0];
  }

  /** The component's state. */
  class StreamingTest {
    var question: string
    /** `streamedResponse` */
    var response: string
    /** `isStreaming` */
    var streaming: bool
    /** The `buffer` local of `handleStreamWithFetch`: received text not yet handed on as a frame. */
    var buffer: string
    /** All text received since the buffer was last reset. */
    ghost var received: string
    /** The frames handed to the frame loop since the buffer was last reset. */
    ghost var handled: seq<string>

    /** The remainder invariant: handled frames and the buffer are the pieces of the received text. */
    ghost predicate Valid()
      reads this
    {
      Split(received, FrameDelimiter) == handled + [buffer]
    }

    constructor (question: string)
      ensures this.question == question && response == "" && !streaming
      ensures Valid() && buffer == "" && received == "" && handled == []
    {
      this.question := question;
      response := "";
      streaming := false;
      buffer := "";
      received := "";
      handled := [];
    }

    /** The guard and start shared by both handlers: nothing happens for a blank question or while streaming. */
    method Begin() returns (started: bool)
      modifies this`response, this`streaming
      ensures started == (Trim(old(question)) != "" && !old(streaming))
      ensures started ==> response == "" && streaming
      ensures !started ==> response == old(response) && streaming == old(streaming)
    {
      if Trim(question) == "" || streaming {
        return false;
      }
      streaming := true;
      response := "";
      return true;
    }

    /** Empties the buffer before the first read. */
    method ResetBuffer()
      modifies this`buffer, this`received, this`handled
      ensures Valid() && buffer == "" && received == "" && handled == []
    {
      buffer := "";
      received := "";
      handled := [];
    }

    /**
     * One read of `handleStreamWithFetch`: the chunk is appended to the
     * buffer, the buffer is split on blank lines, the last piece is kept and
     * every other piece goes through the frame loop, in order.
     */
    method FeedChunk(chunk: string, parse: Parser)
      requires Valid()
      modifies this`buffer, this`response, this`received, this`handled
      ensures Valid()
      ensures received == old(received) + chunk
      ensures ReadState(buffer, handled) == Absorb(ReadState(old(buffer), old(handled)), chunk)
      ensures response == Fold(old(response), Frames(old(buffer) + chunk), parse)
      ensures Join(handled + [buffer], FrameDelimiter) == received
      ensures !Contains(buffer, FrameDelimiter)
    {
      var lines := Split(buffer + chunk, FrameDelimiter);
      var frames, rest := lines[..|lines| - 1], lines[|lines| - 1];
      assert frames == Frames(buffer + chunk) && rest == Remainder(buffer + chunk);
      for i := 0 to |frames|
        modifies this`response
        invariant response == Fold(old(response), frames[..i], parse)
      {
        assert AllButLast(frames[..i + 1]) == frames[..i];
        response := Apply(response, frames[i], parse);
      }
      assert frames[..|frames|] == frames;
      CarryRemainder(received, handled, buffer, chunk);
      FramesThenRemainderIsText(buffer + chunk);
      buffer := rest;
      received := received + chunk;
      handled := handled + frames;
      JoinSplit(received, FrameDelimiter);
    }

    /** The `while (true)` read loop of `handleStreamWithFetch` over the reads that succeed. */
    method ReadLoop(chunks: seq<string>, parse: Parser)
      requires Valid() && buffer == "" && handled == [] && response == ""
      modifies this`buffer, this`response, this`received, this`handled
      ensures Valid() && ReadState(buffer, handled) == AbsorbAll(chunks)
      ensures response == Fold("", AbsorbAll(chunks).frames, parse)
    {
      var i := 0;
      while i < |chunks|
        invariant 0 <= i <= |chunks|
        invariant Valid()
        invariant ReadState(buffer, handled) == AbsorbAll(chunks[..i])
        invariant response == Fold("", handled, parse)
      {
        assert AllButLast(chunks[..i + 1]) == chunks[..i];
        ghost var before := handled;
        FeedChunk(chunks[i], parse);
        FoldAppend("", before, handled[|before|..], parse);
        assert before + handled[|before|..] == handled;
        i := i + 1;
      }
      assert chunks[..|chunks|] == chunks;
    }

    /** `handleStreamWithFetch`: the request, the buffered read loop, the `catch` and the `finally`. */
    method HandleStreamWithFetch(net: Transport, parse: Parser)
      modifies this`buffer, this`response, this`streaming, this`received, this`handled
      ensures Trim(old(question)) == "" || old(streaming) ==>
                response == old(response) && streaming == old(streaming)
      ensures Trim(old(question)) != "" && !old(streaming) ==>
                response == FetchResponse(net, parse) && !streaming
    {
      var started := Begin();
      if !started {
        return;
      }
      match net.request {
        case Rejected(message) =>
          response := "Error: " + message;
        case Responded(ok) =>
          if !ok {
            response := "Error: " + RequestFailed;
          } else {
            ResetBuffer();
            ReadLoop(net.chunks, parse);
            if net.end.ReadFailed? {
              response := "Error: " + net.end.message;
            }
          }
      }
      streaming := false;
    }

    /** One read of `handleStream`: the chunk split on line breaks, each line applied in turn. */
    method ReadChunk(chunk: string, parse: Parser)
      modifies this`response, this`streaming
      ensures View(response, streaming) == ApplyChunk(View(old(response), old(streaming)), chunk, parse)
    {
      var lines := Split(chunk, LineDelimiter);
      ghost var start := View(response, streaming);
      for j := 0 to |lines|
        invariant View(response, streaming) == FoldLines(start, lines[..j], parse)
      {
        assert AllButLast(lines[..j + 1]) == lines[..j];
        var v := ApplyLine(View(response, streaming), lines[j], parse);
        response, streaming := v.response, v.streaming;
      }
      assert lines[..|lines|] == lines;
    }

    /** `handleStream`: each read is split on line breaks by itself; `complete` and `error` clear the flag. */
    method HandleStream(net: Transport, parse: Parser)
      modifies this`response, this`streaming
      ensures Trim(old(question)) == "" || old(streaming) ==>
                response == old(response) && streaming == old(streaming)
      ensures Trim(old(question)) != "" && !old(streaming) ==>
                View(response, streaming) == StreamOutcome(net, parse)
    {
      var started := Begin();
      if !started {
        return;
      }
      if net.request.Rejected? || !net.request.ok {
        streaming := false;
        response := FailedToStream;
        return;
      }
      var chunks := net.chunks;
      var i := 0;
      while i < |chunks|
        invariant 0 <= i <= |chunks|
        invariant View(response, streaming) == FoldChunks(View("", true), chunks[..i], parse)
      {
        assert AllButLast(chunks[..i + 1]) == chunks[..i];
        ReadChunk(chunks[i], parse);
        i := i + 1;
      }
      assert chunks[..|chunks|] == chunks;
      if net.end.ReadFailed? {
        streaming := false;
      }
    }
  }
}
