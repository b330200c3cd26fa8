/**
 * The event-stream decoding rules of `frontend/src/StreamingTest.jsx`,
 * as values: how received text is cut into frames, how a frame is classified,
 * and how each handler's running state reacts to a classified frame.
 */
module Sse {
  import opened Wrappers
  import opened Text

  /** The blank line that ends a frame in the buffered handler. */
  const FrameDelimiter: string := "\n\n"
  /** The line break the unbuffered handler splits each chunk on. */
  const LineDelimiter: string := "\n"
  /** The reserved prefix of a frame or line that carries a payload. */
  const DataPrefix: string := "data: "

  // ---- the frame buffer ----

  /** The complete frames in `text`: every piece of the split but the last. */
  function Frames(text: string): seq<string> {
    AllButLast(Split(text, FrameDelimiter))
  }

  /** The unterminated tail of `text`, which the buffered handler carries to the next read. */
  function Remainder(text: string): string {
    Last(Split(text, FrameDelimiter))
  }

  /** What the buffered read loop has after some reads: the carried text and the frames handed on. */
  datatype ReadState = ReadState(buffer: string, frames: seq<string>)

  /** One read: append the chunk to the buffer, hand on the complete frames, keep the rest. */
  function Absorb(st: ReadState, chunk: string): ReadState {
    ReadState(Remainder(st.buffer + chunk), st.frames + Frames(st.buffer + chunk))
  }

  /** The read loop over `chunks`, starting from an empty buffer, one chunk at a time. */
  function AbsorbAll(chunks: seq<string>): ReadState
    decreases |chunks|
  {
    if chunks == [] then ReadState("", [])
    else Absorb(AbsorbAll(AllButLast(chunks)), Last(chunks))
  }

  /** All the text received in `chunks`, in arrival order. */
  function Concat(chunks: seq<string>): string
    decreases |chunks|
  {
    if chunks == [] then "" else Concat(AllButLast(chunks)) + Last(chunks)
  }

  /**
   * However the text was cut into chunks, the frames handed on and the
   * carried remainder are those of splitting the whole text at once.
   */
  lemma {:induction false} AbsorbAllIsWholeText(chunks: seq<string>)
    ensures AbsorbAll(chunks) == ReadState(Remainder(Concat(chunks)), Frames(Concat(chunks)))
    decreases |chunks|
  {
    if chunks != [] {
      var earlier := AllButLast(chunks);
      var c := Last(chunks);
      var text := Concat(earlier);
      AbsorbAllIsWholeText(earlier);
      SplitAppend(text, c, FrameDelimiter);
      AppendPieces(Split(text + c, FrameDelimiter), Frames(text),
        Split(Remainder(text) + c, FrameDelimiter));
    }
  }

  lemma AppendPieces(after: seq<string>, head: seq<string>, pieces: seq<string>)
    requires |pieces| > 0 && after == head + pieces
    ensures Last(after) == Last(pieces) && AllButLast(after) == head + AllButLast(pieces)
  {
  }

  /** Chunk boundaries, including one inside a delimiter, do not change the frames handed on. */
  lemma ChunkBoundariesIrrelevant(chunks1: seq<string>, chunks2: seq<string>)
    requires Concat(chunks1) == Concat(chunks2)
    ensures AbsorbAll(chunks1) == AbsorbAll(chunks2)
  {
    AbsorbAllIsWholeText(chunks1);
    AbsorbAllIsWholeText(chunks2);
  }

  /** The frames handed on, each closed by the delimiter, followed by the remainder, are the received text. */
  lemma FramesThenRemainderIsText(text: string)
    ensures Join(Frames(text) + [Remainder(text)], FrameDelimiter) == text
    ensures !Contains(Remainder(text), FrameDelimiter)
  {
    var pieces := Split(text, FrameDelimiter);
    assert Frames(text) + [Remainder(text)] == pieces;
    JoinSplit(text, FrameDelimiter);
    SplitPiecesFree(text, FrameDelimiter);
  }

  /**
   * The carried-remainder invariant survives a read: if the handed-on frames
   * and the buffer are the pieces of the text received so far, then after
   * appending a chunk they are again, once the buffer's complete frames are
   * handed on and its tail kept.
   */
  lemma CarryRemainder(received: string, handled: seq<string>, buffer: string, chunk: string)
    requires Split(received, FrameDelimiter) == handled + [buffer]
    ensures Split(received + chunk, FrameDelimiter) == handled + Frames(buffer + chunk) + [Remainder(buffer + chunk)]
  {
    var before := Split(received, FrameDelimiter);
    SplitAppend(received, chunk, FrameDelimiter);
    Reassemble(Split(received + chunk, FrameDelimiter), before, handled, buffer,
      Split(Last(before) + chunk, FrameDelimiter));
  }

  lemma Reassemble(after: seq<string>, before: seq<string>, handled: seq<string>, buffer: string, pieces: seq<string>)
    requires before == handled + [buffer] && |pieces| > 0 && after == AllButLast(before) + pieces
    ensures Last(before) == buffer && after == handled + AllButLast(pieces) + [Last(pieces)]
  {
    assert AllButLast(before) == handled;
    assert pieces == AllButLast(pieces) + [Last(pieces)];
  }

  // ---- payloads and frames ----

  /**
   * A field of the parsed payload as JavaScript sees it: absent, a string,
   * or some other JSON value together with the text `+` turns it into.
   */
  datatype JsValue = Undefined | Str(s: string) | NonString(rendered: string)

  /** The text `prev + v` appends for the field `v`. */
  function Render(v: JsValue): string {
    match v
    case Undefined => "undefined"
    case Str(s) => s
    case NonString(rendered) => rendered
  }

  /** The three fields the handlers read from a parsed payload. */
  datatype Payload = Payload(kind: JsValue, content: JsValue, error: JsValue)

  /**
   * `JSON.parse` followed by the field reads: `None` when parsing throws or
   * the value is `null` (reading `.type` of it throws too), which the
   * handlers' `catch` turns into a dropped frame.
   */
  type Parser = string -> Option<Payload>

  /** What a frame (or, in the unbuffered handler, a line) amounts to. */
  datatype Event =
    | Token(content: string)
    | Complete
    | Failure(message: string)
    | UnknownType
    | Unparseable
    | NotData

  /** The discriminator tests on a parsed payload. */
  function Classify(parsed: Option<Payload>): Event {
    match parsed
    case None => Unparseable
    case Some(p) =>
      if p.kind == Str("token") then Token(Render(p.content))
      else if p.kind == Str("complete") then Complete
      else if p.kind == Str("error") then Failure(Render(p.error))
      else UnknownType
  }

  /** A frame counts only if it starts with `data: `; its payload is the rest of the frame. */
  function Decode(frame: string, parse: Parser): Event {
    if StartsWith(frame, DataPrefix) then Classify(parse(frame[|DataPrefix|..])) else NotData
  }

  /** The payload of `data: p` is exactly `p`. */
  lemma DecodeDataFrame(p: string, parse: Parser)
    ensures Decode(DataPrefix + p, parse) == Classify(parse(p))
  {
  }

  /**
   * The prefix test is on the whole frame, not on each of its lines: a
   * `data: ` line after a first line that is not one is never looked at.
   */
  lemma DataOnLaterLineIgnored(first: string, p: string, parse: Parser)
    requires !StartsWith(first, DataPrefix)
    ensures Decode(first + "\n" + DataPrefix + p, parse) == NotData
  {
    var frame := first + "\n" + DataPrefix + p;
    if |first| >= |DataPrefix| {
      assert frame[..|DataPrefix|] == first[..|DataPrefix|];
    } else {
      assert frame[|first|] == '\n';
      assert DataPrefix[|first|] != '\n';
    }
  }

  // ---- the buffered handler's response ----

  /** The buffered handler's reaction to one frame; `complete` and everything unrecognised are logged only. */
  function Apply(response: string, frame: string, parse: Parser): string {
    match Decode(frame, parse)
    case Token(content) => response + content
    case Failure(message) => response + "\n\nError: " + message
    case _ => response
  }

  /** The response after the frames, in order, starting from `response`. */
  function Fold(response: string, frames: seq<string>, parse: Parser): string
    decreases |frames|
  {
    if frames == [] then response
    else Apply(Fold(response, AllButLast(frames), parse), Last(frames), parse)
  }

  /** What the buffered handler shows for an event: the token, the error line, or nothing. */
  function Shown(e: Event): string {
    match e
    case Token(content) => content
    case Failure(message) => "\n\nError: " + message
    case _ => ""
  }

  /** The concatenation of what each frame shows, in arrival order. */
  function Transcript(frames: seq<string>, parse: Parser): string
    decreases |frames|
  {
    if frames == [] then "" else Transcript(frames[..|frames| - 1], parse) + Shown(Decode(frames[|frames| - 1], parse))
  }

  /**
   * The response only ever grows: it is the starting text followed by what
   * every frame shows. Nothing after `complete` or `error` is suppressed and
   * nothing is ever taken back.
   */
  lemma {:induction false} FoldIsTranscript(response: string, frames: seq<string>, parse: Parser)
    ensures Fold(response, frames, parse) == response + Transcript(frames, parse)
    decreases |frames|
  {
    if frames != [] {
      FoldIsTranscript(response, AllButLast(frames), parse);
    }
  }

  /** Folding two runs of frames one after the other is folding their concatenation. */
  lemma {:induction false} FoldAppend(response: string, a: seq<string>, b: seq<string>, parse: Parser)
    ensures Fold(response, a + b, parse) == Fold(Fold(response, a, parse), b, parse)
    decreases |b|
  {
    if b != [] {
      assert AllButLast(a + b) == a + AllButLast(b);
      assert Last(a + b) == Last(b);
      FoldAppend(response, a, AllButLast(b), parse);
    } else {
      assert a + b == a;
    }
  }

  /** A frame that shows nothing: `complete`, an unknown type, an unparseable payload or no `data: ` prefix. */
  predicate Inert(frame: string, parse: Parser) {
    Shown(Decode(frame, parse)) == ""
  }

  /**
   * An inert frame can be removed without changing the response: a malformed
   * frame between two tokens keeps both, and `complete` does not end decoding.
   */
  lemma InertFrameDropped(response: string, a: seq<string>, f: string, b: seq<string>, parse: Parser)
    requires Inert(f, parse)
    ensures Fold(response, a + [f] + b, parse) == Fold(response, a + b, parse)
  {
    var x := Fold(response, a, parse);
    FoldAppend(response, a + [f], b, parse);
    FoldAppend(response, a, [f], parse);
    FoldAppend(response, a, b, parse);
    assert Fold(x, [f], parse) == Apply(x, f, parse) == x;
  }

  // ---- the unbuffered handler's state ----

  /** What the unbuffered handler keeps: the response and the streaming flag. */
  datatype View = View(response: string, streaming: bool)

  /** The unbuffered handler's reaction to one line: tokens are appended, `complete` and `error` clear the flag. */
  function ApplyLine(v: View, line: string, parse: Parser): View {
    match Decode(line, parse)
    case Token(content) => v.(response := v.response + content)
    case Complete => v.(streaming := false)
    case Failure(_) => v.(streaming := false)
    case _ => v
  }

  /** The state after the lines, in order. */
  function FoldLines(v: View, lines: seq<string>, parse: Parser): View
    decreases |lines|
  {
    if lines == [] then v
    else ApplyLine(FoldLines(v, AllButLast(lines), parse), Last(lines), parse)
  }

  /** One read of the unbuffered handler: the chunk alone, split on line breaks; nothing is carried over. */
  function ApplyChunk(v: View, chunk: string, parse: Parser): View {
    FoldLines(v, Split(chunk, LineDelimiter), parse)
  }

  /** The unbuffered handler's state after the chunks, in order. */
  function FoldChunks(v: View, chunks: seq<string>, parse: Parser): View
    decreases |chunks|
  {
    if chunks == [] then v
    else ApplyChunk(FoldChunks(v, AllButLast(chunks), parse), Last(chunks), parse)
  }

  /** A line that ends the unbuffered handler's streaming flag. */
  predicate Terminal(line: string, parse: Parser) {
    Decode(line, parse).Complete? || Decode(line, parse).Failure?
  }

  /**
   * Starting from a streaming state, the flag is clear after the lines
   * exactly when one of them was `complete` or `error`; the lines never set it.
   */
  lemma {:induction false} FlagClearedIffTerminal(response: string, lines: seq<string>, parse: Parser)
    ensures !FoldLines(View(response, true), lines, parse).streaming
            <==> exists i :: 0 <= i < |lines| && Terminal(lines[i], parse)
    decreases |lines|
  {
    if lines != [] {
      var earlier := AllButLast(lines);
      FlagClearedIffTerminal(response, earlier, parse);
      var before := FoldLines(View(response, true), earlier, parse);
      if !before.streaming {
        FlagStaysClear(before, [Last(lines)], parse);
      }
      if exists i :: 0 <= i < |earlier| && Terminal(earlier[i], parse) {
        var i :| 0 <= i < |earlier| && Terminal(earlier[i], parse);
        assert lines[i] == earlier[i];
      }
      if exists i :: 0 <= i < |lines| && Terminal(lines[i], parse) {
        var i :| 0 <= i < |lines| && Terminal(lines[i], parse);
        if i < |earlier| {
          assert earlier[i] == lines[i];
        }
      }
    }
  }

  /** Some line of the chunk, split on its own, is `complete` or `error`. */
  predicate ChunkHasTerminal(chunk: string, parse: Parser) {
    var lines := Split(chunk, LineDelimiter);
    exists j :: 0 <= j < |lines| && Terminal(lines[j], parse)
  }

  /**
   * Over whole reads: starting from a streaming state, the flag is clear
   * after the chunks exactly when some line of some chunk was `complete` or `error`.
   */
  lemma {:induction false} FlagClearedIffTerminalChunk(response: string, chunks: seq<string>, parse: Parser)
    ensures !FoldChunks(View(response, true), chunks, parse).streaming
            <==> exists i :: 0 <= i < |chunks| && ChunkHasTerminal(chunks[i], parse)
    decreases |chunks|
  {
    if chunks != [] {
      var earlier := AllButLast(chunks);
      var lines := Split(Last(chunks), LineDelimiter);
      FlagClearedIffTerminalChunk(response, earlier, parse);
      var before := FoldChunks(View(response, true), earlier, parse);
      if before.streaming {
        assert before == View(before.response, true);
        FlagClearedIffTerminal(before.response, lines, parse);
      } else {
        FlagStaysClear(before, lines, parse);
      }
      if exists i :: 0 <= i < |earlier| && ChunkHasTerminal(earlier[i], parse) {
        var i :| 0 <= i < |earlier| && ChunkHasTerminal(earlier[i], parse);
        assert chunks[i] == earlier[i];
      }
      if exists i :: 0 <= i < |chunks| && ChunkHasTerminal(chunks[i], parse) {
        var i :| 0 <= i < |chunks| && ChunkHasTerminal(chunks[i], parse);
        if i < |earlier| {
          assert earlier[i] == chunks[i];
        } else {
          assert chunks[i] == Last(chunks);
        }
      }
    }
  }

  /** Once the unbuffered handler's flag is clear, no line sets it again. */
  lemma {:induction false} FlagStaysClear(v: View, lines: seq<string>, parse: Parser)
    requires !v.streaming
    ensures !FoldLines(v, lines, parse).streaming
    decreases |lines|
  {
    if lines != [] {
      FlagStaysClear(v, AllButLast(lines), parse);
    }
  }
}
