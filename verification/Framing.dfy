/** Bounded LF framing over a byte stream that arrives in arbitrary chunks
    (shared/stdio_framing.py). */
module Framing {
  import opened Foundations
  import Utf8

  const MAX_BINARY_FRAME_BYTES: nat := 2 * 1024 * 1024
  const MAX_BINARY_READ_BYTES: nat := 64 * 1024

  const LF: Byte := 10
  const CR: Byte := 13

  /** What one call of `read_frame` produces: a frame, clean end of stream, or an error code. */
  datatype Frame =
    | Line(text: Text)
    | End
    | InvalidUtf8
    | FrameTooLarge
    | IncompleteFrame
    | ReadFailed

  /** `find(b"\n")`, with the length standing for "absent". */
  function IndexOfLf(b: Bytes): (n: nat)
    ensures n <= |b|
    ensures n < |b| ==> b[n] == LF
    ensures forall i :: 0 <= i < n ==> b[i] != LF
  {
    if b == [] || b[0] == LF then 0 else 1 + IndexOfLf(b[1..])
  }

  lemma {:induction false} FirstLf(b: Bytes, n: nat)
    requires n < |b| && b[n] == LF && forall i :: 0 <= i < n ==> b[i] != LF
    ensures IndexOfLf(b) == n
  {
    assert !(IndexOfLf(b) < n) && !(n < IndexOfLf(b));
  }

  // ----- the specification: one frame of a whole byte string -----

  /** The result of a call when b is everything still to come, and what remains after it. */
  function Next(b: Bytes, maximum: nat): (Frame, Bytes) {
    var n := IndexOfLf(b);
    if n < |b| && n < maximum then
      (match Utf8.Decode(b[..n])
       case Some(text) => (Line(text), b[n + 1..])
       case None => (InvalidUtf8, b[n + 1..]))
    else if |b| >= maximum then (FrameTooLarge, b)
    else if b != [] then (IncompleteFrame, b)
    else (End, b)
  }

  /** The results of the next `calls` calls. */
  function Results(b: Bytes, maximum: nat, calls: nat): (r: seq<Frame>)
    ensures |r| == calls
  {
    if calls == 0 then []
    else
      var (frame, rest) := Next(b, maximum);
      [frame] + Results(rest, maximum, calls - 1)
  }

  function AfterCalls(b: Bytes, maximum: nat, calls: nat): Bytes {
    if calls == 0 then b else AfterCalls(Next(b, maximum).1, maximum, calls - 1)
  }

  lemma {:induction false} ResultsSnoc(b: Bytes, maximum: nat, calls: nat)
    ensures var last := Next(AfterCalls(b, maximum, calls), maximum);
      && Results(b, maximum, calls + 1) == Results(b, maximum, calls) + [last.0]
      && AfterCalls(b, maximum, calls + 1) == last.1
  {
    if calls == 0 {
      assert Results(b, maximum, 1) == [Next(b, maximum).0] + Results(Next(b, maximum).1, maximum, 0);
    } else {
      ResultsSnoc(Next(b, maximum).1, maximum, calls - 1);
    }
  }

  // ----- the stream behind the callback -----

  /** How the callback behaves on one call. Deliver(n) hands out n bytes, but at least one and at
      most what was asked for or is left; Overrun hands out more than was asked for. */
  datatype Behaviour = Deliver(n: nat) | Raise | Overrun

  datatype Chunk = Received(bytes: Bytes) | Exception

  class ByteSource {
    var remaining: Bytes
    var plan: seq<Behaviour>

    constructor (bytes: Bytes, behaviour: seq<Behaviour>)
      ensures remaining == bytes && plan == behaviour
    {
      remaining := bytes;
      plan := behaviour;
    }

    /** Nothing in the plan raises or overruns. */
    predicate Faultless()
      reads this
    {
      forall i :: 0 <= i < |plan| ==> plan[i].Deliver?
    }

    predicate NeverOverruns()
      reads this
    {
      forall i :: 0 <= i < |plan| ==> !plan[i].Overrun?
    }

    method Read(requested: nat) returns (chunk: Chunk)
      requires requested > 0
      modifies this
      ensures chunk == Exception ==> remaining == old(remaining) && !old(Faultless())
      ensures chunk.Received? ==> chunk.bytes + remaining == old(remaining)
      ensures chunk.Received? && chunk.bytes == [] ==> remaining == []
      ensures chunk.Received? && |chunk.bytes| > requested ==> !old(NeverOverruns())
      ensures old(Faultless()) ==> Faultless()
      ensures old(NeverOverruns()) ==> NeverOverruns()
    {
      var behaviour := if plan == [] then Deliver(requested) else plan[0];
      if plan != [] {
        plan := plan[1..];
      }
      match behaviour {
        case Raise => return Exception;
        case Deliver(n) =>
          var wanted := if n == 0 then 1 else if n > requested then requested else n;
          var size := if wanted < |remaining| then wanted else |remaining|;
          chunk := Received(remaining[..size]);
          remaining := remaining[size..];
        case Overrun =>
          var size := if requested + 1 < |remaining| then requested + 1 else |remaining|;
          chunk := Received(remaining[..size]);
          remaining := remaining[size..];
      }
    }
  }

  // ----- the reader -----

  class BoundedBinaryFrameReader {
    const source: ByteSource
    const maximumBytes: nat
    var buffer: Bytes
    var eof: bool

    ghost predicate Valid()
      reads this, source
    {
      && 0 < maximumBytes <= MAX_BINARY_FRAME_BYTES
      && |buffer| <= maximumBytes
      && (eof ==> source.remaining == [])
    }

    /** Everything received but not yet returned, and everything still to be received. */
    ghost function Pending(): Bytes
      reads this, source
    {
      buffer + source.remaining
    }

    constructor (source: ByteSource, maximumBytes: nat)
      requires 0 < maximumBytes <= MAX_BINARY_FRAME_BYTES
      ensures Valid() && this.source == source && this.maximumBytes == maximumBytes
      ensures Pending() == source.remaining
    {
      this.source := source;
      this.maximumBytes := maximumBytes;
      buffer := [];
      eof := false;
    }

    /** The result depends only on the pending bytes, never on the chunks they arrive in; a
        callback that raises loses nothing; the buffer stays within the limit. */
    method ReadFrame() returns (frame: Frame)
      requires Valid()
      modifies this, source
      ensures Valid()
      ensures frame != ReadFailed ==> (frame, Pending()) == Next(old(Pending()), maximumBytes)
      ensures frame == ReadFailed ==> !old(source.Faultless())
      ensures frame == ReadFailed && old(source.NeverOverruns()) ==> Pending() == old(Pending())
      ensures old(source.Faultless()) ==> source.Faultless()
      ensures old(source.NeverOverruns()) ==> source.NeverOverruns()
    {
      ghost var pending := Pending();
      while true
        invariant Valid() && Pending() == pending
        invariant old(source.Faultless()) ==> source.Faultless()
        invariant old(source.NeverOverruns()) ==> source.NeverOverruns()
        decreases |source.remaining|, !eof
      {
        var newline := IndexOfLf(buffer);
        if newline < |buffer| {
          if newline + 1 > maximumBytes {
            return FrameTooLarge;
          }
          FrameInBuffer(buffer, source.remaining, maximumBytes);
          var content := buffer[..newline];
          buffer := buffer[newline + 1..];
          match Utf8.Decode(content) {
            case Some(text) => return Line(text);
            case None => return InvalidUtf8;
          }
        }
        NoFrameInBuffer(buffer, source.remaining, maximumBytes);
        if |buffer| >= maximumBytes {
          return FrameTooLarge;
        }
        if eof {
          if buffer != [] {
            return IncompleteFrame;
          }
          return End;
        }
        var room := maximumBytes - |buffer|;
        var requested := if MAX_BINARY_READ_BYTES < room then MAX_BINARY_READ_BYTES else room;
        var chunk := source.Read(requested);
        if chunk == Exception {
          return ReadFailed;
        }
        assert pending == buffer + chunk.bytes + source.remaining;
        if |chunk.bytes| > requested {
          return ReadFailed;
        }
        if chunk.bytes == [] {
          eof := true;
        } else {
          buffer := buffer + chunk.bytes;
        }
      }
    }
  }

  /** A buffer that holds a whole frame decides the result. */
  lemma {:induction false} FrameInBuffer(buffer: Bytes, rest: Bytes, maximum: nat)
    requires IndexOfLf(buffer) < |buffer| <= maximum
    ensures var n := IndexOfLf(buffer);
      Next(buffer + rest, maximum) ==
        (match Utf8.Decode(buffer[..n]) case Some(text) => Line(text) case None => InvalidUtf8,
         buffer[n + 1..] + rest)
  {
    var n := IndexOfLf(buffer);
    FirstLf(buffer + rest, n);
    assert (buffer + rest)[..n] == buffer[..n];
    assert (buffer + rest)[n + 1..] == buffer[n + 1..] + rest;
  }

  /** A buffer without LF decides the result only when it is full or nothing follows it. */
  lemma {:induction false} NoFrameInBuffer(buffer: Bytes, rest: Bytes, maximum: nat)
    requires IndexOfLf(buffer) == |buffer|
    ensures |buffer| >= maximum ==> Next(buffer + rest, maximum) == (FrameTooLarge, buffer + rest)
    ensures rest == [] && |buffer| < maximum ==>
      Next(buffer + rest, maximum) == (if buffer == [] then End else IncompleteFrame, buffer)
  {
    var n := IndexOfLf(buffer + rest);
    assert forall i :: 0 <= i < |buffer| ==> (buffer + rest)[i] == buffer[i];
    assert n >= |buffer|;
    assert rest == [] ==> buffer + rest == buffer;
  }

  /** The transport's loop around `read_frame` (mcp_server/src/defined_quant_mcp/server.py). */
  method ReadFrames(reader: BoundedBinaryFrameReader, calls: nat) returns (frames: seq<Frame>)
    requires reader.Valid() && reader.source.Faultless()
    modifies reader, reader.source
    ensures reader.Valid()
    ensures frames == Results(old(reader.Pending()), reader.maximumBytes, calls)
    ensures reader.Pending() == AfterCalls(old(reader.Pending()), reader.maximumBytes, calls)
  {
    frames := [];
    ghost var pending := reader.Pending();
    for i := 0 to calls
      invariant reader.Valid() && reader.source.Faultless()
      invariant frames == Results(pending, reader.maximumBytes, i)
      invariant reader.Pending() == AfterCalls(pending, reader.maximumBytes, i)
    {
      var frame := reader.ReadFrame();
      ResultsSnoc(pending, reader.maximumBytes, i);
      frames := frames + [frame];
    }
  }

  // ----- writing and reading back -----

  /** `utf8_lf_frame`: None where the source raises. */
  function Utf8LfFrame(text: Text): Option<Bytes> {
    if CR as int in text || LF as int in text || !Utf8.Encodable(text) then None
    else Some(Utf8.Encode(text) + [LF])
  }

  ghost predicate Writable(texts: seq<Text>, maximum: nat) {
    forall i :: 0 <= i < |texts| ==>
      Utf8LfFrame(texts[i]).Some? && |Utf8LfFrame(texts[i]).value| <= maximum
  }

  ghost function Written(texts: seq<Text>): Bytes
    requires forall i :: 0 <= i < |texts| ==> Utf8LfFrame(texts[i]).Some?
  {
    if texts == [] then [] else Utf8LfFrame(texts[0]).value + Written(texts[1..])
  }

  function Lines(texts: seq<Text>): (frames: seq<Frame>)
    ensures |frames| == |texts|
  {
    seq(|texts|, i requires 0 <= i < |texts| => Line(texts[i]))
  }

  lemma {:induction false} NextOfWritten(text: Text, rest: Bytes, maximum: nat)
    requires Utf8LfFrame(text).Some? && |Utf8LfFrame(text).value| <= maximum
    ensures Next(Utf8LfFrame(text).value + rest, maximum) == (Line(text), rest)
  {
    var content := Utf8.Encode(text);
    var b := Utf8LfFrame(text).value + rest;
    Utf8.AsciiBytesAreCharacters(text, LF);
    assert b[..|content|] == content;
    FirstLf(b, |content|);
    Utf8.DecodeOfEncode(text);
    assert b[|content| + 1..] == rest;
  }

  /** Frames that fit are read back as exactly the texts written, then a clean end. */
  lemma {:induction false} ReadingUndoesWriting(texts: seq<Text>, maximum: nat)
    requires 0 < maximum && Writable(texts, maximum)
    ensures Results(Written(texts), maximum, |texts| + 1) == Lines(texts) + [End]
  {
    if texts == [] {
      assert Results([], maximum, 1) == [Next([], maximum).0] + Results([], maximum, 0);
    } else {
      NextOfWritten(texts[0], Written(texts[1..]), maximum);
      ReadingUndoesWriting(texts[1..], maximum);
      assert Lines(texts) == [Line(texts[0])] + Lines(texts[1..]);
    }
  }

  // ----- which texts are frames, and which bytes -----

  /** Exactly the encodable texts of one line have a frame: their bytes without any CR or LF, and one LF
      at the end. */
  lemma {:induction false} FrameIff(text: Text, frame: Bytes)
    ensures Utf8LfFrame(text) == Some(frame) <==>
              && Utf8.Encodable(text) && (forall i :: 0 <= i < |text| ==> text[i] != 10 && text[i] != 13)
              && frame == Utf8.Encode(text) + [10]
    ensures Utf8LfFrame(text) == Some(frame) ==>
              frame != [] && forall i :: 0 <= i < |frame| - 1 ==> frame[i] != 10 && frame[i] != 13
  {
    if Utf8LfFrame(text) == Some(frame) {
      Utf8.AsciiBytesAreCharacters(text, LF);
      Utf8.AsciiBytesAreCharacters(text, CR);
      assert forall i :: 0 <= i < |frame| - 1 ==> frame[i] == Utf8.Encode(text)[i] && frame[i] in Utf8.Encode(text);
    }
  }

  /** The text of a line is what its bytes up to the first LF encode, which must fit with the LF. */
  lemma {:induction false} LineIff(b: Bytes, maximum: nat, text: Text, rest: Bytes)
    ensures Next(b, maximum) == (Line(text), rest) <==>
              && Utf8.Encodable(text) && b == Utf8.Encode(text) + [10] + rest
              && 10 !in Utf8.Encode(text) && |Utf8.Encode(text)| + 1 <= maximum
  {
    var n := IndexOfLf(b);
    if Next(b, maximum) == (Line(text), rest) {
      Utf8.EncodeOfDecode(b[..n]);
      assert b == b[..n] + [b[n]] + b[n + 1..];
    }
    if Utf8.Encodable(text) && b == Utf8.Encode(text) + [10] + rest && 10 !in Utf8.Encode(text) {
      var content := Utf8.Encode(text);
      assert forall i :: 0 <= i < |content| ==> b[i] == content[i] && content[i] in content;
      FirstLf(b, |content|);
      assert b[..|content|] == content && b[|content| + 1..] == rest;
      Utf8.DecodeOfEncode(text);
    }
  }

  /** Without a line there is a clean end exactly when nothing is left, an incomplete frame when what is
      left is short and has no LF, a frame too large when the first `maximum` bytes have none, and bad
      UTF-8 otherwise; only bad bytes are skipped. */
  lemma {:induction false} FailureIff(b: Bytes, maximum: nat)
    requires maximum > 0
    ensures var (frame, rest) := Next(b, maximum);
      && frame != ReadFailed
      && (frame == End <==> b == [])
      && (frame == IncompleteFrame <==> 0 < |b| < maximum && 10 !in b)
      && (frame == FrameTooLarge <==> |b| >= maximum && 10 !in b[..maximum])
      && (frame == InvalidUtf8 ==>
            exists n :: 0 <= n < |b| && n < maximum && b[n] == 10 && 10 !in b[..n] && Utf8.Decode(b[..n]).None?
                        && rest == b[n + 1..])
      && (frame == End || frame == IncompleteFrame || frame == FrameTooLarge ==> rest == b)
  {
    var n := IndexOfLf(b);
    assert n < |b| ==> 10 in b;
    if 10 in b {
      var k :| 0 <= k < |b| && b[k] == 10;
      assert n <= k;
    }
    if |b| >= maximum {
      assert forall i :: 0 <= i < maximum ==> b[..maximum][i] == b[i];
      if n < maximum {
        assert b[..maximum][n] == 10;
      }
    }
  }
}
