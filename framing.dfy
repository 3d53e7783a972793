/** The wire format of `LowLevelPipeConnection`: every message is a 9-byte
    header (one type byte, a 1-byte request number, a 7-byte big-endian
    payload length) followed by the payload. Pure encoding and parsing over
    byte strings; the pipe itself is in module Connection. */
module Framing {
  import opened Common
  import opened Bytes

  /** Length of the header that precedes every payload. */
  const HeaderSize: nat := 9

  /** The type characters of the protocol. */
  datatype FrameKind =
    | GenericObject   // 'o': a pickled Python object
    | Buffer          // 'b': raw bytes
    | FileRef         // 'f': the id of a virtual file
    | IteratorRef     // 'i': the id of a virtual file carrying an iterator
    | RoRPath         // 'r': a pickled RORPath
    | RPath           // 'R': a pickled RPath
    | QuotedRPath     // 'Q': a pickled QuotedRPath
    | ConnectionRef   // 'c': the number of a connection
    | Quit            // 'q': the quit signal

  function KindChar(k: FrameKind): char
  {
    match k
    case GenericObject => 'o'
    case Buffer => 'b'
    case FileRef => 'f'
    case IteratorRef => 'i'
    case RoRPath => 'r'
    case RPath => 'R'
    case QuotedRPath => 'Q'
    case ConnectionRef => 'c'
    case Quit => 'q'
  }

  /** Which type a header byte announces, if any. */
  function ByteToKind(b: Byte): (r: Option<FrameKind>)
    ensures r.Some? ==> KindChar(r.value) as int == b
    ensures r.None? ==> forall k: FrameKind :: KindChar(k) as int != b
  {
    if b == 'o' as int then Some(GenericObject)
    else if b == 'b' as int then Some(Buffer)
    else if b == 'f' as int then Some(FileRef)
    else if b == 'i' as int then Some(IteratorRef)
    else if b == 'r' as int then Some(RoRPath)
    else if b == 'R' as int then Some(RPath)
    else if b == 'Q' as int then Some(QuotedRPath)
    else if b == 'c' as int then Some(ConnectionRef)
    else if b == 'q' as int then Some(Quit)
    else None
  }

  lemma KindOfChar(k: FrameKind)
    ensures ByteToKind(KindChar(k) as int) == Some(k)
  {
  }

  /** Errors of `_write`: the header assertion, the ASCII encoding of the
      header character, and the OverflowError of `_i2b`. */
  datatype WriteError = HeaderNotOneChar | HeaderNotAscii | Overflow(reason: CodecError)

  /** The bytes `_write(headerchar, data, req_num)` sends down the pipe. */
  function EncodeFrame(header: string, data: seq<Byte>, reqNum: int): (r: Result<seq<Byte>, WriteError>)
    ensures r.Ok? <==> |header| == 1 && header[0] as int < 128 && 0 <= reqNum < 256 && |data| < Pow256(7)
    ensures r.Ok? ==>
      && |r.value| == HeaderSize + |data|
      && r.value[0] == header[0] as int
      && r.value[1] == reqNum
      && FromBytes(r.value[2..HeaderSize]) == |data|
      && r.value[HeaderSize..] == data
    ensures r == Err(HeaderNotOneChar) <==> |header| != 1
  {
    if |header| != 1 then Err(HeaderNotOneChar)
    else if header[0] as int >= 128 then Err(HeaderNotAscii)
    else match IntToBytes(reqNum, 1)
      case Err(e) => Err(Overflow(e))
      case Ok(num) =>
        assert num == [num[0]] && FromBytes(num) == num[0];
        match IntToBytes(|data|, 7)
        case Err(e) => Err(Overflow(e))
        case Ok(len) =>
          var frame := [header[0] as int] + num + len + data;
          assert frame[2..HeaderSize] == len && frame[HeaderSize..] == data;
          Ok(frame)
  }

  /** The frame written by `_putquit`. */
  function QuitFrame(): (r: seq<Byte>)
    ensures r == [113, 255, 0, 0, 0, 0, 0, 0, 0]
  {
    var bytes := EncodeFrame("q", [], 255).value;
    assert bytes[2..HeaderSize] == [0, 0, 0, 0, 0, 0, 0] by {
      FromBytesInjective(bytes[2..HeaderSize]);
    }
    assert bytes == bytes[..2] + bytes[2..HeaderSize];
    bytes
  }

  /** One message as it travels on the pipe. */
  datatype Frame = Frame(kind: FrameKind, reqNum: Byte, data: seq<Byte>)

  /** ConnectionReadError (truncated header or invalid type character) and
      ConnectionQuit. */
  datatype ReadError = TruncatedHeader | QuitReceived | InvalidFormat(format: Byte)

  /** The outcome of one `_get`, and how many bytes it took from the pipe. */
  datatype Parsed = Parsed(result: Result<Frame, ReadError>, consumed: nat)

  /** What `_get` reads from a pipe holding `input`: a short header is an error;
      a 'q' header stops before any payload; otherwise the payload is read
      (a short read at end of input yields fewer bytes) and only then is the
      type character checked. */
  function ParseFrame(input: seq<Byte>): (r: Parsed)
    ensures r.consumed <= |input|
    ensures r.result == Err(TruncatedHeader) <==> |input| < HeaderSize
    ensures r.result == Err(QuitReceived) <==> |input| >= HeaderSize && input[0] == 'q' as int
    ensures r.result == Err(QuitReceived) ==> r.consumed == HeaderSize
    ensures r.result.Err? && r.result.error.InvalidFormat? <==>
      |input| >= HeaderSize && ByteToKind(input[0]).None?
    ensures r.result.Ok? ==>
      var f := r.result.value;
      && f.kind != Quit
      && KindChar(f.kind) as int == input[0]
      && f.reqNum == input[1]
      && r.consumed == HeaderSize + |f.data|
      && f.data == input[HeaderSize..r.consumed]
      && |f.data| <= FromBytes(input[2..HeaderSize])
  {
    if |input| < HeaderSize then Parsed(Err(TruncatedHeader), |input|)
    else
      var format := input[0];
      assert input[1..2] == [input[1]] && input[1..2][..0] == [];
      var reqNum := FromBytes(input[1..2]);
      var length := FromBytes(input[2..HeaderSize]);
      if format == 'q' as int then Parsed(Err(QuitReceived), HeaderSize)
      else
        var end := if HeaderSize + length <= |input| then HeaderSize + length else |input|;
        var data := input[HeaderSize..end];
        match ByteToKind(format)
        case None => Parsed(Err(InvalidFormat(format)), end)
        case Some(k) => Parsed(Ok(Frame(k, reqNum, data)), end)
  }

  /** A payload that is all on the pipe is read in full, as long as the
      header announced; only at the end of the input is it cut short. */
  lemma ParseFrameLength(input: seq<Byte>)
    requires ParseFrame(input).result.Ok?
    ensures var len := FromBytes(input[2..HeaderSize]);
      var f := ParseFrame(input).result.value;
      |f.data| == if HeaderSize + len <= |input| then len else |input| - HeaderSize
  {
  }

  /** Parsing what `_write` produced gives back the type, the request number and
      the payload, and leaves whatever followed on the pipe untouched. */
  lemma FrameRoundTrip(k: FrameKind, data: seq<Byte>, reqNum: Byte, rest: seq<Byte>)
    requires k != Quit && |data| < Pow256(7)
    ensures EncodeFrame([KindChar(k)], data, reqNum).Ok?
    ensures var bytes := EncodeFrame([KindChar(k)], data, reqNum).value;
      ParseFrame(bytes + rest) == Parsed(Ok(Frame(k, reqNum, data)), |bytes|)
  {
    var bytes := EncodeFrame([KindChar(k)], data, reqNum).value;
    var input := bytes + rest;
    assert input[2..HeaderSize] == bytes[2..HeaderSize];
    assert input[HeaderSize..|bytes|] == data;
    KindOfChar(k);
  }

  /** A quit frame is recognised from its header alone. */
  lemma QuitRoundTrip(rest: seq<Byte>)
    ensures ParseFrame(QuitFrame() + rest) == Parsed(Err(QuitReceived), HeaderSize)
  {
  }

  /** The bytes `_write` produces for one frame, or its refusal. */
  function FrameBytes(f: Frame): Result<seq<Byte>, WriteError>
  {
    EncodeFrame([KindChar(f.kind)], f.data, f.reqNum)
  }

  /** Only a payload too long for the 7-byte length field is refused: the
      frame types all have ASCII characters and request numbers are bytes. */
  lemma FrameBytesFit(f: Frame)
    ensures FrameBytes(f).Ok? <==> |f.data| < Pow256(7)
  {
    assert KindChar(f.kind) as int < 128;
  }

  /** What writing byte strings one `_write` after the other leaves on the
      pipe: every string up to the first refusal, and that refusal. */
  datatype Sent = Sent(written: seq<Byte>, failure: Option<WriteError>)

  function WriteChunks(chunks: seq<Result<seq<Byte>, WriteError>>): (s: Sent)
    ensures s.failure.None? <==> forall i :: 0 <= i < |chunks| ==> chunks[i].Ok?
  {
    if chunks == [] then Sent([], None)
    else match chunks[0]
      case Err(e) => Sent([], Some(e))
      case Ok(bytes) =>
        var more := WriteChunks(chunks[1..]);
        Sent(bytes + more.written, more.failure)
  }

  /** One more write after a run that went through: its bytes are appended,
      or it is the one that fails. */
  lemma {:induction false} WriteChunksAppend(chunks: seq<Result<seq<Byte>, WriteError>>, c: Result<seq<Byte>, WriteError>)
    requires WriteChunks(chunks).failure.None?
    ensures var s := WriteChunks(chunks);
      WriteChunks(chunks + [c]) ==
        if c.Ok? then Sent(s.written + c.value, None) else Sent(s.written, Some(c.error))
  {
    var all := chunks + [c];
    if chunks == [] {
      assert all == [c] && all[1..] == [];
      if c.Ok? {
        assert c.value + [] == [] + c.value;
      }
    } else {
      assert all[0] == chunks[0] && all[1..] == chunks[1..] + [c];
      WriteChunksAppend(chunks[1..], c);
      var bytes, t := chunks[0].value, WriteChunks(chunks[1..]).written;
      assert forall x :: bytes + (t + x) == (bytes + t) + x;
    }
  }

  /** Once a write has been refused, nothing more is written. */
  lemma {:induction false} WriteChunksStop(chunks: seq<Result<seq<Byte>, WriteError>>, more: seq<Result<seq<Byte>, WriteError>>)
    requires WriteChunks(chunks).failure.Some?
    ensures WriteChunks(chunks + more) == WriteChunks(chunks)
  {
    var all := chunks + more;
    assert all[0] == chunks[0] && all[1..] == chunks[1..] + more;
    if chunks[0].Ok? {
      WriteChunksStop(chunks[1..], more);
    }
  }

  /** The frames' encodings, in order. */
  function FrameChunks(frames: seq<Frame>): (r: seq<Result<seq<Byte>, WriteError>>)
    ensures |r| == |frames|
  {
    if frames == [] then [] else [FrameBytes(frames[0])] + FrameChunks(frames[1..])
  }

  lemma {:induction false} FrameChunksAt(frames: seq<Frame>, i: nat)
    requires i < |frames|
    ensures FrameChunks(frames)[i] == FrameBytes(frames[i])
  {
    if i > 0 {
      FrameChunksAt(frames[1..], i - 1);
    }
  }

  /** Writing `frames` one after the other, `_write` by `_write`. */
  function WriteFrames(frames: seq<Frame>): Sent
  {
    WriteChunks(FrameChunks(frames))
  }

  /** A run of frames is written completely iff every payload fits. */
  lemma WriteFramesFit(frames: seq<Frame>)
    ensures WriteFrames(frames).failure.None? <==>
      forall i :: 0 <= i < |frames| ==> |frames[i].data| < Pow256(7)
  {
    var chunks := FrameChunks(frames);
    forall i | 0 <= i < |frames|
      ensures chunks[i].Ok? <==> |frames[i].data| < Pow256(7)
    {
      FrameChunksAt(frames, i);
      FrameBytesFit(frames[i]);
    }
  }

  /** Writing a run of frames is writing the first, then the others. */
  lemma WriteFramesCons(frames: seq<Frame>)
    requires frames != [] && FrameBytes(frames[0]).Ok?
    ensures WriteFrames(frames) ==
      Sent(FrameBytes(frames[0]).value + WriteFrames(frames[1..]).written, WriteFrames(frames[1..]).failure)
  {
  }
}
