/** The pipe connection of rdiff-backup (`LowLevelPipeConnection`,
    `PipeConnection` and the server-side table of `VirtualFile`). The pipe is
    modelled as two byte strings: what the peer has sent and this side has not
    read yet, and what this side has written. */
module Connection {
  import opened Common
  import opened Bytes
  import opened Framing

  /** What `_get` hands back for each frame type. Pickled payloads stay bytes:
      unpickling is not part of this model. */
  datatype Value =
    | PickledObject(pickled: seq<Byte>)
    | RawBytes(bytes: seq<Byte>)
    | RemoteFile(id: nat)
    | RemoteIterator(id: nat)
    | PickledRoRPath(pickled: seq<Byte>)
    | PickledRPath(pickled: seq<Byte>)
    | PickledQuotedRPath(pickled: seq<Byte>)
    | ConnectionNumber(number: nat)

  /** The object `_get` builds from a frame that is not a quit signal. */
  function DecodeValue(f: Frame): Value
    requires f.kind != Quit
  {
    match f.kind
    case GenericObject => PickledObject(f.data)
    case Buffer => RawBytes(f.data)
    case FileRef => RemoteFile(FromBytes(f.data))
    case IteratorRef => RemoteIterator(FromBytes(f.data))
    case RoRPath => PickledRoRPath(f.data)
    case RPath => PickledRPath(f.data)
    case QuotedRPath => PickledQuotedRPath(f.data)
    case ConnectionRef => ConnectionNumber(FromBytes(f.data))
  }

  /** A frame is recovered from the object `_get` builds and its payload
      length: frames of one length that differ never decode to the same object. */
  lemma DecodeValueInjective(f: Frame, g: Frame)
    requires f.kind != Quit && g.kind != Quit
    ensures DecodeValue(f) == DecodeValue(g) && |f.data| == |g.data| ==>
      f.kind == g.kind && f.data == g.data
  {
    if DecodeValue(f) == DecodeValue(g) && |f.data| == |g.data| {
      FromBytesInjective(f.data);
      FromBytesInjective(g.data);
    }
  }

  /** An object as `_put` serialises it: the frame type it picked and the payload. */
  datatype Outgoing = Outgoing(kind: FrameKind, payload: seq<Byte>)

  /** The request numbers from `lo` up to 255. */
  function RequestNumbersFrom(lo: nat): (r: set<int>)
    ensures forall n :: n in r <==> lo <= n < 256
    decreases 256 - lo
  {
    if lo >= 256 then {} else {lo} + RequestNumbersFrom(lo + 1)
  }

  /** The 256 request numbers a connection starts with. */
  function AllRequestNumbers(): set<int>
  {
    RequestNumbersFrom(0)
  }

  /** ConnectionError("Exhausted possible connection numbers"). */
  datatype PoolError = RequestNumbersExhausted

  datatype RevalError =
    | NoRequestNumber(pool: PoolError)
    | RequestWriteFailed(reqNum: Byte, error: WriteError)

  datatype AnswerError =
    | UnknownRequestNumber(reqNum: Byte)          // KeyError of `set.remove`
    | ArgumentReadFailed(readError: ReadError)
    | ArgumentMismatch(expected: Byte, got: Byte)  // the assertion on argument numbers
    | MessageFormatFailed(attribute: string)       // AttributeError while building a message
    | ReplyWriteFailed(writeError: WriteError)

  /** The error `_answer_request` raises, as written, when an argument carries
      another request number: the assertion message is built with
      `"...".object(...)`, and strings have no attribute `object`, so an
      AttributeError replaces the assertion and both numbers are lost. */
  function MismatchErrorAsWritten(expected: Byte, got: Byte): AnswerError
  {
    MessageFormatFailed("object")
  }

  /** The error the assertion evidently means to raise: it names both numbers. */
  function MismatchError(expected: Byte, got: Byte): (e: AnswerError)
    ensures e.ArgumentMismatch? && e.expected == expected && e.got == got
  {
    ArgumentMismatch(expected, got)
  }

  /** The message as written cannot tell two different mismatches apart; the
      corrected one can. */
  lemma MismatchMessageLosesNumbers()
    ensures MismatchErrorAsWritten(1, 2) == MismatchErrorAsWritten(3, 4)
    ensures MismatchError(1, 2) != MismatchError(3, 4)
  {
  }

  /** The outcome of the argument loop of `_answer_request` and how many bytes it read. */
  datatype ArgsRead = ArgsRead(result: Result<seq<Value>, AnswerError>, consumed: nat)

  /** Reading `count` argument frames that must all carry `reqNum`. */
  function ReadArgs(input: seq<Byte>, count: nat, reqNum: Byte): (r: ArgsRead)
    ensures r.consumed <= |input|
    ensures r.result.Ok? ==> |r.result.value| == count
    decreases count
  {
    if count == 0 then ArgsRead(Ok([]), 0)
    else
      var p := ParseFrame(input);
      match p.result
      case Err(e) => ArgsRead(Err(ArgumentReadFailed(e)), p.consumed)
      case Ok(f) =>
        if f.reqNum != reqNum then ArgsRead(Err(MismatchError(reqNum, f.reqNum)), p.consumed)
        else Prepend([DecodeValue(f)], p.consumed, ReadArgs(input[p.consumed..], count - 1, reqNum))
  }

  /** What the argument loop of `_answer_request` leaves on the pipe: the
      bytes after the last frame it read. */
  function ReadArgsRest(input: seq<Byte>, count: nat, reqNum: Byte): seq<Byte>
    decreases count
  {
    if count == 0 then input
    else
      var p := ParseFrame(input);
      if p.result.Ok? && p.result.value.reqNum == reqNum then ReadArgsRest(input[p.consumed..], count - 1, reqNum)
      else input[p.consumed..]
  }

  /** The loop leaves exactly the bytes after those it consumed. */
  lemma {:induction false} ReadArgsRestIsSuffix(input: seq<Byte>, count: nat, reqNum: Byte)
    ensures ReadArgsRest(input, count, reqNum) == input[ReadArgs(input, count, reqNum).consumed..]
    decreases count
  {
    if count > 0 {
      var p := ParseFrame(input);
      if p.result.Ok? && p.result.value.reqNum == reqNum {
        var rest := input[p.consumed..];
        ReadArgsRestIsSuffix(rest, count - 1, reqNum);
        DropDrop(input, p.consumed, ReadArgs(rest, count - 1, reqNum).consumed);
      }
    }
  }

  /** The argument loop fails only on a frame it cannot read or on one that
      carries another request number, and then names both numbers; no
      argument to read is no bytes read. */
  lemma {:induction false} ReadArgsErrors(input: seq<Byte>, count: nat, reqNum: Byte)
    ensures var r := ReadArgs(input, count, reqNum);
      && (r.result.Err? ==> r.result.error.ArgumentReadFailed? || r.result.error.ArgumentMismatch?)
      && (r.result.Err? && r.result.error.ArgumentMismatch? ==>
            r.result.error.expected == reqNum && r.result.error.got != reqNum)
      && (count == 0 ==> r == ArgsRead(Ok([]), 0))
    decreases count
  {
    if count > 0 {
      var p := ParseFrame(input);
      if p.result.Ok? && p.result.value.reqNum == reqNum {
        ReadArgsErrors(input[p.consumed..], count - 1, reqNum);
      }
    }
  }

  /** `a` read first, then `rest`. */
  function Prepend(vs: seq<Value>, consumed: nat, rest: ArgsRead): ArgsRead
  {
    ArgsRead(
      match rest.result
      case Ok(ws) => Ok(vs + ws)
      case Err(e) => Err(e),
      consumed + rest.consumed)
  }

  /** The frame `_put` sends for an object. */
  function OutgoingFrame(o: Outgoing, reqNum: Byte): Frame
  {
    Frame(o.kind, reqNum, o.payload)
  }

  /** What answering a request leaves behind: the outcome, how many bytes
      were read, and the bytes written back. */
  datatype Answer = Answer(result: Result<(), AnswerError>, consumed: nat, written: seq<Byte>)

  /** Answering a request of `numArgs` arguments from a pipe holding `input`:
      an argument that cannot be read stops everything; otherwise the reply to
      the evaluated call is written under the same request number, unless
      `_write` refuses it. */
  function AnswerOf(input: seq<Byte>, numArgs: nat, reqNum: Byte, evaluate: seq<Value> -> Outgoing): (a: Answer)
    ensures a.consumed == ReadArgs(input, numArgs, reqNum).consumed
    ensures a.result.Ok? ==> ReadArgs(input, numArgs, reqNum).result.Ok?
    ensures a.result.Err? ==> a.written == []
  {
    var ra := ReadArgs(input, numArgs, reqNum);
    match ra.result
    case Err(e) => Answer(Err(e), ra.consumed, [])
    case Ok(vs) =>
      match FrameBytes(OutgoingFrame(evaluate(vs), reqNum))
      case Err(e) => Answer(Err(ReplyWriteFailed(e)), ra.consumed, [])
      case Ok(bytes) => Answer(Ok(()), ra.consumed, bytes)
  }

  /** What answering writes: nothing if an argument could not be read;
      otherwise the reply to the evaluated call under the request's own
      number, which the peer parses back as that reply, unless its payload
      does not fit the length field. */
  lemma AnswerReply(input: seq<Byte>, numArgs: nat, reqNum: Byte, evaluate: seq<Value> -> Outgoing)
    ensures var ra := ReadArgs(input, numArgs, reqNum);
      var a := AnswerOf(input, numArgs, reqNum, evaluate);
      && (ra.result.Err? ==> a == Answer(Err(ra.result.error), ra.consumed, []))
      && (ra.result.Ok? ==>
        var reply := evaluate(ra.result.value);
        && (a.result.Ok? <==> |reply.payload| < Pow256(7))
        && (a.result.Ok? ==> |a.written| == HeaderSize + |reply.payload| && a.written[1] == reqNum)
        && (a.result.Ok? && reply.kind != Quit ==>
              ParseFrame(a.written) == Parsed(Ok(OutgoingFrame(reply, reqNum)), |a.written|)))
  {
    var ra := ReadArgs(input, numArgs, reqNum);
    if ra.result.Ok? {
      var f := OutgoingFrame(evaluate(ra.result.value), reqNum);
      FrameBytesFit(f);
      if FrameBytes(f).Ok? {
        ReplyRoundTrip(f, FrameBytes(f).value);
      }
    }
  }

  /** The reply frame, once written, parses back to itself. */
  lemma ReplyRoundTrip(f: Frame, bytes: seq<Byte>)
    requires FrameBytes(f) == Ok(bytes)
    ensures |bytes| == HeaderSize + |f.data| && bytes[1] == f.reqNum
    ensures f.kind != Quit ==> ParseFrame(bytes) == Parsed(Ok(f), |bytes|)
  {
    if f.kind != Quit {
      FrameRoundTrip(f.kind, f.data, f.reqNum, []);
      assert bytes + [] == bytes;
    }
  }

  /** One argument frame per object, all under request number `reqNum`. */
  function ArgFrames(args: seq<Outgoing>, reqNum: Byte): (r: seq<Frame>)
    ensures |r| == |args|
    ensures forall i :: 0 <= i < |r| ==> r[i] == Frame(args[i].kind, reqNum, args[i].payload)
  {
    if args == [] then []
    else [Frame(args[0].kind, reqNum, args[0].payload)] + ArgFrames(args[1..], reqNum)
  }

  /** Nothing read first changes nothing. */
  lemma PrependNothing(rest: ArgsRead)
    ensures Prepend([], 0, rest) == rest
  {
    if rest.result.Ok? {
      assert [] + rest.result.value == rest.result.value;
    }
  }

  /** Reading in two goes is reading once. */
  lemma PrependPrepend(vs: seq<Value>, c: nat, ws: seq<Value>, d: nat, rest: ArgsRead)
    ensures Prepend(vs, c, Prepend(ws, d, rest)) == Prepend(vs + ws, c + d, rest)
  {
    if rest.result.Ok? {
      assert vs + (ws + rest.result.value) == (vs + ws) + rest.result.value;
    }
  }

  /** One step of the argument loop: a frame that cannot be read or carries
      another request number ends it; otherwise its object is the next
      argument. */
  lemma ReadArgsStep(input: seq<Byte>, count: nat, reqNum: Byte)
    requires count > 0
    ensures var p := ParseFrame(input);
      var ra := ReadArgs(input, count, reqNum);
      && (p.result.Err? ==> ra == ArgsRead(Err(ArgumentReadFailed(p.result.error)), p.consumed))
      && (p.result.Ok? && p.result.value.reqNum != reqNum ==>
            ra == ArgsRead(Err(MismatchError(reqNum, p.result.value.reqNum)), p.consumed))
      && (p.result.Ok? && p.result.value.reqNum == reqNum ==>
            ra == Prepend([DecodeValue(p.result.value)], p.consumed, ReadArgs(input[p.consumed..], count - 1, reqNum)))
  {
  }

  /** The frames `reval` sends: the pickled request, then its arguments. */
  function RequestFrames(request: seq<Byte>, args: seq<Outgoing>, reqNum: Byte): (r: seq<Frame>)
    ensures |r| == |args| + 1 && r[0] == Frame(GenericObject, reqNum, request)
    ensures forall i :: 0 <= i < |r| ==> r[i].reqNum == reqNum
    ensures forall i :: 0 <= i < |args| ==> r[i + 1] == Frame(args[i].kind, reqNum, args[i].payload)
  {
    [Frame(GenericObject, reqNum, request)] + ArgFrames(args, reqNum)
  }

  /** The objects `_get` builds from a run of frames. */
  function DecodeAll(frames: seq<Frame>): (r: seq<Value>)
    requires forall i :: 0 <= i < |frames| ==> frames[i].kind != Quit
    ensures |r| == |frames|
    ensures forall i :: 0 <= i < |r| ==> r[i] == DecodeValue(frames[i])
  {
    if frames == [] then [] else [DecodeValue(frames[0])] + DecodeAll(frames[1..])
  }

  /** The argument loop reads a frame `_write` produced as one argument. */
  lemma ReadArgsCons(f: Frame, more: seq<Byte>, count: nat)
    requires count > 0 && f.kind != Quit && |f.data| < Pow256(7)
    ensures EncodeFrame([KindChar(f.kind)], f.data, f.reqNum).Ok?
    ensures var head := EncodeFrame([KindChar(f.kind)], f.data, f.reqNum).value;
      ReadArgs(head + more, count, f.reqNum) ==
      Prepend([DecodeValue(f)], |head|, ReadArgs(more, count - 1, f.reqNum))
  {
    var head := EncodeFrame([KindChar(f.kind)], f.data, f.reqNum).value;
    FrameRoundTrip(f.kind, f.data, f.reqNum, more);
    assert (head + more)[|head|..] == more;
  }

  /** Frames written under one request number are read back, in order, by the
      argument loop of `_answer_request`, which takes exactly their bytes and
      leaves what follows. */
  lemma {:induction false} FramesRoundTrip(frames: seq<Frame>, reqNum: Byte, rest: seq<Byte>)
    requires forall i :: 0 <= i < |frames| ==>
      frames[i].kind != Quit && frames[i].reqNum == reqNum && |frames[i].data| < Pow256(7)
    ensures var s := WriteFrames(frames);
      && s.failure.None?
      && ReadArgs(s.written + rest, |frames|, reqNum) == ArgsRead(Ok(DecodeAll(frames)), |s.written|)
  {
    WriteFramesFit(frames);
    if frames != [] {
      var f, n, more := frames[0], |frames|, frames[1..];
      var head := EncodeFrame([KindChar(f.kind)], f.data, reqNum).value;
      var tail := WriteFrames(more).written;
      assert forall i :: 0 <= i < |more| ==> more[i] == frames[i + 1];
      FramesRoundTrip(more, reqNum, rest);
      var read := ReadArgs(tail + rest, n - 1, reqNum);
      assert read == ArgsRead(Ok(DecodeAll(more)), |tail|);
      WriteFramesCons(frames);
      ConcatAssoc(head, tail, rest);
      ReadArgsCons(f, tail + rest, n);
      assert DecodeAll(frames) == [DecodeValue(f)] + DecodeAll(more);
      assert ReadArgs(head + (tail + rest), n, reqNum) == Prepend([DecodeValue(f)], |head|, read);
    }
  }

  /** Arguments sent by `reval` come back, in order, on the other side of the pipe. */
  lemma ArgumentsRoundTrip(args: seq<Outgoing>, reqNum: Byte, rest: seq<Byte>)
    requires forall i :: 0 <= i < |args| ==> args[i].kind != Quit && |args[i].payload| < Pow256(7)
    ensures var frames := ArgFrames(args, reqNum);
      var s := WriteFrames(frames);
      && s.failure.None?
      && ReadArgs(s.written + rest, |args|, reqNum) == ArgsRead(Ok(DecodeAll(frames)), |s.written|)
  {
    FramesRoundTrip(ArgFrames(args, reqNum), reqNum, rest);
  }

  /** Both ends of a pipe connection, and its request-number pool. */
  class PipeConnection {
    /** Bytes the peer has sent that this side has not read yet (`inpipe`). */
    var inbuf: seq<Byte>
    /** Everything this side has written to `outpipe`. */
    var outbuf: seq<Byte>
    /** `unused_request_numbers`. */
    var unused: set<int>
    const connNumber: int

    ghost predicate Valid()
      reads this
    {
      forall n :: n in unused ==> 0 <= n < 256
    }

    constructor (input: seq<Byte>, connNumber: int)
      ensures Valid()
      ensures inbuf == input && outbuf == [] && this.connNumber == connNumber
      ensures unused == AllRequestNumbers()
    {
      inbuf := input;
      outbuf := [];
      unused := AllRequestNumbers();
      this.connNumber := connNumber;
    }

    /** `_write`: the header, then the payload. Nothing is written when the
        header is not one ASCII character or a number does not fit. */
    method Write(header: string, data: seq<Byte>, reqNum: int) returns (r: Result<(), WriteError>)
      modifies this`outbuf
      ensures r.Ok? <==> EncodeFrame(header, data, reqNum).Ok?
      ensures r.Ok? ==> outbuf == old(outbuf) + EncodeFrame(header, data, reqNum).value
      ensures r.Err? ==> r.error == EncodeFrame(header, data, reqNum).error && outbuf == old(outbuf)
    {
      if |header| != 1 {
        return Err(HeaderNotOneChar);
      }
      if header[0] as int >= 128 {
        return Err(HeaderNotAscii);
      }
      var num := IntToBytes(reqNum, 1);
      if num.Err? {
        return Err(Overflow(num.error));
      }
      var len := IntToBytes(|data|, 7);
      if len.Err? {
        return Err(Overflow(len.error));
      }
      var head := [header[0] as int] + num.value + len.value;
      assert EncodeFrame(header, data, reqNum) == Ok(head + data);
      ghost var before := outbuf;
      outbuf := outbuf + head;
      outbuf := outbuf + data;
      ConcatAssoc(before, head, data);
      r := Ok(());
    }

    /** `_putquit`: the frame that takes the server down. */
    method PutQuit()
      modifies this`outbuf
      ensures outbuf == old(outbuf) + QuitFrame()
    {
      var r := Write("q", [], 255);
    }

    /** `_get`: read one frame and build the object it carries. */
    method Get() returns (r: Result<(Byte, Value), ReadError>)
      modifies this`inbuf
      ensures var p := ParseFrame(old(inbuf));
        && inbuf == old(inbuf)[p.consumed..]
        && r == match p.result
                case Ok(f) => Ok((f.reqNum, DecodeValue(f)))
                case Err(e) => Err(e)
    {
      ghost var input := inbuf;
      var n := if |inbuf| < HeaderSize then |inbuf| else HeaderSize;
      var header := inbuf[..n];
      inbuf := inbuf[n..];
      if |header| != HeaderSize {
        return Err(TruncatedHeader);
      }
      var format := header[0];
      var reqNum := FromBytes(header[1..2]);
      var length := FromBytes(header[2..]);
      assert header[1..2] == input[1..2] && header[2..] == input[2..HeaderSize];
      if format == 'q' as int {
        return Err(QuitReceived);
      }
      var m := if length <= |inbuf| then length else |inbuf|;
      var data := inbuf[..m];
      inbuf := inbuf[m..];
      assert data == input[HeaderSize..HeaderSize + m] && inbuf == input[HeaderSize + m..];
      var kind := ByteToKind(format);
      if kind.None? {
        return Err(InvalidFormat(format));
      }
      r := Ok((reqNum, DecodeValue(Frame(kind.value, reqNum, data))));
    }

    /** `_get_new_req_num`: take some unused number out of the pool. */
    method GetNewReqNum() returns (r: Result<Byte, PoolError>)
      requires Valid()
      modifies this`unused
      ensures Valid()
      ensures old(unused) == {} ==> r == Err(RequestNumbersExhausted) && unused == old(unused)
      ensures old(unused) != {} ==> r.Ok? && r.value in old(unused) && unused == old(unused) - {r.value}
    {
      if unused == {} {
        return Err(RequestNumbersExhausted);
      }
      ghost var some := Pick(unused);
      var n: int :| n in unused;
      unused := unused - {n};
      r := Ok(n);
    }

    /** `_put` of an object whose frame is `f`: the `_write` with its type
        character. */
    method Put(f: Frame) returns (r: Result<(), WriteError>)
      modifies this`outbuf
      ensures r.Ok? <==> FrameBytes(f).Ok?
      ensures r.Ok? ==> outbuf == old(outbuf) + FrameBytes(f).value
      ensures r.Err? ==> r.error == FrameBytes(f).error && outbuf == old(outbuf)
    {
      r := Write([KindChar(f.kind)], f.data, f.reqNum);
    }

    /** The `_put` calls of `reval`, one frame after the other; the first frame
        `_write` refuses raises, so nothing after it is sent. */
    method SendFrames(frames: seq<Frame>) returns (failure: Option<WriteError>)
      modifies this`outbuf
      ensures outbuf == old(outbuf) + WriteFrames(frames).written
      ensures failure == WriteFrames(frames).failure
    {
      ghost var chunks := FrameChunks(frames);
      var i := 0;
      assert chunks[..0] == [];
      while i < |frames|
        invariant 0 <= i <= |frames|
        invariant WriteChunks(chunks[..i]).failure.None?
        invariant outbuf == old(outbuf) + WriteChunks(chunks[..i]).written
      {
        var f := frames[i];
        ghost var done, c := chunks[..i], chunks[i];
        FrameChunksAt(frames, i);
        SplitAt(chunks, i);
        WriteChunksAppend(done, c);
        var w := Put(f);
        if w.Err? {
          WriteChunksStop(chunks[..i + 1], chunks[i + 1..]);
          return Some(w.error);
        }
        ConcatAssoc(old(outbuf), WriteChunks(done).written, c.value);
        i := i + 1;
      }
      assert chunks[..i] == chunks;
      failure := None;
    }

    /** `reval`, as far as the pipe and the pool are concerned: send the request
        and its arguments under a fresh number, then give the number back.
        A frame `_write` refuses ends the call and keeps the number out of the pool. */
    method Reval(request: seq<Byte>, args: seq<Outgoing>) returns (r: Result<Byte, RevalError>)
      requires Valid()
      modifies this`outbuf, this`unused
      ensures Valid()
      ensures old(unused) == {} <==> r == Err(NoRequestNumber(RequestNumbersExhausted))
      ensures old(unused) == {} ==> outbuf == old(outbuf) && unused == old(unused)
      ensures r.Ok? ==>
        var s := WriteFrames(RequestFrames(request, args, r.value));
        && r.value in old(unused)
        && s.failure.None?
        && outbuf == old(outbuf) + s.written
        && unused == old(unused)
      ensures r.Err? && r.error.RequestWriteFailed? ==>
        var n := r.error.reqNum;
        var s := WriteFrames(RequestFrames(request, args, n));
        && n in old(unused)
        && s.failure == Some(r.error.error)
        && outbuf == old(outbuf) + s.written
        && unused == old(unused) - {n}
    {
      var got := GetNewReqNum();
      if got.Err? {
        return Err(NoRequestNumber(got.error));
      }
      var n := got.value;
      var failure := SendFrames(RequestFrames(request, args, n));
      if failure.Some? {
        return Err(RequestWriteFailed(n, failure.value));
      }
      // the reply is read by `_get_response`, which is not part of this model
      unused := unused + {n};
      r := Ok(n);
    }

    /** One pass of the argument loop of `_answer_request`: `_get`, then the
        assertion that the object carries `reqNum`. `used` is the number of
        bytes taken from the input. */
    method ReadArgument(ghost count: nat, reqNum: Byte) returns (r: Result<Value, AnswerError>, ghost used: nat)
      requires count > 0
      modifies this`inbuf
      ensures inbuf == ReadArgsRest(old(inbuf), 1, reqNum)
      ensures r.Err? ==> ReadArgs(old(inbuf), count, reqNum) == ArgsRead(Err(r.error), used)
      ensures r.Ok? ==>
        ReadArgs(old(inbuf), count, reqNum) == Prepend([r.value], used, ReadArgs(inbuf, count - 1, reqNum))
      ensures r.Ok? ==> ReadArgsRest(old(inbuf), count, reqNum) == ReadArgsRest(inbuf, count - 1, reqNum)
      ensures r.Err? ==> ReadArgsRest(old(inbuf), count, reqNum) == inbuf
    {
      used := ParseFrame(inbuf).consumed;
      ReadArgsStep(inbuf, count, reqNum);
      var got := Get();
      if got.Err? {
        r := Err(ArgumentReadFailed(got.error));
        return;
      }
      var (argReqNum, arg) := got.value;
      if argReqNum != reqNum {
        r := Err(MismatchError(reqNum, argReqNum));
        return;
      }
      r := Ok(arg);
    }

    /** The argument loop of `_answer_request`: read `numArgs` objects, each of
        which must carry `reqNum`. */
    method ReadArguments(numArgs: nat, reqNum: Byte) returns (r: Result<seq<Value>, AnswerError>)
      modifies this`inbuf
      ensures r == ReadArgs(old(inbuf), numArgs, reqNum).result
      ensures inbuf == ReadArgsRest(old(inbuf), numArgs, reqNum)
    {
      var argumentList: seq<Value> := [];
      ghost var consumed: nat := 0;
      var i := 0;
      ghost var left := numArgs;
      PrependNothing(ReadArgs(inbuf, numArgs, reqNum));
      while i < numArgs
        invariant 0 <= i <= numArgs && |argumentList| == i && left == numArgs - i
        invariant ReadArgsRest(old(inbuf), numArgs, reqNum) == ReadArgsRest(inbuf, left, reqNum)
        invariant ReadArgs(old(inbuf), numArgs, reqNum) ==
                  Prepend(argumentList, consumed, ReadArgs(inbuf, left, reqNum))
      {
        ghost var cur := inbuf;
        var arg, used := ReadArgument(left, reqNum);
        if arg.Err? {
          assert Prepend(argumentList, consumed, ReadArgs(cur, left, reqNum)).result == Err(arg.error);
          return Err(arg.error);
        }
        PrependPrepend(argumentList, consumed, [arg.value], used, ReadArgs(inbuf, left - 1, reqNum));
        argumentList := argumentList + [arg.value];
        consumed := consumed + used;
        i, left := i + 1, left - 1;
      }
      assert argumentList + [] == argumentList;
      r := Ok(argumentList);
    }

    /** `_answer_request`: claim the number, read the arguments, evaluate, send
        the result back and release the number. An error on the way leaves the
        number out of the pool. */
    method AnswerRequest(numArgs: nat, reqNum: Byte, evaluate: seq<Value> -> Outgoing)
      returns (r: Result<(), AnswerError>)
      requires Valid()
      modifies this`inbuf, this`outbuf, this`unused
      ensures Valid()
      ensures reqNum !in old(unused) ==>
        r == Err(UnknownRequestNumber(reqNum)) && inbuf == old(inbuf) && outbuf == old(outbuf) && unused == old(unused)
      ensures reqNum in old(unused) ==>
        var a := AnswerOf(old(inbuf), numArgs, reqNum, evaluate);
        && r == a.result
        && inbuf == old(inbuf)[a.consumed..]
        && outbuf == old(outbuf) + a.written
        && unused == if r.Ok? then old(unused) else old(unused) - {reqNum}
    {
      if reqNum !in unused {
        return Err(UnknownRequestNumber(reqNum));
      }
      unused := unused - {reqNum};
      ReadArgsRestIsSuffix(inbuf, numArgs, reqNum);
      var arguments := ReadArguments(numArgs, reqNum);
      if arguments.Err? {
        return Err(arguments.error);
      }
      var reply := evaluate(arguments.value);
      var w := Write([KindChar(reply.kind)], reply.payload, reqNum);
      if w.Err? {
        return Err(ReplyWriteFailed(w.error));
      }
      unused := unused + {reqNum};
      r := Ok(());
    }

    /** `_putfile`: register the file object in the virtual file table and
        send its id, encoded with the minimal number of bytes. */
    method PutFile<F>(table: VirtualFileTable<F>, fp: F, reqNum: int) returns (r: Result<nat, WriteError>)
      requires table.Valid()
      modifies this`outbuf, table
      ensures table.Valid()
      ensures r.Ok? ==> r.value == old(table.counter) + 1
      ensures table.counter == old(table.counter) + 1
      ensures table.vfiles == old(table.vfiles)[table.counter := fp]
      ensures var id := table.counter;
        match EncodeFrame("f", IntToBytes(id, 0).value, reqNum)
        case Ok(bytes) => r == Ok(id) && outbuf == old(outbuf) + bytes
        case Err(e) => r == Err(e) && outbuf == old(outbuf)
    {
      var id := table.New(fp);
      var data := IntToBytes(id, 0);
      var w := Write("f", data.value, reqNum);
      if w.Err? {
        return Err(w.error);
      }
      r := Ok(id);
    }
  }

  lemma {:induction false} Pow256Monotone(a: nat, b: nat)
    requires a <= b
    ensures Pow256(a) <= Pow256(b)
  {
    if a < b {
      Pow256Monotone(a, b - 1);
    }
  }

  /** The peer reading what `_putfile` wrote for virtual file `id` gets back
      `VirtualFile(conn, id)`; ids below 2^64 always fit the length field. */
  lemma PutFileRoundTrip(id: nat, reqNum: Byte, rest: seq<Byte>)
    requires id < Pow256(8)
    ensures EncodeFrame("f", IntToBytes(id, 0).value, reqNum).Ok?
    ensures var bytes := EncodeFrame("f", IntToBytes(id, 0).value, reqNum).value;
      var p := ParseFrame(bytes + rest);
      && p.consumed == |bytes|
      && p.result.Ok?
      && p.result.value.reqNum == reqNum
      && DecodeValue(p.result.value) == RemoteFile(id)
  {
    var data := IntToBytes(id, 0).value;
    var m := MinimalSize(id);
    MinimalSizeFits(id);
    if m > 8 {
      Pow256Monotone(8, m - 1);
      assert false;
    }
    assert |data| == m;
    assert Pow256(7) > 8 by {
      assert Pow256(1) == 256;
      Pow256Monotone(1, 7);
    }
    assert [KindChar(FileRef)] == "f";
    FrameRoundTrip(FileRef, data, reqNum, rest);
  }

  /** The server-side class state of `VirtualFile`: `_vfiles` and `_counter`. */
  class VirtualFileTable<F> {
    var vfiles: map<int, F>
    var counter: int

    /** Every id in use was handed out by `new`, so none exceeds the counter. */
    ghost predicate Valid()
      reads this
    {
      counter >= -1 && forall id :: id in vfiles ==> 0 <= id <= counter
    }

    constructor ()
      ensures Valid() && vfiles == map[] && counter == -1
    {
      vfiles := map[];
      counter := -1;
    }

    /** `VirtualFile.new`: the next id, never used before, now names `fileobj`. */
    method New(fileobj: F) returns (id: nat)
      requires Valid()
      modifies this
      ensures Valid()
      ensures id == old(counter) + 1 && counter == id
      ensures forall k :: k in old(vfiles) ==> k < id
      ensures vfiles == old(vfiles)[id := fileobj]
    {
      counter := counter + 1;
      vfiles := vfiles[counter := fileobj];
      id := counter;
    }

    /** `VirtualFile.closebyid`: forget exactly that id (KeyError if unknown)
        and hand back the file object so that it can be closed. */
    method CloseById(id: int) returns (r: Result<F, ()>)
      requires Valid()
      modifies this`vfiles
      ensures Valid()
      ensures id in old(vfiles) ==> r == Ok(old(vfiles)[id]) && vfiles == old(vfiles) - {id}
      ensures id !in old(vfiles) ==> r == Err(()) && vfiles == old(vfiles)
    {
      if id !in vfiles {
        return Err(());
      }
      r := Ok(vfiles[id]);
      vfiles := vfiles - {id};
    }
  }

  /** Ids are strictly increasing and never reused, even after a close. */
  method VirtualFileIdsNeverReused<F>(a: F, b: F) returns (first: nat, closed: Result<F, ()>, second: nat)
    ensures closed == Ok(a)
    ensures first < second
  {
    var table := new VirtualFileTable<F>();
    first := table.New(a);
    closed := table.CloseById(first);
    second := table.New(b);
  }
}
