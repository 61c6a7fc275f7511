/** The plugin's IPC frames: Infrastructure/IpcFraming.cs, a second implementation of the same format. */
module IpcFraming {
  import opened Bytes
  import opened Streams
  import opened Wrappers
  import F = Framing

  const MAXIMUM_FRAME_BYTES := 1_048_576

  datatype IpcError = EndOfStream | FrameSizeOutsideRange | InvalidFrameSize

  function Decode(s: seq<byte>): Decoding<seq<byte>, IpcError> {
    if |s| < 4 then Rejected(EndOfStream)
    else
      var length := FromLittleEndian(s[..4]);
      if length == 0 || length > MAXIMUM_FRAME_BYTES then Rejected(InvalidFrameSize)
      else if |s| < 4 + length then Rejected(EndOfStream)
      else Decoded(s[4..4 + length], s[4 + length..])
  }

  method Write(writer: ByteWriter, payload: seq<byte>) returns (result: Result<(), IpcError>)
    modifies writer
    ensures F.IsBodySize(|payload|) ==>
              result == Success(()) && writer.written == old(writer.written) + F.EncodeFrame(payload)
    ensures !F.IsBodySize(|payload|) ==>
              result == Failure(FrameSizeOutsideRange) && writer.written == old(writer.written)
  {
    if |payload| == 0 || |payload| > MAXIMUM_FRAME_BYTES {
      return Failure(FrameSizeOutsideRange);
    }
    writer.WriteAll(ToLittleEndian(|payload|));
    writer.WriteAll(payload);
    return Success(());
  }

  method Read(reader: ByteReader) returns (result: Result<seq<byte>, IpcError>)
    modifies reader
    ensures match Decode(old(reader.Pending()))
      case Decoded(payload, rest) => result == Success(payload) && reader.Pending() == rest
      case Rejected(error) => result == Failure(error)
  {
    ghost var s := reader.Pending();
    var header := new byte[4](_ => 0);
    var filled := reader.ReadExact(header, 0);
    if !filled {
      return Failure(EndOfStream);
    }
    assert header[0..] == header[..];
    assert header[..] == (header[..] + reader.Pending())[..4] == s[..4];
    assert reader.Pending() == s[4..];
    var length := FromLittleEndian(header[..]);
    if length == 0 || length > MAXIMUM_FRAME_BYTES {
      return Failure(InvalidFrameSize);
    }
    var payload := new byte[length](_ => 0);
    filled := reader.ReadExact(payload, 0);
    if !filled {
      return Failure(EndOfStream);
    }
    assert payload[0..] == payload[..];
    assert s[4..] == payload[..] + reader.Pending();
    assert s[4..4 + length] == payload[..] && s[4 + length..] == reader.Pending();
    return Success(payload[..]);
  }

  /** The two readers accept the same streams with the same result, and refuse the same ones. */
  lemma ReadersAgree(s: seq<byte>)
    ensures forall body, rest :: Decode(s) == Decoded(body, rest) <==> F.DecodeFrame(s) == Decoded(body, rest)
    ensures Decode(s) == Rejected(InvalidFrameSize)
       <==> F.DecodeFrame(s).Rejected? && F.DecodeFrame(s).error.InvalidLength?
  {
  }

  /** Reading `count` frames, each by the reader of either side: `helperReads[i]` says which takes frame i. */
  function DecodeMixed(s: seq<byte>, helperReads: seq<bool>): Option<(seq<seq<byte>>, seq<byte>)> {
    if helperReads == [] then Some(([], s))
    else
      var taken := if helperReads[0] then Taken(F.DecodeFrame(s)) else Taken(Decode(s));
      if taken.None? then None
      else
        match DecodeMixed(taken.value.1, helperReads[1..])
        case None => None
        case Some((bodies, rest)) => Some(([taken.value.0] + bodies, rest))
  }

  function Taken<E>(d: Decoding<seq<byte>, E>): Option<(seq<byte>, seq<byte>)> {
    match d
    case Decoded(body, rest) => Some((body, rest))
    case Rejected(_) => None
  }

  /** Either side reads back any list of frames that either side wrote, whoever reads which. */
  lemma {:induction false} EitherSideReadsBack(bodies: seq<F.Body>, rest: seq<byte>, helperReads: seq<bool>)
    requires |helperReads| == |bodies|
    ensures DecodeMixed(F.EncodeFrames(bodies) + rest, helperReads) == Some((bodies, rest))
  {
    if bodies == [] {
      assert F.EncodeFrames(bodies) + rest == rest;
    } else {
      EitherSideReadsBack(bodies[1..], rest, helperReads[1..]);
      var more := F.EncodeFrames(bodies[1..]) + rest;
      var s := F.EncodeFrame(bodies[0]) + more;
      assert F.EncodeFrames(bodies) + rest == s;
      BothReadOneFrame(bodies[0], more);
      OneFrameThenMore(s, bodies[0], more, bodies[1..], rest, helperReads);
      assert [bodies[0]] + bodies[1..] == bodies;
    }
  }

  lemma BothReadOneFrame(body: F.Body, more: seq<byte>)
    ensures F.DecodeFrame(F.EncodeFrame(body) + more) == Decoded(body, more)
    ensures Decode(F.EncodeFrame(body) + more) == Decoded(body, more)
  {
    F.ReadsExactlyWhatIsWritten(F.EncodeFrame(body) + more, body, more);
    ReadersAgree(F.EncodeFrame(body) + more);
  }

  lemma OneFrameThenMore(
      s: seq<byte>, body: F.Body, more: seq<byte>, bodies: seq<F.Body>, rest: seq<byte>, helperReads: seq<bool>)
    requires |helperReads| == |bodies| + 1
    requires F.DecodeFrame(s) == Decoded(body, more) && Decode(s) == Decoded(body, more)
    requires DecodeMixed(more, helperReads[1..]) == Some((bodies, rest))
    ensures DecodeMixed(s, helperReads) == Some(([body] + bodies, rest))
  {
  }
}
