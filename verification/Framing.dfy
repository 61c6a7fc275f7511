/** The helper's IPC frames: protocol/framing.rs. Bodies are the serialised JSON. */
module Framing {
  import opened Bytes
  import opened Streams
  import opened Wrappers

  const MAX_FRAME_SIZE := 1024 * 1024

  datatype FrameError = EndOfStream | TruncatedHeader | TruncatedPayload | InvalidLength(length: nat)

  predicate IsBodySize(n: nat) {
    0 < n <= MAX_FRAME_SIZE
  }

  type Body = b: seq<byte> | IsBodySize(|b|) witness [0]

  function EncodeFrame(body: Body): (frame: seq<byte>) {
    ToLittleEndian(|body|) + body
  }

  /** What reading one frame off a stream gives. */
  function DecodeFrame(s: seq<byte>): Decoding<seq<byte>, FrameError> {
    if |s| == 0 then Rejected(EndOfStream)
    else if |s| < 4 then Rejected(TruncatedHeader)
    else
      var length := FromLittleEndian(s[..4]);
      if !IsBodySize(length) then Rejected(InvalidLength(length))
      else if |s| < 4 + length then Rejected(TruncatedPayload)
      else Decoded(s[4..4 + length], s[4 + length..])
  }

  method ReadFrame(reader: ByteReader) returns (result: Result<seq<byte>, FrameError>)
    modifies reader
    ensures match DecodeFrame(old(reader.Pending()))
      case Decoded(body, rest) => result == Success(body) && reader.Pending() == rest
      case Rejected(error) => result == Failure(error)
  {
    ghost var s := reader.Pending();
    var header := new byte[4](_ => 0);
    var first := reader.Read(1);
    if first == [] {
      return Failure(EndOfStream);
    }
    header[0] := first[0];
    var filled := reader.ReadExact(header, 1);
    if !filled {
      return Failure(TruncatedHeader);
    }
    assert header[..] == header[..1] + header[1..] == s[..4];
    assert reader.Pending() == s[4..];
    var length := FromLittleEndian(header[..]);
    if length == 0 || length > MAX_FRAME_SIZE {
      return Failure(InvalidLength(length));
    }
    var body;
    body, filled := reader.ReadVector(length);
    if !filled {
      return Failure(TruncatedPayload);
    }
    assert s[4..][..length] == s[4..4 + length] && s[4..][length..] == s[4 + length..];
    return Success(body);
  }

  /** A refused body is wiped before its length is reported, so the report always says zero. */
  method WriteFrame(writer: ByteWriter, body: seq<byte>) returns (result: Result<(), FrameError>)
    modifies writer
    ensures IsBodySize(|body|) ==> result == Success(()) && writer.written == old(writer.written) + EncodeFrame(body)
    ensures !IsBodySize(|body|) ==> result == Failure(InvalidLength(0)) && writer.written == old(writer.written)
  {
    if body == [] || |body| > MAX_FRAME_SIZE {
      return Failure(InvalidLength(0));
    }
    writer.WriteAll(ToLittleEndian(|body|));
    writer.WriteAll(body);
    return Success(());
  }

  /** The reader accepts exactly what the writer can write, and hands back the bytes after it. */
  lemma ReadsExactlyWhatIsWritten(s: seq<byte>, body: seq<byte>, rest: seq<byte>)
    ensures DecodeFrame(s) == Decoded(body, rest) <==> IsBodySize(|body|) && s == EncodeFrame(body) + rest
  {
    if IsBodySize(|body|) && s == EncodeFrame(body) + rest {
      assert s[..4] == ToLittleEndian(|body|);
      assert s[4..] == body + rest;
    }
    if DecodeFrame(s) == Decoded(body, rest) {
      LittleEndianInverse(s[..4]);
      assert s == s[..4] + s[4..4 + |body|] + s[4 + |body|..];
    }
  }

  /** The length goes out with its low byte first. */
  lemma HeadersAreLittleEndian(body: Body)
    ensures |EncodeFrame(body)| == 4 + |body| && EncodeFrame(body)[4..] == body
    ensures var h: seq<int> := seq(4, i requires 0 <= i < 4 => EncodeFrame(body)[i] as int);
      h[0] + 0x100 * h[1] + 0x1_0000 * h[2] + 0x100_0000 * h[3] == |body|
  {
  }

  /** Where a frame is cut off decides the error, whatever the frame. */
  lemma CutFramesAreClassified(body: Body, k: nat)
    requires k < |EncodeFrame(body)|
    ensures DecodeFrame(EncodeFrame(body)[..k])
         == Rejected(if k == 0 then EndOfStream else if k < 4 then TruncatedHeader else TruncatedPayload)
  {
    if k >= 4 {
      assert EncodeFrame(body)[..k][..4] == ToLittleEndian(|body|);
    }
  }

  function EncodeFrames(bodies: seq<Body>): seq<byte> {
    if bodies == [] then [] else EncodeFrame(bodies[0]) + EncodeFrames(bodies[1..])
  }

  /** Reading `count` frames one after another. */
  function DecodeFrames(s: seq<byte>, count: nat): Decoding<seq<seq<byte>>, FrameError> {
    if count == 0 then Decoded([], s)
    else
      match DecodeFrame(s)
      case Rejected(error) => Rejected(error)
      case Decoded(body, rest) =>
        match DecodeFrames(rest, count - 1)
        case Rejected(error) => Rejected(error)
        case Decoded(bodies, rest') => Decoded([body] + bodies, rest')
  }

  /** A list of frames is read back in order, leaving the rest of the stream untouched. */
  lemma {:induction false} FramesRoundTrip(bodies: seq<Body>, rest: seq<byte>)
    ensures DecodeFrames(EncodeFrames(bodies) + rest, |bodies|) == Decoded(bodies, rest)
  {
    if bodies == [] {
      assert EncodeFrames(bodies) + rest == rest;
    } else {
      FramesRoundTrip(bodies[1..], rest);
      var more := EncodeFrames(bodies[1..]) + rest;
      assert EncodeFrames(bodies) + rest == EncodeFrame(bodies[0]) + more;
      ReadsExactlyWhatIsWritten(EncodeFrame(bodies[0]) + more, bodies[0], more);
      OneFrameThenMore(EncodeFrame(bodies[0]) + more, bodies[0], more, bodies[1..], rest);
      assert [bodies[0]] + bodies[1..] == bodies;
    }
  }

  lemma OneFrameThenMore(s: seq<byte>, body: Body, more: seq<byte>, bodies: seq<Body>, rest: seq<byte>)
    requires DecodeFrame(s) == Decoded(body, more)
    requires DecodeFrames(more, |bodies|) == Decoded(bodies, rest)
    ensures DecodeFrames(s, |bodies| + 1) == Decoded([body] + bodies, rest)
  {
  }
}
