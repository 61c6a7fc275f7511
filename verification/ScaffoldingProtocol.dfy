/** Scaffolding request and response frames: scaffolding/protocol.rs. */
module ScaffoldingProtocol {
  import opened Bytes
  import opened Streams
  import opened Wrappers

  const MAX_TYPE_LENGTH := 128
  const MAX_BODY_LENGTH := 65_536

  datatype RequestFrame = RequestFrame(requestType: string, body: seq<byte>)

  datatype ResponseFrame = ResponseFrame(status: byte, body: seq<byte>)

  datatype ScaffoldingError = Io | InvalidFrame | RemoteStatus(status: byte)

  predicate IsTypeByte(n: int) {
    0x21 <= n <= 0x7e
  }

  predicate IsTypeText(requestType: string) {
    && 0 < |requestType| <= MAX_TYPE_LENGTH
    && forall i :: 0 <= i < |requestType| ==> IsTypeByte(requestType[i] as int)
  }

  predicate IsRequest(r: RequestFrame) {
    IsTypeText(r.requestType) && |r.body| <= MAX_BODY_LENGTH
  }

  predicate IsResponse(r: ResponseFrame) {
    |r.body| <= MAX_BODY_LENGTH
  }

  type Request = r: RequestFrame | IsRequest(r) witness RequestFrame("c", [])

  type Response = r: ResponseFrame | IsResponse(r) witness ResponseFrame(0, [])

  function TypeBytes(requestType: string): (b: seq<byte>)
    requires IsTypeText(requestType)
  {
    seq(|requestType|, i requires 0 <= i < |requestType| => requestType[i] as int)
  }

  function TypeText(b: seq<byte>): string {
    seq(|b|, i requires 0 <= i < |b| => b[i] as char)
  }

  function EncodeRequest(r: Request): seq<byte> {
    [|r.requestType|] + TypeBytes(r.requestType) + ToBigEndian(|r.body|) + r.body
  }

  function EncodeResponse(r: Response): seq<byte> {
    [r.status] + ToBigEndian(|r.body|) + r.body
  }

  /** A big-endian length and that many bytes. */
  function DecodeBody(s: seq<byte>): (d: Decoding<seq<byte>, ScaffoldingError>)
    ensures d.Decoded? ==> |d.rest| < |s|
  {
    if |s| < 4 then Rejected(Io)
    else
      var length := FromBigEndian(s[..4]);
      if length > MAX_BODY_LENGTH then Rejected(InvalidFrame)
      else if |s| < 4 + length then Rejected(Io)
      else Decoded(s[4..4 + length], s[4 + length..])
  }

  /** A length byte and a request type of that many permitted bytes. */
  function DecodeType(s: seq<byte>): (d: Decoding<string, ScaffoldingError>)
    ensures d.Decoded? ==> |d.rest| < |s|
  {
    if |s| == 0 then Rejected(Io)
    else if s[0] == 0 || s[0] > MAX_TYPE_LENGTH then Rejected(InvalidFrame)
    else if |s| < 1 + s[0] then Rejected(Io)
    else
      var typeBytes := s[1..1 + s[0]];
      if exists i :: 0 <= i < |typeBytes| && !IsTypeByte(typeBytes[i]) then Rejected(InvalidFrame)
      else Decoded(TypeText(typeBytes), s[1 + s[0]..])
  }

  function DecodeRequest(s: seq<byte>): (d: Decoding<RequestFrame, ScaffoldingError>)
    ensures d.Decoded? ==> |d.rest| < |s|
  {
    match DecodeType(s)
    case Rejected(error) => Rejected(error)
    case Decoded(requestType, more) =>
      match DecodeBody(more)
      case Rejected(error) => Rejected(error)
      case Decoded(body, rest) => Decoded(RequestFrame(requestType, body), rest)
  }

  function DecodeResponse(s: seq<byte>): Decoding<ResponseFrame, ScaffoldingError> {
    if |s| == 0 then Rejected(Io)
    else
      match DecodeBody(s[1..])
      case Rejected(error) => Rejected(error)
      case Decoded(body, rest) => Decoded(ResponseFrame(s[0], body), rest)
  }

  /** The length of a body goes out with its high byte first, and the length of the type before it in one byte. */
  lemma HeadersAreBigEndian(r: Request)
    ensures var n, frame := |r.requestType|, EncodeRequest(r);
      && |frame| == 5 + n + |r.body| && frame[0] == n && frame[5 + n..] == r.body
      && (forall i :: 0 <= i < n ==> frame[1 + i] == r.requestType[i] as int)
      && var h: seq<int> := seq(4, i requires 0 <= i < 4 => frame[1 + n + i] as int);
         0x100_0000 * h[0] + 0x1_0000 * h[1] + 0x100 * h[2] + h[3] == |r.body|
  {
  }

  // ----- The four operations on streams -----

  /** `read_u32`, the length check and the body, common to both frame kinds. */
  method ReadBody(reader: ByteReader) returns (result: Result<seq<byte>, ScaffoldingError>)
    modifies reader
    ensures match DecodeBody(old(reader.Pending()))
      case Decoded(body, rest) => result == Success(body) && reader.Pending() == rest
      case Rejected(error) => result == Failure(error)
  {
    ghost var s := reader.Pending();
    var header, filled := reader.ReadVector(4);
    if !filled {
      return Failure(Io);
    }
    var length := FromBigEndian(header);
    if length > MAX_BODY_LENGTH {
      return Failure(InvalidFrame);
    }
    var body;
    body, filled := reader.ReadVector(length);
    if !filled {
      return Failure(Io);
    }
    assert s[4..][..length] == s[4..4 + length] && s[4..][length..] == s[4 + length..];
    return Success(body);
  }

  method ReadType(reader: ByteReader) returns (result: Result<string, ScaffoldingError>)
    modifies reader
    ensures match DecodeType(old(reader.Pending()))
      case Decoded(requestType, rest) => result == Success(requestType) && reader.Pending() == rest
      case Rejected(error) => result == Failure(error)
  {
    ghost var s := reader.Pending();
    var first, filled := reader.ReadVector(1);
    if !filled {
      return Failure(Io);
    }
    var typeLength := first[0];
    if typeLength == 0 || typeLength > MAX_TYPE_LENGTH {
      return Failure(InvalidFrame);
    }
    var typeBytes;
    typeBytes, filled := reader.ReadVector(typeLength);
    if !filled {
      return Failure(Io);
    }
    assert s[1..][..typeLength] == s[1..1 + typeLength] && s[1..][typeLength..] == s[1 + typeLength..];
    if exists i :: 0 <= i < |typeBytes| && !IsTypeByte(typeBytes[i]) {
      return Failure(InvalidFrame);
    }
    return Success(TypeText(typeBytes));
  }

  method ReadRequest(reader: ByteReader) returns (result: Result<RequestFrame, ScaffoldingError>)
    modifies reader
    ensures match DecodeRequest(old(reader.Pending()))
      case Decoded(frame, rest) => result == Success(frame) && reader.Pending() == rest
      case Rejected(error) => result == Failure(error)
  {
    var requestType := ReadType(reader);
    if requestType.Failure? {
      return Failure(requestType.error);
    }
    var body := ReadBody(reader);
    match body {
      case Failure(error) => return Failure(error);
      case Success(bytes) => return Success(RequestFrame(requestType.value, bytes));
    }
  }

  method WriteRequest(writer: ByteWriter, requestType: string, body: seq<byte>)
    returns (result: Result<(), ScaffoldingError>)
    modifies writer
    ensures IsRequest(RequestFrame(requestType, body)) ==>
              && result == Success(())
              && writer.written == old(writer.written) + EncodeRequest(RequestFrame(requestType, body))
    ensures !IsRequest(RequestFrame(requestType, body)) ==>
              result == Failure(InvalidFrame) && writer.written == old(writer.written)
  {
    if !IsTypeText(requestType) || |body| > MAX_BODY_LENGTH {
      return Failure(InvalidFrame);
    }
    writer.WriteAll([|requestType|]);
    writer.WriteAll(TypeBytes(requestType));
    writer.WriteAll(ToBigEndian(|body|));
    writer.WriteAll(body);
    return Success(());
  }

  method ReadResponse(reader: ByteReader) returns (result: Result<ResponseFrame, ScaffoldingError>)
    modifies reader
    ensures match DecodeResponse(old(reader.Pending()))
      case Decoded(frame, rest) => result == Success(frame) && reader.Pending() == rest
      case Rejected(error) => result == Failure(error)
  {
    ghost var s := reader.Pending();
    var status := new byte[1](_ => 0);
    var filled := reader.ReadExact(status, 0);
    if !filled {
      return Failure(Io);
    }
    assert status[0..] == [status[0]];
    assert s[0] == status[0] && s[1..] == reader.Pending();
    var code := status[0];
    var body := ReadBody(reader);
    match body {
      case Failure(error) => return Failure(error);
      case Success(bytes) => return Success(ResponseFrame(code, bytes));
    }
  }

  method WriteResponse(writer: ByteWriter, status: byte, body: seq<byte>)
    returns (result: Result<(), ScaffoldingError>)
    modifies writer
    ensures IsResponse(ResponseFrame(status, body)) ==>
              && result == Success(())
              && writer.written == old(writer.written) + EncodeResponse(ResponseFrame(status, body))
    ensures !IsResponse(ResponseFrame(status, body)) ==>
              result == Failure(InvalidFrame) && writer.written == old(writer.written)
  {
    if |body| > MAX_BODY_LENGTH {
      return Failure(InvalidFrame);
    }
    writer.WriteAll([status]);
    writer.WriteAll(ToBigEndian(|body|));
    writer.WriteAll(body);
    return Success(());
  }

  // ----- Readers accept exactly what writers write -----

  lemma BodyReadsExactlyWhatIsWritten(s: seq<byte>, body: seq<byte>, rest: seq<byte>)
    ensures DecodeBody(s) == Decoded(body, rest)
       <==> |body| <= MAX_BODY_LENGTH && s == ToBigEndian(|body|) + body + rest
  {
    if |body| <= MAX_BODY_LENGTH && s == ToBigEndian(|body|) + body + rest {
      assert s[..4] == ToBigEndian(|body|);
      assert s[4..] == body + rest;
    }
    if DecodeBody(s) == Decoded(body, rest) {
      BigEndianInverse(s[..4]);
      assert s == s[..4] + s[4..4 + |body|] + s[4 + |body|..];
    }
  }

  lemma TypeBytesRoundTrip(requestType: string)
    requires IsTypeText(requestType)
    ensures TypeText(TypeBytes(requestType)) == requestType
  {
  }

  lemma TypeTextRoundTrip(b: seq<byte>)
    requires 0 < |b| <= MAX_TYPE_LENGTH && forall i :: 0 <= i < |b| ==> IsTypeByte(b[i])
    ensures IsTypeText(TypeText(b)) && TypeBytes(TypeText(b)) == b
  {
  }

  lemma TypeReadsExactlyWhatIsWritten(s: seq<byte>, requestType: string, rest: seq<byte>)
    ensures DecodeType(s) == Decoded(requestType, rest)
       <==> IsTypeText(requestType) && s == [|requestType|] + TypeBytes(requestType) + rest
  {
    if IsTypeText(requestType) && s == [|requestType|] + TypeBytes(requestType) + rest {
      var n := |requestType|;
      assert s[1..1 + n] == TypeBytes(requestType) && s[1 + n..] == rest;
      TypeBytesRoundTrip(requestType);
    }
    if DecodeType(s) == Decoded(requestType, rest) {
      var typeBytes := s[1..1 + s[0]];
      TypeTextRoundTrip(typeBytes);
      assert s == [s[0]] + typeBytes + s[1 + s[0]..];
    }
  }

  /** A request is read exactly when the bytes begin with its encoding, and the encoding is unique. */
  lemma RequestsReadExactlyWhatIsWritten(s: seq<byte>, frame: RequestFrame, rest: seq<byte>)
    ensures DecodeRequest(s) == Decoded(frame, rest) <==> IsRequest(frame) && s == EncodeRequest(frame) + rest
  {
    if IsRequest(frame) {
      var head, length := [|frame.requestType|] + TypeBytes(frame.requestType), ToBigEndian(|frame.body|);
      var more := length + frame.body + rest;
      FrameInParts(head, length, frame.body, rest);
      if s == EncodeRequest(frame) + rest {
        TypeReadsExactlyWhatIsWritten(s, frame.requestType, more);
        BodyReadsExactlyWhatIsWritten(more, frame.body, rest);
      }
    }
    if DecodeRequest(s) == Decoded(frame, rest) {
      var more := DecodeType(s).rest;
      TypeReadsExactlyWhatIsWritten(s, frame.requestType, more);
      BodyReadsExactlyWhatIsWritten(more, frame.body, rest);
    }
  }

  lemma FrameInParts(head: seq<byte>, length: seq<byte>, body: seq<byte>, rest: seq<byte>)
    ensures head + (length + body + rest) == head + length + body + rest
  {
  }

  lemma ResponsesReadExactlyWhatIsWritten(s: seq<byte>, frame: ResponseFrame, rest: seq<byte>)
    ensures DecodeResponse(s) == Decoded(frame, rest) <==> IsResponse(frame) && s == EncodeResponse(frame) + rest
  {
    if IsResponse(frame) && s == EncodeResponse(frame) + rest {
      assert s[1..] == ToBigEndian(|frame.body|) + frame.body + rest;
      BodyReadsExactlyWhatIsWritten(s[1..], frame.body, rest);
    }
    if DecodeResponse(s) == Decoded(frame, rest) {
      BodyReadsExactlyWhatIsWritten(s[1..], frame.body, rest);
      assert s == [s[0]] + s[1..];
    }
  }

  // ----- Lists of frames on one stream -----

  function EncodeRequests(rs: seq<Request>): seq<byte> {
    if rs == [] then [] else EncodeRequest(rs[0]) + EncodeRequests(rs[1..])
  }

  function EncodeResponses(rs: seq<Response>): seq<byte> {
    if rs == [] then [] else EncodeResponse(rs[0]) + EncodeResponses(rs[1..])
  }

  /** Reading requests one after another. */
  function DecodeRequests(s: seq<byte>, count: nat): Decoding<seq<RequestFrame>, ScaffoldingError> {
    if count == 0 then Decoded([], s)
    else
      match DecodeRequest(s)
      case Rejected(error) => Rejected(error)
      case Decoded(frame, rest) =>
        match DecodeRequests(rest, count - 1)
        case Rejected(error) => Rejected(error)
        case Decoded(frames, rest') => Decoded([frame] + frames, rest')
  }

  /** Every list of requests is read back from its concatenated encodings, and what follows is left alone. */
  lemma {:induction false} RequestsRoundTrip(rs: seq<Request>, rest: seq<byte>)
    ensures DecodeRequests(EncodeRequests(rs) + rest, |rs|) == Decoded(rs, rest)
  {
    if rs == [] {
      assert EncodeRequests(rs) + rest == rest;
    } else {
      RequestsRoundTrip(rs[1..], rest);
      var more := EncodeRequests(rs[1..]) + rest;
      assert EncodeRequests(rs) + rest == EncodeRequest(rs[0]) + more;
      RequestsReadExactlyWhatIsWritten(EncodeRequest(rs[0]) + more, rs[0], more);
      OneRequestThenMore(EncodeRequest(rs[0]) + more, rs[0], more, rs[1..], rest);
      assert [rs[0]] + rs[1..] == rs;
    }
  }

  lemma OneRequestThenMore(s: seq<byte>, r: Request, more: seq<byte>, rs: seq<Request>, rest: seq<byte>)
    requires DecodeRequest(s) == Decoded(r, more)
    requires DecodeRequests(more, |rs|) == Decoded(rs, rest)
    ensures DecodeRequests(s, |rs| + 1) == Decoded([r] + rs, rest)
  {
  }

  /** Reading responses one after another. */
  function DecodeResponses(s: seq<byte>, count: nat): Decoding<seq<ResponseFrame>, ScaffoldingError> {
    if count == 0 then Decoded([], s)
    else
      match DecodeResponse(s)
      case Rejected(error) => Rejected(error)
      case Decoded(frame, rest) =>
        match DecodeResponses(rest, count - 1)
        case Rejected(error) => Rejected(error)
        case Decoded(frames, rest') => Decoded([frame] + frames, rest')
  }

  lemma {:induction false} ResponsesRoundTrip(rs: seq<Response>, rest: seq<byte>)
    ensures DecodeResponses(EncodeResponses(rs) + rest, |rs|) == Decoded(rs, rest)
  {
    if rs == [] {
      assert EncodeResponses(rs) + rest == rest;
    } else {
      ResponsesRoundTrip(rs[1..], rest);
      var more := EncodeResponses(rs[1..]) + rest;
      assert EncodeResponses(rs) + rest == EncodeResponse(rs[0]) + more;
      ResponsesReadExactlyWhatIsWritten(EncodeResponse(rs[0]) + more, rs[0], more);
      OneResponseThenMore(EncodeResponse(rs[0]) + more, rs[0], more, rs[1..], rest);
      assert [rs[0]] + rs[1..] == rs;
    }
  }

  lemma OneResponseThenMore(s: seq<byte>, r: Response, more: seq<byte>, rs: seq<Response>, rest: seq<byte>)
    requires DecodeResponse(s) == Decoded(r, more)
    requires DecodeResponses(more, |rs|) == Decoded(rs, rest)
    ensures DecodeResponses(s, |rs| + 1) == Decoded([r] + rs, rest)
  {
  }
}
