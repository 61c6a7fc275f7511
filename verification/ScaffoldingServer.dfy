/** Serving Scaffolding requests and negotiating protocols: scaffolding/server.rs and scaffolding/client.rs. */
module ScaffoldingServer {
  import opened Bytes
  import opened PlayerRegistry
  import opened ScaffoldingProtocol
  import opened Streams
  import opened Wrappers

  const NUL: char := '\0'

  const SUPPORTED_PROTOCOLS: seq<string> :=
    ["c:ping", "c:protocols", "c:server_port", "c:player_ping", "c:player_profiles_list"]

  const REQUIRED_PROTOCOLS: seq<string> := ["c:server_port", "c:player_ping", "c:player_profiles_list"]

  const INVALID_REQUEST_STATUS: byte := 32
  const UNKNOWN_REQUEST_STATUS: byte := 255

  /** UTF-8 and JSON, known only as functions. */
  datatype Codec = Codec(
    utf8: seq<byte> -> Option<string>,
    readProfile: seq<byte> -> Option<PlayerProfile>,
    writeProfiles: seq<PlayerProfile> -> seq<byte>)

  predicate IsAsciiText(s: string) {
    forall i :: 0 <= i < |s| ==> s[i] as int < 0x80
  }

  function AsciiBytes(s: string): seq<byte>
    requires IsAsciiText(s)
  {
    seq(|s|, i requires 0 <= i < |s| => s[i] as int)
  }

  // ----- Name lists joined by NUL -----

  function Join(names: seq<string>): string {
    if names == [] then ""
    else if |names| == 1 then names[0]
    else names[0] + [NUL] + Join(names[1..])
  }

  function Split(s: string): (pieces: seq<string>)
    ensures pieces != []
  {
    if s == [] then [""]
    else
      var rest := Split(s[1..]);
      if s[0] == NUL then [""] + rest else [[s[0]] + rest[0]] + rest[1..]
  }

  function NonEmpty(pieces: seq<string>): seq<string> {
    if pieces == [] then []
    else if pieces[0] == "" then NonEmpty(pieces[1..])
    else [pieces[0]] + NonEmpty(pieces[1..])
  }

  function Names(s: string): seq<string> {
    NonEmpty(Split(s))
  }

  predicate IsName(s: string) {
    s != "" && NUL !in s
  }

  lemma {:induction false} SplitOfPiece(piece: string, rest: string)
    requires NUL !in piece
    ensures Split(piece) == [piece]
    ensures Split(piece + [NUL] + rest) == [piece] + Split(rest)
  {
    var s := piece + [NUL] + rest;
    if piece == [] {
      assert s[1..] == rest;
    } else {
      SplitOfPiece(piece[1..], rest);
      assert s[1..] == piece[1..] + [NUL] + rest;
      assert [piece[0]] + piece[1..] == piece;
    }
  }

  /** Splitting a NUL-join of names gives the names back, in order. */
  lemma {:induction false} NamesOfJoin(names: seq<string>)
    requires forall n :: n in names ==> IsName(n)
    ensures Names(Join(names)) == names
  {
    if names == [] {
      assert Split("") == [""];
    } else {
      assert IsName(names[0]);
      NamesOfJoin(names[1..]);
      SplitOfPiece(names[0], Join(names[1..]));
      assert names == [names[0]] + names[1..];
    }
  }

  /** The supported names that the offer contains, or all of them when it offers none. */
  function Answered(supported: seq<string>, offered: seq<string>): seq<string> {
    if supported == [] then []
    else
      (if offered == [] || supported[0] in offered then [supported[0]] else [])
      + Answered(supported[1..], offered)
  }

  lemma {:induction false} AnsweredMembers(supported: seq<string>, offered: seq<string>)
    ensures forall n :: n in Answered(supported, offered) <==> n in supported && (offered == [] || n in offered)
  {
    if supported != [] {
      AnsweredMembers(supported[1..], offered);
      assert supported == [supported[0]] + supported[1..];
    }
  }

  lemma SupportedAreNames()
    ensures forall n :: n in SUPPORTED_PROTOCOLS ==> IsName(n) && IsAsciiText(n) && |n| < 32
  {
  }

  lemma SupportedAreAscii()
    ensures forall n :: n in SUPPORTED_PROTOCOLS ==> IsAsciiText(n) && |n| < 32
  {
  }

  lemma {:induction false} JoinOfNames(names: seq<string>)
    requires forall n :: n in names ==> IsAsciiText(n) && |n| < 32
    ensures IsAsciiText(Join(names)) && |Join(names)| <= 32 * |names|
  {
    if |names| > 1 {
      JoinOfNames(names[1..]);
    }
  }

  /** The text of the `c:protocols` reply. */
  function ProtocolsReply(offer: Option<string>): string {
    Join(Answered(SUPPORTED_PROTOCOLS, Names(if offer.Some? then offer.value else "")))
  }

  lemma {:induction false} AnsweredLength(supported: seq<string>, offered: seq<string>)
    ensures |Answered(supported, offered)| <= |supported|
  {
    if supported != [] {
      AnsweredLength(supported[1..], offered);
    }
  }

  lemma ProtocolsReplyIsShortAscii(offer: Option<string>)
    ensures IsAsciiText(ProtocolsReply(offer)) && |ProtocolsReply(offer)| <= 160
  {
    var offered := Names(if offer.Some? then offer.value else "");
    SupportedAreNames();
    AnsweredMembers(SUPPORTED_PROTOCOLS, offered);
    AnsweredLength(SUPPORTED_PROTOCOLS, offered);
    JoinOfNames(Answered(SUPPORTED_PROTOCOLS, offered));
  }

  /** What a reader of the reply sees: offered and supported, or all supported names for an empty offer. */
  lemma ReplyIsTheIntersection(offer: Option<string>)
    ensures var offered := Names(if offer.Some? then offer.value else "");
      forall n :: n in Names(ProtocolsReply(offer))
             <==> n in SUPPORTED_PROTOCOLS && (offered == [] || n in offered)
  {
    var offered := Names(if offer.Some? then offer.value else "");
    SupportedAreNames();
    AnsweredMembers(SUPPORTED_PROTOCOLS, offered);
    NamesOfJoin(Answered(SUPPORTED_PROTOCOLS, offered));
  }

  // ----- One request -----

  /** The registry afterwards, and the reply unless it is too large to be written. */
  datatype Served = Served(registry: Registry, reply: Option<Response>)

  ghost function Serve(r: Registry, request: RequestFrame, now: nat, codec: Codec): Served {
    if request.requestType == "c:ping" then
      Served(r, Some(if |request.body| < 32 then ResponseFrame(0, request.body) else Refusal()))
    else if request.requestType == "c:protocols" then
      var offer := codec.utf8(request.body);
      ProtocolsReplyIsShortAscii(offer);
      Served(r, Some(ResponseFrame(0, AsciiBytes(ProtocolsReply(offer)))))
    else if request.requestType == "c:server_port" && request.body == [] then
      Served(r, Some(ResponseFrame(0, PortToBytes(r.minecraftPort))))
    else if request.requestType == "c:player_ping" then
      match codec.readProfile(request.body)
      case None => Served(r, Some(Refusal()))
      case Some(profile) =>
        Served(
          WithGuest(r, profile, now),
          Some(if IsAcceptableGuest(r, profile) then ResponseFrame(0, []) else Refusal()))
    else if request.requestType == "c:player_profiles_list" && request.body == [] then
      var body := codec.writeProfiles(Listing(r));
      Served(r, if |body| <= MAX_BODY_LENGTH then Some(ResponseFrame(0, body)) else None)
    else
      Served(r, Some(UnknownRequest()))
  }

  function Refusal(): Response {
    ResponseFrame(INVALID_REQUEST_STATUS, [])
  }

  function UnknownRequest(): Response {
    ResponseFrame(UNKNOWN_REQUEST_STATUS, AsciiBytes("unsupported Scaffolding request"))
  }

  lemma ServingKeepsRegistry(r: Registry, request: RequestFrame, now: nat, codec: Codec)
    requires IsRegistry(r)
    ensures var served := Serve(r, request, now, codec).registry;
      && IsRegistry(served)
      && served.hostMachineId == r.hostMachineId && served.minecraftPort == r.minecraftPort
      && served.players[r.hostMachineId] == r.players[r.hostMachineId]
  {
  }

  // ----- What the replies tell -----

  /** The port goes out with its high byte first. */
  lemma PortIsServed(r: Registry, now: nat, codec: Codec)
    ensures var served := Serve(r, RequestFrame("c:server_port", []), now, codec);
      && served.registry == r && served.reply.Some?
      && served.reply.value.status == 0 && |served.reply.value.body| == 2
      && var high: int := served.reply.value.body[0];
      high * 256 + served.reply.value.body[1] == r.minecraftPort
  {
  }

  /** An echo, for up to 31 bytes. */
  lemma PingsAreEchoed(r: Registry, body: seq<byte>, now: nat, codec: Codec)
    ensures var served := Serve(r, RequestFrame("c:ping", body), now, codec);
      && served.registry == r && served.reply.Some?
      && (served.reply.value == ResponseFrame(0, body) <==> |body| <= 31)
      && (|body| > 31 ==> served.reply.value == ResponseFrame(32, []))
  {
  }

  /** The status tells the player whether it is registered now: a guest, whatever it claims, and seen just now. */
  lemma RegistrationIsAcknowledged(r: Registry, body: seq<byte>, now: nat, codec: Codec)
    requires IsRegistry(r)
    ensures var served := Serve(r, RequestFrame("c:player_ping", body), now, codec);
      && served.reply.Some? && served.reply.value.body == []
      && (served.reply.value.status == 0 || served.reply.value.status == 32)
      && (served.reply.value.status == 0 <==>
            codec.readProfile(body).Some? && IsValidProfile(codec.readProfile(body).value)
            && codec.readProfile(body).value.machineId != r.hostMachineId)
      && (served.reply.value.status == 32 ==> served.registry == r)
      && (served.reply.value.status == 0 ==>
            var p := codec.readProfile(body).value;
            var guest := PlayerProfile(p.name, p.machineId, p.vendor, Some(GuestPlayer));
            served.registry.players == r.players[p.machineId := TrackedPlayer(guest, now)])
  {
  }

  /** A listing that can be written is the one listing of the registry. */
  lemma ListingsAreServed(r: Registry, now: nat, codec: Codec)
    requires IsRegistry(r)
    ensures var served := Serve(r, RequestFrame("c:player_profiles_list", []), now, codec);
      && served.registry == r
      && (served.reply.Some? ==>
            served.reply.value.status == 0
            && forall ps :: IsListing(r, ps) ==> served.reply.value.body == codec.writeProfiles(ps))
  {
    ListingLists(r);
    forall ps | IsListing(r, ps)
      ensures ps == Listing(r)
    {
      ListingIsUnique(r, ps, Listing(r));
    }
  }

  /** Status 255 is for what this server does not know, and for the two queries if they come with a body. */
  lemma UnknownRequestsAreRefused(r: Registry, request: RequestFrame, now: nat, codec: Codec)
    ensures var served := Serve(r, request, now, codec);
      served.reply.Some? && served.reply.value.status == 255
      <==> || request.requestType !in SUPPORTED_PROTOCOLS
           || (request.requestType in ["c:server_port", "c:player_profiles_list"] && request.body != [])
  {
  }

  // ----- A whole connection -----

  /** What a connection writes for the bytes it is sent; `clock` gives the time of each request. */
  ghost function ServeStream(r: Registry, s: seq<byte>, clock: nat -> nat, k: nat, codec: Codec): (Registry, seq<byte>)
    decreases |s|
  {
    match DecodeRequest(s)
    case Rejected(_) => (r, [])
    case Decoded(request, rest) =>
      var served := Serve(r, request, clock(k), codec);
      if served.reply.None? then (served.registry, [])
      else
        var later := ServeStream(served.registry, rest, clock, k + 1, codec);
        (later.0, EncodeResponse(served.reply.value) + later.1)
  }

  /** Whatever bytes a connection brings, serving it to its end keeps the registry one, with its host and its port. */
  lemma {:induction false} ServedConnectionsKeepRegistry(
      r: Registry, s: seq<byte>, clock: nat -> nat, k: nat, codec: Codec)
    requires IsRegistry(r)
    ensures var served := ServeStream(r, s, clock, k, codec).0;
      && IsRegistry(served)
      && served.hostMachineId == r.hostMachineId && served.minecraftPort == r.minecraftPort
      && served.players[r.hostMachineId] == r.players[r.hostMachineId]
    decreases |s|
  {
    if DecodeRequest(s).Decoded? {
      var request, rest := DecodeRequest(s).value, DecodeRequest(s).rest;
      ServingKeepsRegistry(r, request, clock(k), codec);
      var served := Serve(r, request, clock(k), codec);
      if served.reply.Some? {
        ServedConnectionsKeepRegistry(served.registry, rest, clock, k + 1, codec);
      }
    }
  }

  /** The replies to a list of requests, up to the first that cannot be written. */
  ghost function Replies(r: Registry, requests: seq<Request>, clock: nat -> nat, k: nat, codec: Codec): seq<Response>
    decreases |requests|
  {
    if requests == [] then []
    else
      var served := Serve(r, requests[0], clock(k), codec);
      if served.reply.None? then []
      else [served.reply.value] + Replies(served.registry, requests[1..], clock, k + 1, codec)
  }

  lemma {:induction false} ServedRequests(
      r: Registry, requests: seq<Request>, clock: nat -> nat, k: nat, codec: Codec)
    ensures ServeStream(r, EncodeRequests(requests), clock, k, codec).1
         == EncodeResponses(Replies(r, requests, clock, k, codec))
    decreases |requests|
  {
    if requests != [] {
      var rest := EncodeRequests(requests[1..]);
      RequestsReadExactlyWhatIsWritten(EncodeRequest(requests[0]) + rest, requests[0], rest);
      var served := Serve(r, requests[0], clock(k), codec);
      if served.reply.Some? {
        ServedRequests(served.registry, requests[1..], clock, k + 1, codec);
        var replies := Replies(served.registry, requests[1..], clock, k + 1, codec);
        assert ([served.reply.value] + replies)[1..] == replies;
      }
    }
  }

  /** Every listing that the requests ask for, in the registry as it then is, fits into a response. */
  ghost predicate ListingsFit(r: Registry, requests: seq<Request>, clock: nat -> nat, k: nat, codec: Codec)
    decreases |requests|
  {
    requests == []
    || (&& (requests[0].requestType == "c:player_profiles_list" && requests[0].body == [] ==>
              |codec.writeProfiles(Listing(r))| <= MAX_BODY_LENGTH)
        && ListingsFit(Serve(r, requests[0], clock(k), codec).registry, requests[1..], clock, k + 1, codec))
  }

  lemma OnlyListingsGoUnanswered(r: Registry, request: RequestFrame, now: nat, codec: Codec)
    ensures Serve(r, request, now, codec).reply.None?
       <==> request.requestType == "c:player_profiles_list" && request.body == []
              && |codec.writeProfiles(Listing(r))| > MAX_BODY_LENGTH
  {
  }

  /** Every request is answered exactly when every listing asked for fits; otherwise the replies stop before it. */
  lemma {:induction false} RequestsAreAnsweredExactly(
      r: Registry, requests: seq<Request>, clock: nat -> nat, k: nat, codec: Codec)
    ensures |Replies(r, requests, clock, k, codec)| <= |requests|
    ensures |Replies(r, requests, clock, k, codec)| == |requests| <==> ListingsFit(r, requests, clock, k, codec)
    decreases |requests|
  {
    if requests != [] {
      OnlyListingsGoUnanswered(r, requests[0], clock(k), codec);
      var served := Serve(r, requests[0], clock(k), codec);
      if served.reply.Some? {
        RequestsAreAnsweredExactly(served.registry, requests[1..], clock, k + 1, codec);
      }
    }
  }

  /** Client and server stay in lockstep: reading as many responses as were sent gives the replies in order. */
  lemma Lockstep(r: Registry, requests: seq<Request>, clock: nat -> nat, codec: Codec)
    ensures var replies := Replies(r, requests, clock, 0, codec);
      DecodeResponses(ServeStream(r, EncodeRequests(requests), clock, 0, codec).1, |replies|) == Decoded(replies, [])
  {
    var replies := Replies(r, requests, clock, 0, codec);
    ServedRequests(r, requests, clock, 0, codec);
    ResponsesRoundTrip(replies, []);
    assert EncodeResponses(replies) + [] == EncodeResponses(replies);
  }

  /** The serving loop, until the connection ends, breaks its framing or cannot be answered. */
  method ServeClient(
      reader: ByteReader, writer: ByteWriter, context: ServerContext, clock: nat -> nat, codec: Codec)
    requires context.Valid()
    modifies reader, writer, context
    ensures context.Valid()
    ensures var (registry, output) := ServeStream(old(context.Contents()), old(reader.Pending()), clock, 0, codec);
      context.Contents() == registry && writer.written == old(writer.written) + output
  {
    ghost var start, input, before := context.Contents(), reader.Pending(), writer.written;
    ghost var sent: seq<byte> := [];
    var k: nat := 0;
    assert [] + ServeStream(start, input, clock, 0, codec).1 == ServeStream(start, input, clock, 0, codec).1;
    var more := true;
    while more
      invariant context.Valid()
      invariant writer.written == before + sent
      invariant more ==> Resumes(start, input, sent, context.Contents(), reader.Pending(), clock, k, codec)
      invariant !more ==> ServeStream(start, input, clock, 0, codec) == (context.Contents(), sent)
      decreases more, |reader.Pending()|
    {
      ghost var contents, pending := context.Contents(), reader.Pending();
      ResumesAfterRequest(start, input, sent, contents, pending, clock, k, codec);
      more := ServeNext(reader, writer, context, clock(k), codec);
      ghost var written := Written(contents, pending, clock(k), codec);
      Reassociate(before, sent, written);
      sent := sent + written;
      k := k + 1;
    }
  }

  /** What one turn of the loop writes. */
  ghost function Written(r: Registry, s: seq<byte>, now: nat, codec: Codec): seq<byte> {
    match DecodeRequest(s)
    case Rejected(_) => []
    case Decoded(request, _) =>
      var served := Serve(r, request, now, codec);
      if served.reply.Some? then EncodeResponse(served.reply.value) else []
  }

  /** One turn of the loop; false when the connection is over. */
  method ServeNext(reader: ByteReader, writer: ByteWriter, context: ServerContext, now: nat, codec: Codec)
    returns (more: bool)
    requires context.Valid()
    modifies reader, writer, context
    ensures context.Valid()
    ensures writer.written
         == old(writer.written) + Written(old(context.Contents()), old(reader.Pending()), now, codec)
    ensures match DecodeRequest(old(reader.Pending()))
      case Rejected(_) => !more && context.Contents() == old(context.Contents())
      case Decoded(request, rest) =>
        var served := Serve(old(context.Contents()), request, now, codec);
        && context.Contents() == served.registry
        && more == served.reply.Some?
        && reader.Pending() == rest
  {
    var request := ReadRequest(reader);
    if request.Failure? {
      return false;
    }
    more := Answer(writer, context, request.value, now, codec);
  }

  /** Having sent `sent`, the connection still has to do for `r` and `s` what it had to do at the start. */
  ghost predicate Resumes(
      start: Registry, input: seq<byte>, sent: seq<byte>,
      r: Registry, s: seq<byte>, clock: nat -> nat, k: nat, codec: Codec)
  {
    var rest := ServeStream(r, s, clock, k, codec);
    ServeStream(start, input, clock, 0, codec) == (rest.0, sent + rest.1)
  }

  lemma ResumesAfterRequest(
      start: Registry, input: seq<byte>, sent: seq<byte>,
      r: Registry, s: seq<byte>, clock: nat -> nat, k: nat, codec: Codec)
    requires Resumes(start, input, sent, r, s, clock, k, codec)
    ensures var sent' := sent + Written(r, s, clock(k), codec);
      match DecodeRequest(s)
      case Rejected(_) => ServeStream(start, input, clock, 0, codec) == (r, sent')
      case Decoded(request, rest) =>
        var served := Serve(r, request, clock(k), codec);
        if served.reply.None? then ServeStream(start, input, clock, 0, codec) == (served.registry, sent')
        else Resumes(start, input, sent', served.registry, rest, clock, k + 1, codec)
  {
    assert sent + [] == sent;
    if DecodeRequest(s).Decoded? {
      var served := Serve(r, DecodeRequest(s).value, clock(k), codec);
      if served.reply.Some? {
        var reply := EncodeResponse(served.reply.value);
        var later := ServeStream(served.registry, DecodeRequest(s).rest, clock, k + 1, codec).1;
        assert sent + (reply + later) == sent + reply + later;
      }
    }
  }

  /** The dispatch on the request type. */
  method Answer(writer: ByteWriter, context: ServerContext, request: RequestFrame, now: nat, codec: Codec)
    returns (answered: bool)
    requires context.Valid()
    modifies writer, context
    ensures context.Valid()
    ensures var served := Serve(old(context.Contents()), request, now, codec);
      && context.Contents() == served.registry
      && answered == served.reply.Some?
      && writer.written == old(writer.written) + (if answered then EncodeResponse(served.reply.value) else [])
  {
    var status: byte, body: seq<byte> := 0, [];
    if request.requestType == "c:ping" && |request.body| < 32 {
      body := request.body;
    } else if request.requestType == "c:ping" {
      status := INVALID_REQUEST_STATUS;
    } else if request.requestType == "c:protocols" {
      var offer := codec.utf8(request.body);
      ProtocolsReplyIsShortAscii(offer);
      body := AsciiBytes(ProtocolsReply(offer));
    } else if request.requestType == "c:server_port" && request.body == [] {
      body := PortToBytes(context.minecraftPort);
    } else if request.requestType == "c:player_ping" {
      var recorded := RecordPing(context, codec.readProfile(request.body), now);
      status := if recorded then 0 else INVALID_REQUEST_STATUS;
    } else if request.requestType == "c:player_profiles_list" && request.body == [] {
      var profiles := context.PlayerProfiles();
      body := codec.writeProfiles(profiles);
    } else {
      status, body := UNKNOWN_REQUEST_STATUS, AsciiBytes("unsupported Scaffolding request");
    }
    var result := WriteResponse(writer, status, body);
    return result.Success?;
  }

  /** A ping that carries no profile is refused like one whose profile is. */
  method RecordPing(context: ServerContext, profile: Option<PlayerProfile>, now: nat) returns (recorded: bool)
    requires context.Valid()
    modifies context
    ensures context.Valid()
    ensures recorded == (profile.Some? && IsAcceptableGuest(old(context.Contents()), profile.value))
    ensures context.Contents()
         == if profile.Some? then WithGuest(old(context.Contents()), profile.value, now) else old(context.Contents())
  {
    if profile.None? {
      return false;
    }
    recorded := context.RecordGuest(profile.value, now);
  }

  // ----- The client's side -----

  /** A response with a non-zero status is an error carrying it. */
  function Accepted(response: ResponseFrame): Result<seq<byte>, ScaffoldingError> {
    if response.status == 0 then Success(response.body) else Failure(RemoteStatus(response.status))
  }

  predicate NegotiationPasses(body: seq<byte>, codec: Codec) {
    match codec.utf8(body)
    case None => false
    case Some(text) => forall required :: required in REQUIRED_PROTOCOLS ==> required in Names(text)
  }

  class ScaffoldingClient {
    const reader: ByteReader
    const writer: ByteWriter

    constructor (reader: ByteReader, writer: ByteWriter)
      ensures this.reader == reader && this.writer == writer
    {
      this.reader := reader;
      this.writer := writer;
    }

    /** One exchange: the request goes out whole or not at all, and exactly one response is taken. */
    method Exchange(requestType: string, body: seq<byte>) returns (result: Result<seq<byte>, ScaffoldingError>)
      modifies reader, writer
      ensures !IsRequest(RequestFrame(requestType, body)) ==>
                && result == Failure(InvalidFrame)
                && writer.written == old(writer.written) && reader.Pending() == old(reader.Pending())
      ensures IsRequest(RequestFrame(requestType, body)) ==>
                && writer.written == old(writer.written) + EncodeRequest(RequestFrame(requestType, body))
                && match DecodeResponse(old(reader.Pending()))
                   case Rejected(error) => result == Failure(error)
                   case Decoded(response, rest) => result == Accepted(response) && reader.Pending() == rest
    {
      var sent := WriteRequest(writer, requestType, body);
      if sent.Failure? {
        return Failure(sent.error);
      }
      var response := ReadResponse(reader);
      match response {
        case Failure(error) => return Failure(error);
        case Success(frame) =>
          if frame.status != 0 {
            return Failure(RemoteStatus(frame.status));
          }
          return Success(frame.body);
      }
    }
  }

  /** UTF-8 decoding reads ASCII as itself. */
  ghost predicate ReadsAscii(utf8: seq<byte> -> Option<string>) {
    forall s: string :: IsAsciiText(s) ==> utf8(AsciiBytes(s)) == Some(s)
  }

  lemma OfferIsAscii()
    ensures IsAsciiText(Join(SUPPORTED_PROTOCOLS))
  {
    SupportedAreAscii();
    JoinOfNames(SUPPORTED_PROTOCOLS);
  }

  /** This client's offer always passes its own capability check against this server. */
  lemma OwnOfferPassesNegotiation(r: Registry, now: nat, codec: Codec)
    requires ReadsAscii(codec.utf8)
    ensures IsAsciiText(Join(SUPPORTED_PROTOCOLS))
    ensures var reply := Serve(r, RequestFrame("c:protocols", AsciiBytes(Join(SUPPORTED_PROTOCOLS))), now, codec).reply;
      reply.Some? && Accepted(reply.value).Success? && NegotiationPasses(Accepted(reply.value).value, codec)
  {
    OfferIsAscii();
    var text := Join(SUPPORTED_PROTOCOLS);
    var offer := codec.utf8(AsciiBytes(text));
    assert offer == Some(text);
    ProtocolsReplyIsShortAscii(offer);
    assert codec.utf8(AsciiBytes(ProtocolsReply(offer))) == Some(ProtocolsReply(offer));
    SupportedAreNames();
    NamesOfJoin(SUPPORTED_PROTOCOLS);
    ReplyIsTheIntersection(offer);
    RequiredAreSupported();
  }

  lemma RequiredAreSupported()
    ensures forall n :: n in REQUIRED_PROTOCOLS ==> n in SUPPORTED_PROTOCOLS
  {
    assert SUPPORTED_PROTOCOLS[2] == REQUIRED_PROTOCOLS[0];
    assert SUPPORTED_PROTOCOLS[3] == REQUIRED_PROTOCOLS[1];
    assert SUPPORTED_PROTOCOLS[4] == REQUIRED_PROTOCOLS[2];
  }
}
