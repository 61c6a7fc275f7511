/** The session loop and its request handler: ipc/session.rs. */
module IpcSession {
  import opened BackendSpec
  import opened Bytes
  import opened HelperSpec
  import opened RoomTypes
  import opened SessionSpec
  import opened Text
  import opened Wrappers
  import RoomService

  /** What the world does while a request is handled. */
  datatype World = World(
    creating: CreateWorld,
    joining: JoinEnv,
    changing: LanEnv,
    polling: RefreshEnv,
    diagnosing: RefreshEnv)

  /** What one turn of the loop wakes up to, and whether the frame it writes goes out. */
  datatype Wakeup =
    | RequestRead(request: Request, world: World, delivered: bool)
    | StreamEnded
    | StreamBroke
    | PollDue(polling: RefreshEnv)
    | EventReceived(delivered: bool)

  /** Pair by pair into a key of 32 bytes. */
  method DecodeIdentity(text: seq<byte>) returns (key: Option<seq<byte>>)
    ensures key == DecodedKey(text)
  {
    if |text| != 64 {
      return None;
    }
    var bytes := new byte[32](_ => 0);
    for index := 0 to 32
      invariant DecodedPairs(text[..2 * index]) == Some(bytes[..index])
    {
      var value := ParsePair(text[2 * index], text[2 * index + 1]);
      ghost var longer := text[..2 * (index + 1)];
      assert longer[..2 * index] == text[..2 * index];
      if value.None? {
        PrefixDecides(text, 2 * (index + 1));
        return None;
      }
      assert DecodedPairs(longer) == Some(bytes[..index] + [value.value]);
      bytes[index] := value.value;
      assert bytes[..index + 1] == bytes[..index] + [value.value];
    }
    assert text[..64] == text && bytes[..32] == bytes[..];
    return Some(bytes[..]);
  }

  /** A pair that does not parse spoils every longer text. */
  lemma {:induction false} PrefixDecides(text: seq<byte>, n: nat)
    requires |text| % 2 == 0 && n % 2 == 0 && n <= |text|
    requires DecodedPairs(text[..n]).None?
    ensures DecodedPairs(text).None?
    decreases |text|
  {
    if n < |text| {
      var front := text[..|text| - 2];
      assert front[..n] == text[..n];
      PrefixDecides(front, n);
    } else {
      assert text[..n] == text;
    }
  }

  function HexCode(n: nat): byte
    requires n < 16
  {
    if n < 10 then '0' as int + n else 'A' as int + n - 10
  }

  /** `Convert.ToHexString`, as the plugin sends its key. */
  function HexEncode(key: seq<byte>): (text: seq<byte>)
    ensures |text| == 2 * |key|
  {
    if key == [] then []
    else
      var last: int := key[|key| - 1];
      HexEncode(key[..|key| - 1]) + [HexCode(last / 16), HexCode(last % 16)]
  }

  /** Every 32-byte key that the plugin sends is decoded to itself. */
  lemma KeysRoundTrip(key: seq<byte>)
    requires |key| == 32
    ensures DecodedKey(HexEncode(key)) == Some(key)
  {
    PairsRoundTrip(key);
  }

  lemma PairsRoundTrip(key: seq<byte>)
    ensures DecodedPairs(HexEncode(key)) == Some(key)
  {
    forall i | 0 <= i < |key|
      ensures ParsePair(HexEncode(key)[2 * i], HexEncode(key)[2 * i + 1]) == Some(key[i])
    {
      HexEncodeAt(key, i);
      PairRoundTrips(key[i]);
    }
    ParsedPairsAreTheKey(HexEncode(key), key);
  }

  lemma ParsedPairsAreTheKey(text: seq<byte>, key: seq<byte>)
    requires |text| == 2 * |key|
    requires forall i :: 0 <= i < |key| ==> ParsePair(text[2 * i], text[2 * i + 1]) == Some(key[i])
    ensures DecodedPairs(text) == Some(key)
  {
    KeysAreParsedPairs(text);
    assert DecodedPairs(text).value == key;
  }

  lemma {:induction false} HexEncodeAt(key: seq<byte>, i: nat)
    requires i < |key|
    ensures var b: int := key[i];
      HexEncode(key)[2 * i] == HexCode(b / 16) && HexEncode(key)[2 * i + 1] == HexCode(b % 16)
  {
    if i < |key| - 1 {
      HexEncodeAt(key[..|key| - 1], i);
    }
  }

  lemma PairRoundTrips(b: byte)
    ensures var n: int := b;
      ParsePair(HexCode(n / 16), HexCode(n % 16)) == Some(b)
  {
    var n: int := b;
    HexCodeIsDigit(n / 16);
    HexCodeIsDigit(n % 16);
  }

  lemma HexCodeIsDigit(n: nat)
    requires n < 16
    ensures HexDigit(HexCode(n)) == Some(n) && HexCode(n) != '+' as int
  {
  }

  lemma FrontHasItsPairs(text: seq<byte>, n: nat)
    requires |text| == 2 * n + 2
    ensures forall i :: 0 <= i < n ==>
              text[..2 * n][2 * i] == text[2 * i] && text[..2 * n][2 * i + 1] == text[2 * i + 1]
  {
  }

  /** Which texts are keys at all: 32 pairs that each parse. */
  lemma {:induction false} KeysAreParsedPairs(text: seq<byte>)
    requires |text| % 2 == 0
    ensures DecodedPairs(text).Some? <==>
              forall i :: 0 <= i < |text| / 2 ==> ParsePair(text[2 * i], text[2 * i + 1]).Some?
    ensures DecodedPairs(text).Some? ==>
              forall i :: 0 <= i < |text| / 2 ==>
                DecodedPairs(text).value[i] == ParsePair(text[2 * i], text[2 * i + 1]).value
  {
    if text != [] {
      var n := |text| / 2 - 1;
      KeysAreParsedPairs(text[..2 * n]);
      FrontHasItsPairs(text, n);
    }
  }

  /** A plus sign stands for a leading zero, so not only hexadecimal digits are accepted. */
  lemma PlusSignsAreAccepted(low: byte)
    requires HexDigit(low).Some?
    ensures ParsePair('+' as int, low) == ParsePair('0' as int, low) == HexDigit(low)
    ensures HexDigit('+' as int).None?
  {
  }

  predicate IsHex(b: byte) {
    HexDigit(b).Some?
  }

  /** The pair ends in a hexadecimal digit and begins with one or with a plus sign. */
  predicate IsKeyPair(text: seq<byte>, i: nat)
    requires 2 * i + 1 < |text|
  {
    IsHex(text[2 * i + 1]) && (IsHex(text[2 * i]) || text[2 * i] == '+' as int)
  }

  /** A key text is accepted exactly when each pair ends in a hexadecimal digit and begins with one or a plus sign. */
  lemma KeysAreAcceptedExactly(text: seq<byte>)
    requires |text| == 64
    ensures DecodedKey(text).Some? <==> forall i :: 0 <= i < 32 ==> IsKeyPair(text, i)
  {
    KeysAreParsedPairs(text);
    if DecodedKey(text).Some? {
      forall i | 0 <= i < 32
        ensures IsKeyPair(text, i)
      {
        assert ParsePair(text[2 * i], text[2 * i + 1]).Some?;
      }
    }
    if forall i :: 0 <= i < 32 ==> IsKeyPair(text, i) {
      forall i | 0 <= i < |text| / 2
        ensures ParsePair(text[2 * i], text[2 * i + 1]).Some?
      {
        assert IsKeyPair(text, i);
      }
    }
  }

  /** An accepted key text is hexadecimal throughout exactly when no pair begins with a plus sign. */
  lemma AcceptedKeysAreHexExactlyWithoutPlus(text: seq<byte>)
    requires |text| == 64 && DecodedKey(text).Some?
    ensures (forall k :: 0 <= k < 64 ==> IsHex(text[k])) <==> (forall i :: 0 <= i < 32 ==> text[2 * i] != '+' as int)
  {
    KeysAreAcceptedExactly(text);
    if forall k :: 0 <= k < 64 ==> IsHex(text[k]) {
      forall i | 0 <= i < 32
        ensures text[2 * i] != '+' as int
      {
        assert IsHex(text[2 * i]);
      }
    }
    if forall i :: 0 <= i < 32 ==> text[2 * i] != '+' as int {
      forall k | 0 <= k < 64
        ensures IsHex(text[k])
      {
        assert IsKeyPair(text, k / 2);
        assert k == 2 * (k / 2) || k == 2 * (k / 2) + 1;
      }
    }
  }

  /** A plus sign in place of a leading zero changes nothing: the text is accepted and gives the same key. */
  lemma PlusStandsForZero(text: seq<byte>, i: nat)
    requires |text| == 64 && DecodedKey(text).Some? && i < 32 && text[2 * i] == '0' as int
    ensures DecodedKey(text[2 * i := '+' as int]) == DecodedKey(text)
  {
    var signed := text[2 * i := '+' as int];
    KeysAreParsedPairs(text);
    KeysAreParsedPairs(signed);
    forall j | 0 <= j < 32
      ensures ParsePair(signed[2 * j], signed[2 * j + 1]) == ParsePair(text[2 * j], text[2 * j + 1])
    {
      if j == i {
        PlusSignsAreAccepted(text[2 * i + 1]);
      }
    }
    assert DecodedKey(signed).value == DecodedKey(text).value;
  }

  /** So a text full of plus signs is a key. */
  lemma PlusSignedKeyIsAccepted()
    ensures var text: seq<byte> := seq(64, i => if i % 2 == 0 then '+' as int else '0' as int);
      DecodedKey(text) == Some(seq(32, _ => 0)) && !IsHex(text[0])
  {
    var text: seq<byte> := seq(64, i => if i % 2 == 0 then '+' as int else '0' as int);
    KeysAreParsedPairs(text);
    assert forall i :: 0 <= i < 32 ==> ParsePair(text[2 * i], text[2 * i + 1]) == Some(0);
    assert DecodedKey(text).value == seq(32, _ => 0);
  }

  class Connection {
    const room: RoomService.RoomService
    const naming: Naming
    var requestIds: set<string>
    var identity: Option<seq<byte>>
    var sequence: nat
    var cursor: nat
    var missed: nat
    var read: seq<Request>
    var written: seq<Frame>
    var outcome: Option<Outcome>
    ghost var admitted: seq<string>

    ghost function Contents(): Session
      reads this, room, room.backend, room.backend.machine, room.backend.context
    {
      Session(
        requestIds, identity, sequence, room.Contents(), cursor, missed, read, admitted, written, outcome)
    }

    ghost predicate Valid()
      reads this, room, room.backend, room.backend.machine, room.backend.context
    {
      room.Valid()
    }

    function Settings(): Config {
      Config(room.backend.hash, naming)
    }

    constructor (room: RoomService.RoomService, naming: Naming)
      requires room.Valid()
      ensures Valid() && this.room == room && this.naming == naming
      ensures requestIds == {} && identity.None? && sequence == 0 && cursor == 0 && missed == 0
      ensures read == [] && written == [] && admitted == [] && outcome.None?
    {
      this.room := room;
      this.naming := naming;
      requestIds, identity, sequence, cursor, missed := {}, None, 0, 0, 0;
      read, written, admitted, outcome := [], [], [], None;
    }

    /** A frame that cannot be written ends the session. */
    method Write(frame: Frame, delivered: bool, next: Option<Outcome>)
      requires Valid()
      modifies this`written, this`outcome
      ensures Valid() && Contents() == Sent(old(Contents()), frame, delivered, next)
    {
      if delivered {
        written := written + [frame];
        outcome := next;
      } else {
        outcome := Some(Broken);
      }
    }

    method HandleRequest(request: Request, world: World, delivered: bool)
      returns (reply: Body, ghost call: Option<Call>)
      requires Valid() && outcome.None?
      modifies this, room, room.backend, room.backend.machine
      ensures Valid()
      ensures Arrived(old(Contents()), request, call, reply, delivered, Settings(), Contents())
    {
      var refusal := Check(request);
      if refusal.None? {
        reply, call := Admit(request, world, delivered);
        return;
      }
      read := read + [request];
      reply, call := Refused(refusal.value), None;
      Write(Frame(request.id, reply), delivered, RefusalOutcome(refusal.value));
    }

    method Admit(request: Request, world: World, delivered: bool)
      returns (reply: Body, ghost call: Option<Call>)
      requires Valid() && outcome.None?
      modifies this, room, room.backend, room.backend.machine
      ensures Valid()
      ensures Admitted(old(Contents()), request, call, reply, delivered, Settings(), Contents())
    {
      Record(request);
      var shutdown;
      reply, shutdown, call := Dispatch(request, world);
      Write(Frame(request.id, reply), delivered, if shutdown then Some(ShutdownRequested) else None);
    }

    method Record(request: Request)
      requires Valid()
      modifies this`read, this`requestIds, this`admitted
      ensures Valid()
      ensures Contents()
           == old(Contents()).(
                read := old(read) + [request], ids := old(requestIds) + {request.id},
                admitted := old(admitted) + [request.id])
    {
      read := read + [request];
      requestIds := requestIds + {request.id};
      admitted := admitted + [request.id];
    }

    /** The checks before the id is recorded. */
    method Check(request: Request) returns (refusal: Option<string>)
      ensures refusal == Refusal(requestIds, request)
    {
      if request.protocol != PROTOCOL_VERSION {
        return Some("ipc.protocol-mismatch");
      }
      if !IsValidRequestId(request.id) {
        return Some("ipc.invalid-request-id");
      }
      if |requestIds| >= MAX_REQUEST_IDS {
        return Some("ipc.request-limit");
      }
      if request.id in requestIds {
        return Some("ipc.duplicate-request-id");
      }
      return None;
    }

    /** The match on the message type. */
    method Dispatch(request: Request, world: World)
      returns (reply: Body, shutdown: bool, ghost call: Option<Call>)
      requires Valid()
      modifies this`identity, room, room.backend, room.backend.machine
      ensures Valid()
      ensures var action := ActionOf(old(identity).Some?, request);
        && Handled(old(room.Contents()), action, call, Settings(), room.Contents(), reply)
        && identity == (if action.Initialize? then Some(action.key) else old(identity))
        && shutdown == action.Shutdown?
    {
      call, shutdown := None, false;
      var kind, payload := request.messageType, request.payload;
      if (kind == "room.create" || kind == "room.join") && identity.None? {
        reply := Refused("identity.not-initialized");
      } else if kind == "identity.initialize" {
        reply, call := Initialize(request);
      } else if kind == "room.status" {
        var snapshot := room.Status(world.polling);
        call := Some(PollCall(world.polling));
        reply := StatusResult(snapshot);
      } else if kind == "room.leave" {
        var result := room.Leave();
        call := Some(LeaveCall);
        reply := Answer(result, s => RoomLeft(s));
      } else if kind == "room.create" || kind == "room.join" {
        reply, call := EnterRoom(request, world);
      } else if kind == "room.set-lan-address" {
        reply, call := ChangeLan(request, world);
      } else if kind == "network.diagnose" {
        var result := room.Diagnose(world.polling, world.diagnosing);
        call := Some(DiagnoseCall(world.polling, world.diagnosing));
        reply := Answer(result, n => DiagnosticUpdated(n));
      } else if kind == "shutdown" {
        reply, shutdown := ShutdownAccepted, true;
      } else {
        reply := Refused("ipc.unknown-message-type");
      }
    }

    method Initialize(request: Request) returns (reply: Body, ghost call: Option<Call>)
      requires Valid() && request.messageType == "identity.initialize"
      modifies this`identity, room.backend
      ensures Valid()
      ensures var action := ActionOf(old(identity).Some?, request);
        && Handled(old(room.Contents()), action, call, Settings(), room.Contents(), reply)
        && identity == (if action.Initialize? then Some(action.key) else old(identity))
        && !action.Shutdown?
    {
      var payload := request.payload;
      if payload.privateKey.None? {
        return Refused("identity.invalid-request"), None;
      }
      var key := DecodeIdentity(payload.privateKey.value);
      if key.None? {
        return Refused("identity.invalid-key"), None;
      }
      room.InitializeIdentity(naming(key.value));
      identity := key;
      call := Some(SetIdentityCall(naming(key.value)));
      reply := IdentityInitialized;
    }

    method ChangeLan(request: Request, world: World) returns (reply: Body, ghost call: Option<Call>)
      requires Valid() && request.messageType == "room.set-lan-address"
      modifies room, room.backend, room.backend.machine
      ensures Valid()
      ensures var action := ActionOf(identity.Some?, request);
        && Handled(old(room.Contents()), action, call, Settings(), room.Contents(), reply)
        && !action.Initialize? && !action.Shutdown?
    {
      var address := request.payload.lan;
      if address.None? {
        return Refused("room.invalid-request"), None;
      }
      var result;
      ghost var answer;
      result, answer := room.SetLanAddress(address.value, world.changing, world.polling);
      call := Some(LanCall(address.value, world.changing, answer, world.polling));
      reply := Answer(result, s => RoomStateChanged(s));
    }

    method EnterRoom(request: Request, world: World) returns (reply: Body, ghost call: Option<Call>)
      requires Valid() && identity.Some? && request.messageType in {"room.create", "room.join"}
      modifies room, room.backend, room.backend.machine
      ensures Valid()
      ensures Handled(
                old(room.Contents()), ActionOf(true, request), call, Settings(), room.Contents(), reply)
      ensures !ActionOf(true, request).Initialize? && !ActionOf(true, request).Shutdown?
    {
      call := None;
      var payload := request.payload;
      if request.messageType == "room.create" {
        if payload.create.None? {
          return Refused("room.invalid-request"), call;
        }
        var result;
        ghost var answer;
        result, answer := room.Create(payload.create.value, world.creating);
        call := Some(CreateCall(payload.create.value, world.creating, answer));
        reply := Answer(result, s => RoomCreated(s));
      } else {
        if payload.join.None? {
          return Refused("room.invalid-request"), call;
        }
        var result;
        ghost var answer;
        result, answer := room.Join(payload.join.value, world.joining);
        call := Some(JoinCall(payload.join.value, world.joining, answer));
        reply := Answer(result, s => RoomJoined(s));
      }
    }

    method Announce(delivered: bool)
      requires Valid() && outcome.None? && cursor < |room.log|
      modifies this`cursor, this`missed, this`sequence, this`written, this`outcome
      ensures Valid() && Contents() == AfterAnnouncement(old(Contents()), delivered)
    {
      if |room.log| - cursor > EVENT_CAPACITY {
        missed := missed + (|room.log| - EVENT_CAPACITY - cursor);
        cursor := |room.log| - EVENT_CAPACITY;
        return;
      }
      sequence := (sequence + 1) % TWO_TO_THE_64;
      var event := room.log[cursor];
      cursor := cursor + 1;
      Write(Frame(EventId(sequence), Push(event)), delivered, None);
    }

    /** One turn of the loop; nothing happens when there is no event to receive. */
    method Turn(wakeup: Wakeup) returns (ghost e: Option<Happening>)
      requires Valid() && outcome.None?
      modifies this, room, room.backend, room.backend.machine
      ensures Valid()
      ensures match e
        case Some(happening) => SessionStep(old(Contents()), happening, Settings(), Contents())
        case None => Contents() == old(Contents())
    {
      match wakeup {
        case RequestRead(request, world, delivered) =>
          var reply;
          ghost var call;
          reply, call := HandleRequest(request, world, delivered);
          e := Some(Arrives(request, call, reply, delivered));
        case StreamEnded =>
          outcome := Some(PeerDisconnected);
          e := Some(Ends);
        case StreamBroke =>
          outcome := Some(Broken);
          e := Some(Breaks);
        case PollDue(polling) =>
          room.PollAndEmit(polling);
          e := Some(Ticks(polling));
        case EventReceived(delivered) =>
          e := None;
          if cursor < |room.log| {
            Announce(delivered);
            e := Some(Announces(delivered));
          }
      }
    }

    /** Nothing has been read, written or asked of the room. */
    ghost predicate IsUnopened()
      reads this, room, room.backend, room.backend.machine, room.backend.context
    {
      && Valid() && room.Contents() == START && outcome.None?
      && requestIds == {} && identity.None? && sequence == 0 && cursor == 0 && missed == 0
      && read == [] && written == [] && admitted == []
    }

    /**
     * The handshake: true when the session is open. That takes a well-formed hello that carries the secret and comes
     * from the plugin, and no more than that; anything else is answered with one error frame and closes the
     * connection.
     */
    method Open(first: Request, secret: string, delivered: bool) returns (isOpen: bool)
      requires IsUnopened()
      modifies this
      ensures Valid() && room.Contents() == START
      ensures isOpen ==> Contents() == Opened(first)
      ensures isOpen
         <==> && first.protocol == 1 && first.messageType == "hello" && IsValidRequestId(first.id)
              && first.payload.hello.Some? && first.payload.hello.value.authToken == secret
              && first.payload.hello.value.client == "pcln" && Trim(first.payload.hello.value.clientVersion) != ""
              && delivered
      ensures !isOpen && delivered && IsHello(first) ==>
                && written == [Frame(first.id, Refused("ipc.authentication-failed"))]
                && outcome == Some(PeerDisconnected)
      ensures !isOpen && delivered && !IsHello(first) ==>
                written == [Frame(first.id, Refused("ipc.invalid-handshake"))] && outcome == Some(PeerDisconnected)
      ensures !delivered ==> written == [] && outcome == Some(Broken)
    {
      read := [first];
      var hello := first.payload.hello;
      if !IsValidRequestId(first.id) || first.protocol != PROTOCOL_VERSION || first.messageType != "hello"
         || hello.None?
      {
        Write(Frame(first.id, Refused("ipc.invalid-handshake")), delivered, Some(PeerDisconnected));
        return false;
      }
      var isAuthenticated := hello.value.authToken == secret;
      if !isAuthenticated || hello.value.client != "pcln" || Trim(hello.value.clientVersion) == "" {
        Write(Frame(first.id, Refused("ipc.authentication-failed")), delivered, Some(PeerDisconnected));
        return false;
      }
      Write(Frame(first.id, HelloAccepted), delivered, None);
      if !delivered {
        return false;
      }
      requestIds := {first.id};
      return true;
    }

    /** A whole connection: whoever does not know the secret never gets anything through to the room. */
    method Run(first: Request, secret: string, delivered: bool, wakeups: seq<Wakeup>)
      returns (isOpen: bool, ghost ss: seq<Session>, ghost es: seq<Happening>)
      requires IsUnopened()
      modifies this, room, room.backend, room.backend.machine
      ensures Valid()
      ensures isOpen ==> first.payload.hello.Some? && first.payload.hello.value.authToken == secret
      ensures isOpen ==> IsSessionRun(ss, es, first, Settings()) && ss[|ss| - 1] == Contents()
      ensures !isOpen ==> room.Contents() == START && outcome.Some? && |written| <= 1
      ensures room.Contents() != START ==>
                first.payload.hello.Some? && first.payload.hello.value.authToken == secret
    {
      ss, es := [], [];
      isOpen := Open(first, secret, delivered);
      if isOpen {
        ss, es := Serve(first, wakeups);
      }
    }

    /** Any sequence of wakeups drives the session along one of its runs. */
    method Serve(hello: Request, wakeups: seq<Wakeup>) returns (ghost ss: seq<Session>, ghost es: seq<Happening>)
      requires Valid() && Contents() == Opened(hello)
      modifies this, room, room.backend, room.backend.machine
      ensures Valid()
      ensures IsSessionRun(ss, es, hello, Settings()) && ss[|ss| - 1] == Contents()
      ensures outcome.None? ==> |es| <= |wakeups|
    {
      ss, es := [Contents()], [];
      var i := 0;
      while i < |wakeups| && outcome.None?
        invariant Valid() && i <= |wakeups| && |es| <= i
        invariant IsSessionRun(ss, es, hello, Settings()) && ss[|ss| - 1] == Contents()
      {
        ghost var e := Turn(wakeups[i]);
        if e.Some? {
          RunExtends(ss, es, hello, Settings(), e.value, Contents());
          ss, es := ss + [Contents()], es + [e.value];
        }
        i := i + 1;
      }
    }
  }

  lemma RunExtends(
      ss: seq<Session>, es: seq<Happening>, hello: Request, config: Config, e: Happening, s: Session)
    requires IsSessionRun(ss, es, hello, config) && SessionStep(ss[|ss| - 1], e, config, s)
    ensures IsSessionRun(ss + [s], es + [e], hello, config)
  {
    var longer, happenings := ss + [s], es + [e];
    forall i | 0 <= i < |happenings|
      ensures SessionStep(longer[i], happenings[i], config, longer[i + 1])
    {
      if i < |es| {
        assert longer[i] == ss[i] && longer[i + 1] == ss[i + 1] && happenings[i] == es[i];
      }
    }
  }
}
