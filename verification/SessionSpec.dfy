/** What one authenticated IPC session does with requests, timer ticks and room events: ipc/session.rs. */
module SessionSpec {
  import opened BackendSpec
  import opened Bytes
  import opened HelperSpec
  import opened Mesh
  import opened RoomTypes
  import opened Text
  import opened Wrappers
  import RegistryRuns
  import RoomSpec

  const PROTOCOL_VERSION: uint32 := 1
  const MAX_REQUEST_IDS := 4096
  const EVENT_CAPACITY := 64
  const TWO_TO_THE_64 := 0x1_0000_0000_0000_0000

  // ----- Envelopes -----

  datatype Hello = Hello(authToken: string, client: string, clientVersion: string)

  /** A JSON payload, as what it deserialises to as each of the request types. Keys are UTF-8 bytes. */
  datatype Payload = Payload(
    hello: Option<Hello>,
    privateKey: Option<seq<byte>>,
    create: Option<CreateRoomRequest>,
    join: Option<JoinRoomRequest>,
    lan: Option<AddressText>)

  datatype Request = Request(protocol: uint32, id: string, messageType: string, payload: Payload)

  /** What an outgoing envelope says. `Refused` and `RoomRefused` are both of type "error". */
  datatype Body =
    | HelloAccepted
    | Refused(code: string)
    | RoomRefused(error: RoomError)
    | IdentityInitialized
    | StatusResult(snapshot: RoomSnapshot)
    | RoomLeft(snapshot: RoomSnapshot)
    | RoomCreated(snapshot: RoomSnapshot)
    | RoomJoined(snapshot: RoomSnapshot)
    | RoomStateChanged(snapshot: RoomSnapshot)
    | DiagnosticUpdated(network: NetworkStatus)
    | ShutdownAccepted
    | Push(event: RoomEvent)

  datatype Frame = Frame(id: string, body: Body)

  predicate IsValidRequestId(id: string) {
    id != "" && Utf8Length(id) <= 128 && forall i :: 0 <= i < |id| ==> ' ' <= id[i] <= '~'
  }

  function Digit(n: nat): char
    requires n < 10
  {
    '0' + n as char
  }

  function Decimal(n: nat): (s: string)
    ensures s != "" && forall i :: 0 <= i < |s| ==> IsAsciiDigit(s[i])
  {
    if n < 10 then [Digit(n)] else Decimal(n / 10) + [Digit(n % 10)]
  }

  function EventId(sequence: nat): string {
    "evt-" + Decimal(sequence)
  }

  // ----- The handshake -----

  /** The first envelope is a well-formed hello of the right protocol, whoever sends it. */
  predicate IsHello(first: Request) {
    && IsValidRequestId(first.id) && first.protocol == PROTOCOL_VERSION && first.messageType == "hello"
    && first.payload.hello.Some?
  }

  // ----- Identity keys -----

  function HexDigit(b: byte): Option<byte> {
    if '0' as int <= b <= '9' as int then Some(b - '0' as int)
    else if 'a' as int <= b <= 'f' as int then Some(b - 'a' as int + 10)
    else if 'A' as int <= b <= 'F' as int then Some(b - 'A' as int + 10)
    else None
  }

  /** `u8::from_str_radix` on two bytes: a leading plus sign is accepted. */
  function ParsePair(high: byte, low: byte): Option<byte> {
    if HexDigit(low).None? then None
    else if high == '+' as int then HexDigit(low)
    else if HexDigit(high).None? then None
    else
      var h: int := HexDigit(high).value;
      Some((h * 16 + HexDigit(low).value) % 256)
  }

  // ----- What a request asks for -----

  datatype Action =
    | Refuse(code: string)
    | Initialize(key: seq<byte>)
    | AskStatus
    | AskLeave
    | AskCreate(create: CreateRoomRequest)
    | AskJoin(join: JoinRoomRequest)
    | AskLan(address: AddressText)
    | AskDiagnosis
    | Shutdown

  /** Refused before its id is recorded. */
  function Refusal(ids: set<string>, request: Request): Option<string> {
    if request.protocol != PROTOCOL_VERSION then Some("ipc.protocol-mismatch")
    else if !IsValidRequestId(request.id) then Some("ipc.invalid-request-id")
    else if |ids| >= MAX_REQUEST_IDS then Some("ipc.request-limit")
    else if request.id in ids then Some("ipc.duplicate-request-id")
    else None
  }

  /** Running out of ids ends the session. */
  function RefusalOutcome(code: string): Option<Outcome> {
    if code == "ipc.request-limit" then Some(PeerDisconnected) else None
  }

  function DecodedKey(text: seq<byte>): Option<seq<byte>> {
    if |text| != 64 then None else DecodedPairs(text)
  }

  function DecodedPairs(text: seq<byte>): (key: Option<seq<byte>>)
    requires |text| % 2 == 0
    ensures key.Some? ==> 2 * |key.value| == |text|
  {
    if text == [] then Some([])
    else
      var n := |text| - 2;
      var front := DecodedPairs(text[..n]);
      var last := ParsePair(text[n], text[n + 1]);
      if front.None? || last.None? then None else Some(front.value + [last.value])
  }

  /** What an admitted request asks for. */
  function ActionOf(isInitialized: bool, request: Request): Action {
    var kind, payload := request.messageType, request.payload;
    if (kind == "room.create" || kind == "room.join") && !isInitialized then Refuse("identity.not-initialized")
    else if kind == "identity.initialize" then
      if payload.privateKey.None? then Refuse("identity.invalid-request")
      else
        match DecodedKey(payload.privateKey.value)
        case Some(key) => Initialize(key)
        case None => Refuse("identity.invalid-key")
    else if kind == "room.status" then AskStatus
    else if kind == "room.leave" then AskLeave
    else if kind == "room.create" then
      if payload.create.Some? then AskCreate(payload.create.value) else Refuse("room.invalid-request")
    else if kind == "room.join" then
      if payload.join.Some? then AskJoin(payload.join.value) else Refuse("room.invalid-request")
    else if kind == "room.set-lan-address" then
      if payload.lan.Some? then AskLan(payload.lan.value) else Refuse("room.invalid-request")
    else if kind == "network.diagnose" then AskDiagnosis
    else if kind == "shutdown" then Shutdown
    else Refuse("ipc.unknown-message-type")
  }

  // ----- What the room service makes of it -----

  /** SHA-256 of an identity key in hexadecimal, known only to be a function. */
  type Naming = seq<byte> -> string

  datatype Config = Config(hash: Hash, naming: Naming)

  function Answer<T>(result: Result<T, RoomError>, body: T -> Body): Body {
    match result
    case Success(value) => body(value)
    case Failure(error) => RoomRefused(error)
  }

  /** The call that an action makes, and its result as the reply. */
  ghost predicate IsReplyTo(h: Helper, action: Action, call: Call, config: Config, h': Helper, body: Body) {
    match (action, call)
    case (Initialize(key), SetIdentityCall(machineId)) =>
      machineId == config.naming(key) && body == IdentityInitialized
    case (AskStatus, PollCall(_)) => body == StatusResult(h'.service.state)
    case (AskLeave, LeaveCall) => body == Answer(RoomSpec.AfterLeave(h.service, Success(())).1, s => RoomLeft(s))
    case (AskCreate(request), CreateCall(asked, _, answer)) =>
      asked == request && body == Answer(RoomSpec.AfterCreate(h.service, request, answer).1, s => RoomCreated(s))
    case (AskJoin(request), JoinCall(asked, _, answer)) =>
      asked == request && body == Answer(RoomSpec.AfterJoin(h.service, request, answer).1, s => RoomJoined(s))
    case (AskLan(address), LanCall(asked, _, answer, _)) =>
      && asked == address
      && body == Answer(RoomSpec.LanResult(h.service, address, answer, h'.service.state), s => RoomStateChanged(s))
    case (AskDiagnosis, DiagnoseCall(polling, diagnosing)) =>
      body == Answer(
                RoomSpec.AfterDiagnose(
                  h.service, Success(Refreshed(h.backend, polling)), Diagnosed(h.backend, diagnosing)).1,
                n => DiagnosticUpdated(n))
    case _ => false
  }

  /** An action is at most one call on the service. */
  ghost predicate Handled(h: Helper, action: Action, call: Option<Call>, config: Config, h': Helper, body: Body) {
    if call.None? then
      && h' == h
      && ((action.Refuse? && body == Refused(action.code)) || (action.Shutdown? && body == ShutdownAccepted))
    else HelperStep(h, call.value, config.hash, h') && IsReplyTo(h, action, call.value, config, h', body)
  }

  // ----- The main loop -----

  datatype Outcome = ShutdownRequested | PeerDisconnected | Broken

  /**
   * The session with what it has read, admitted and written. `cursor` is the subscription's place in the event
   * log and `missed` the number of events it was told it lagged behind by.
   */
  datatype Session = Session(
    ids: set<string>,
    identity: Option<seq<byte>>,
    sequence: nat,
    helper: Helper,
    cursor: nat,
    missed: nat,
    read: seq<Request>,
    admitted: seq<string>,
    written: seq<Frame>,
    outcome: Option<Outcome>)

  function Opened(hello: Request): Session {
    Session({hello.id}, None, 0, START, 0, 0, [hello], [], [Frame(hello.id, HelloAccepted)], None)
  }

  /** One turn of the loop, with the call and the reply it led to; a frame may fail to go out. */
  datatype Happening =
    | Arrives(request: Request, call: Option<Call>, reply: Body, delivered: bool)
    | Ends
    | Breaks
    | Ticks(polling: RefreshEnv)
    | Announces(delivered: bool)
    | GuestActs(happening: RegistryRuns.Happening)
    | ResourceEnds(resource: Resource)

  function Sent(s: Session, frame: Frame, delivered: bool, outcome: Option<Outcome>): Session {
    if delivered then s.(written := s.written + [frame], outcome := outcome) else s.(outcome := Some(Broken))
  }

  /** A receiver more than the channel's capacity behind is told so and moved to the oldest event retained. */
  function AfterAnnouncement(s: Session, delivered: bool): Session
    requires s.cursor < |s.helper.service.log|
  {
    var log := s.helper.service.log;
    if |log| - s.cursor > EVENT_CAPACITY then
      var oldest := |log| - EVENT_CAPACITY;
      s.(cursor := oldest, missed := s.missed + (oldest - s.cursor))
    else
      var sequence := (s.sequence + 1) % TWO_TO_THE_64;
      Sent(
        s.(sequence := sequence, cursor := s.cursor + 1),
        Frame(EventId(sequence), Push(log[s.cursor])), delivered, None)
  }

  /** A request whose id is new: the id is recorded, and the action it asks for taken. */
  ghost predicate Admitted(
      s: Session, request: Request, call: Option<Call>, reply: Body, delivered: bool, config: Config, s': Session)
  {
    var action := ActionOf(s.identity.Some?, request);
    && Handled(s.helper, action, call, config, s'.helper, reply)
    && s' == Sent(
               s.(
                 read := s.read + [request],
                 ids := s.ids + {request.id},
                 admitted := s.admitted + [request.id],
                 identity := if action.Initialize? then Some(action.key) else s.identity,
                 helper := s'.helper),
               Frame(request.id, reply), delivered, if action.Shutdown? then Some(ShutdownRequested) else None)
  }

  ghost predicate Arrived(
      s: Session, request: Request, call: Option<Call>, reply: Body, delivered: bool, config: Config, s': Session)
  {
    match Refusal(s.ids, request)
    case Some(code) =>
      && call.None? && reply == Refused(code)
      && s' == Sent(
                 s.(read := s.read + [request]), Frame(request.id, reply), delivered, RefusalOutcome(code))
    case None => Admitted(s, request, call, reply, delivered, config, s')
  }

  ghost predicate SessionStep(s: Session, e: Happening, config: Config, s': Session) {
    && s.outcome.None?
    && match e
       case Arrives(request, call, reply, delivered) => Arrived(s, request, call, reply, delivered, config, s')
       case Ends => s' == s.(outcome := Some(PeerDisconnected))
       case Breaks => s' == s.(outcome := Some(Broken))
       case Ticks(polling) =>
         && PollStep(s.helper, polling, s'.helper)
         && s' == s.(helper := s'.helper)
       case Announces(delivered) =>
         s.cursor < |s.helper.service.log| && s' == AfterAnnouncement(s, delivered)
       case GuestActs(happening) =>
         && GuestStep(s.helper, happening, s'.helper)
         && s' == s.(helper := s'.helper)
       case ResourceEnds(resource) =>
         && EndsStep(s.helper, resource, s'.helper)
         && s' == s.(helper := s'.helper)
  }

  ghost predicate IsSessionRun(ss: seq<Session>, es: seq<Happening>, hello: Request, config: Config) {
    && |ss| == |es| + 1
    && ss[0] == Opened(hello)
    && forall i :: 0 <= i < |es| ==> SessionStep(ss[i], es[i], config, ss[i + 1])
  }
}
