/** What the operations of `RoomService` (room/service.rs) do to its state, for any answers of a backend. */
module RoomSpec {
  import opened RoomTypes
  import opened Text
  import opened Wrappers
  import Credentials

  /** The snapshot, the members last reported to subscribers, and everything published so far. */
  datatype Service = Service(state: RoomSnapshot, known: map<string, RoomMember>, log: seq<RoomEvent>)

  const IDLE := RoomSnapshot(Idle, NoRole, None, None, None, None, [], None)

  const INITIAL := Service(IDLE, map[], [])

  function Pending(state: RoomState, role: RoomRole, gameSessionId: Option<string>): RoomSnapshot {
    RoomSnapshot(state, role, None, None, gameSessionId, None, [], None)
  }

  function FaultedSnapshot(role: RoomRole, gameSessionId: Option<string>, error: RoomError): RoomSnapshot {
    RoomSnapshot(Faulted, role, None, None, gameSessionId, None, [], Some(error.code))
  }

  function ConnectedSnapshot(role: RoomRole, gameSessionId: Option<string>, room: BackendRoom): RoomSnapshot {
    RoomSnapshot(
      Connected, role, Some(room.roomCode), room.localAddress, gameSessionId, Some(room.network), room.members, None)
  }

  // ----- Request checks -----

  const BUSY := RoomError(OperationInProgress, false)
  const INVALID := RoomError(InvalidRequest, false)
  const BAD_CODE := RoomError(InvalidCode, false)

  function ValidateSessionId(value: string): Option<string> {
    var trimmed := Trim(value);
    if trimmed == "" || Utf8Length(trimmed) > 128 || exists i :: 0 <= i < |trimmed| && IsControl(trimmed[i])
    then None
    else Some(trimmed)
  }

  /** `filter`: every dash and space dropped. */
  function WithoutSeparators(value: string): string {
    if value == [] then []
    else if value[0] == '-' || value[0] == ' ' then WithoutSeparators(value[1..])
    else [value[0]] + WithoutSeparators(value[1..])
  }

  /** `map`: every ASCII letter raised. */
  function Uppercased(value: string): string {
    seq(|value|, i requires 0 <= i < |value| => ToAsciiUpper(value[i]))
  }

  /** The service's own copy of the room-code normaliser: filter, map, check, format. */
  function NormalizeRoomCode(value: string): Option<string> {
    var compact := Uppercased(WithoutSeparators(value));
    if Utf8Length(compact) != 12 || exists i :: 0 <= i < |compact| && !IsAsciiAlphanumeric(compact[i]) then None
    else
      Utf8LengthOfAscii(compact);
      Some(compact[0..4] + "-" + compact[4..8] + "-" + compact[8..12])
  }

  lemma {:induction false} FilterThenMapIsCompaction(value: string)
    ensures Uppercased(WithoutSeparators(value)) == Credentials.CompactRoomCode(value)
  {
    if value != [] {
      FilterThenMapIsCompaction(value[1..]);
      UppercasedCons(value[0], WithoutSeparators(value[1..]));
    }
  }

  lemma UppercasedCons(c: char, rest: string)
    ensures Uppercased([c] + rest) == [ToAsciiUpper(c)] + Uppercased(rest)
  {
  }

  /** Both of the helper's normalisers compute the same function. */
  lemma NormalisersAgree(value: string)
    ensures NormalizeRoomCode(value) == Credentials.NormalizeRoomCode(value)
  {
    FilterThenMapIsCompaction(value);
  }

  function CheckedCreate(request: CreateRoomRequest): Result<CreateRoomRequest, RoomError> {
    match ValidateSessionId(request.gameSessionId)
    case None => Failure(INVALID)
    case Some(id) =>
      if IsLoopbackEndpoint(request.lanAddress) then Success(request.(gameSessionId := id)) else Failure(INVALID)
  }

  function CheckedJoin(request: JoinRoomRequest): Result<JoinRoomRequest, RoomError> {
    match NormalizeRoomCode(request.roomCode)
    case None => Failure(BAD_CODE)
    case Some(code) =>
      match request.gameSessionId
      case None => Success(JoinRoomRequest(code, None))
      case Some(value) =>
        match ValidateSessionId(value)
        case None => Failure(INVALID)
        case Some(id) => Success(JoinRoomRequest(code, Some(id)))
  }

  function ValidateBackendRoom(room: BackendRoom, requireLocalAddress: bool): Result<BackendRoom, RoomError> {
    match NormalizeRoomCode(room.roomCode)
    case None => Failure(BAD_CODE)
    case Some(code) =>
      if room.localAddress.Some? && !IsLoopbackEndpoint(room.localAddress.value) then Failure(INVALID)
      else if requireLocalAddress && room.localAddress.None? then Failure(RoomError(ForwardMissing, false))
      else Success(room.(roomCode := code))
  }

  // ----- Membership -----

  /** The hash map that inserting the members one by one leaves: a later duplicate id wins. */
  function MapOf(members: seq<RoomMember>): map<string, RoomMember> {
    if members == [] then map[]
    else MapOf(members[..|members| - 1])[members[|members| - 1].id := members[|members| - 1]]
  }

  /** What the member loop publishes for one member: every comparison is with the previous poll's map. */
  function Arrival(known: map<string, RoomMember>, member: RoomMember): seq<RoomEvent> {
    if member.id !in known then [PeerJoined(member)]
    else if known[member.id] != member then [PeerUpdated(member)]
    else []
  }

  function Arrivals(known: map<string, RoomMember>, members: seq<RoomMember>): seq<RoomEvent> {
    if members == [] then []
    else Arrivals(known, members[..|members| - 1]) + Arrival(known, members[|members| - 1])
  }

  /** One departure for each of the ids, in any order. */
  ghost predicate AreDepartures(events: seq<RoomEvent>, ids: set<string>) {
    && (forall e :: e in events ==> e.PeerLeft? && e.id in ids)
    && (forall id :: id in ids ==> PeerLeft(id) in events)
    && (forall i, j :: 0 <= i < j < |events| ==> events[i] != events[j])
  }

  /** The peer events of one poll. Departures follow in whatever order the hash map yields them. */
  ghost predicate AreDiffEvents(
      known: map<string, RoomMember>, members: seq<RoomMember>, events: seq<RoomEvent>)
  {
    var arrivals := Arrivals(known, members);
    && |arrivals| <= |events|
    && events[..|arrivals|] == arrivals
    && AreDepartures(events[|arrivals|..], known.Keys - MapOf(members).Keys)
  }

  // ----- Polling -----

  predicate IsActive(state: RoomState) {
    state == Connected || state == Reconnecting || state == Diagnosing
  }

  /** A network sample sets the quality and, in a settled room, the lifecycle state. */
  function AfterNetwork(state: RoomSnapshot, network: NetworkStatus): RoomSnapshot {
    state.(
      network := Some(network),
      state :=
        if state.state == Connected && !network.isHealthy then Reconnecting
        else if state.state == Reconnecting && network.isHealthy then Connected
        else state.state)
  }

  function AfterSample(state: RoomSnapshot, refresh: BackendRefresh): RoomSnapshot {
    if refresh.network.Some? then AfterNetwork(state, refresh.network.value) else state
  }

  function AfterRefresh(state: RoomSnapshot, refresh: BackendRefresh): RoomSnapshot {
    var sampled := AfterSample(state, refresh);
    sampled.(
      localAddress := if refresh.localAddress.Some? then refresh.localAddress else sampled.localAddress,
      members := if refresh.members.Some? then refresh.members.value else sampled.members)
  }

  function NetworkNews(state: RoomSnapshot, refresh: BackendRefresh): seq<RoomEvent> {
    if refresh.network.Some? && refresh.network != state.network then [NetworkUpdated(refresh.network.value)] else []
  }

  /** The snapshot is taken before address and members are updated. */
  function StateNews(state: RoomSnapshot, refresh: BackendRefresh): seq<RoomEvent> {
    var sampled := AfterSample(state, refresh);
    if sampled.state != state.state then [StateChanged(sampled)] else []
  }

  /** Published after the peer events. */
  function PollTail(state: RoomSnapshot, refresh: BackendRefresh): seq<RoomEvent> {
    NetworkNews(state, refresh) + StateNews(state, refresh)
  }

  ghost predicate Polled(s: Service, answer: Result<BackendRefresh, RoomError>, s': Service) {
    if answer.Failure? || !IsActive(s.state.state) then s' == s
    else
      var refresh := answer.value;
      var tail := PollTail(s.state, refresh);
      && s'.state == AfterRefresh(s.state, refresh)
      && s'.known == (if refresh.members.Some? then MapOf(refresh.members.value) else s.known)
      && |s.log| + |tail| <= |s'.log|
      && var peers := s'.log[|s.log|..|s'.log| - |tail|];
      && s'.log == s.log + peers + tail
      && if refresh.members.Some? then AreDiffEvents(s.known, refresh.members.value, peers) else peers == []
  }

  // ----- The other operations -----

  /** Entering a room with the backend's answer, once the service was found idle. */
  function Entered(
      s: Service, role: RoomRole, gameSessionId: Option<string>, answer: Result<BackendRoom, RoomError>
  ): (Service, Result<RoomSnapshot, RoomError>) {
    var validated :=
      if answer.Success? then ValidateBackendRoom(answer.value, role == MemberRole) else Failure(answer.error);
    match validated
    case Failure(error) => (s.(state := FaultedSnapshot(role, gameSessionId, error)), Failure(error))
    case Success(room) =>
      var snapshot := ConnectedSnapshot(role, gameSessionId, room);
      (Service(snapshot, MapOf(room.members), s.log + [StateChanged(snapshot)]), Success(snapshot))
  }

  function AfterCreate(s: Service, request: CreateRoomRequest, answer: Result<BackendRoom, RoomError>)
    : (Service, Result<RoomSnapshot, RoomError>)
  {
    match CheckedCreate(request)
    case Failure(error) => (s, Failure(error))
    case Success(checked) =>
      if s.state.state != Idle then (s, Failure(BUSY))
      else Entered(s, HostRole, Some(checked.gameSessionId), answer)
  }

  function AfterJoin(s: Service, request: JoinRoomRequest, answer: Result<BackendRoom, RoomError>)
    : (Service, Result<RoomSnapshot, RoomError>)
  {
    match CheckedJoin(request)
    case Failure(error) => (s, Failure(error))
    case Success(checked) =>
      if s.state.state != Idle then (s, Failure(BUSY))
      else Entered(s, MemberRole, checked.gameSessionId, answer)
  }

  /** Diagnosis goes back to the state it started from, or faults the room. */
  function AfterDiagnose(
      s: Service, answer: Result<BackendRefresh, RoomError>, fallback: Result<NetworkStatus, RoomError>
  ): (Service, Result<NetworkStatus, RoomError>) {
    if s.state.state != Connected && s.state.state != Reconnecting then (s, Failure(RoomError(NotConnected, false)))
    else
      var refresh := if answer.Success? then answer.value else EMPTY_REFRESH;
      match refresh.network
      case Some(network) =>
        var state := s.state.(
          network := Some(network),
          members := if refresh.members.Some? then refresh.members.value else s.state.members,
          localAddress := if refresh.localAddress.Some? then refresh.localAddress else s.state.localAddress);
        (s.(state := state), Success(network))
      case None =>
        match fallback
        case Success(network) => (s.(state := s.state.(network := Some(network))), Success(network))
        case Failure(error) =>
          (s.(state := FaultedSnapshot(s.state.role, s.state.gameSessionId, error)), Failure(error))
  }

  function AfterLeave(s: Service, answer: Result<(), RoomError>): (Service, Result<RoomSnapshot, RoomError>) {
    if s.state.state == Idle then (s, Success(s.state))
    else if s.state.state == Leaving then (s, Failure(BUSY))
    else
      match answer
      case Success(_) => (Service(IDLE, map[], s.log + [StateChanged(IDLE)]), Success(IDLE))
      case Failure(error) =>
        (s.(state := FaultedSnapshot(s.state.role, s.state.gameSessionId, error)), Failure(error))
  }

  predicate MayChangeLan(s: Service, address: AddressText) {
    IsLoopbackEndpoint(address) && s.state.state == Connected && s.state.role == HostRole
  }

  /** A changed LAN address is followed by a poll; anything else leaves the service as it was. */
  ghost predicate LanChanged(
      s: Service, address: AddressText, answer: Result<(), RoomError>, refresh: Result<BackendRefresh, RoomError>,
      s': Service)
  {
    if MayChangeLan(s, address) && answer.Success? then Polled(s, refresh, s') else s' == s
  }

  /** What `set_lan_address` returns: the error of the first refusal, or the snapshot that the poll leaves. */
  function LanResult(s: Service, address: AddressText, answer: Result<(), RoomError>, polled: RoomSnapshot)
    : Result<RoomSnapshot, RoomError>
  {
    if !IsLoopbackEndpoint(address) then Failure(INVALID)
    else if !MayChangeLan(s, address) then Failure(RoomError(NotHost, false))
    else if answer.Failure? then Failure(answer.error)
    else Success(polled)
  }

  /** One operation with the answers the backend gives it, used or not. */
  datatype Op =
    | CreateOp(create: CreateRoomRequest, created: Result<BackendRoom, RoomError>)
    | JoinOp(join: JoinRoomRequest, joined: Result<BackendRoom, RoomError>)
    | PollOp(polled: Result<BackendRefresh, RoomError>)
    | LanOp(address: AddressText, changed: Result<(), RoomError>, refreshed: Result<BackendRefresh, RoomError>)
    | DiagnoseOp(sampled: Result<BackendRefresh, RoomError>, fallback: Result<NetworkStatus, RoomError>)
    | LeaveOp(left: Result<(), RoomError>)

  ghost predicate Step(s: Service, op: Op, s': Service) {
    match op
    case CreateOp(request, answer) => s' == AfterCreate(s, request, answer).0
    case JoinOp(request, answer) => s' == AfterJoin(s, request, answer).0
    case PollOp(answer) => Polled(s, answer, s')
    case LanOp(address, answer, refresh) => LanChanged(s, address, answer, refresh, s')
    case DiagnoseOp(answer, fallback) => s' == AfterDiagnose(s, answer, fallback).0
    case LeaveOp(answer) => s' == AfterLeave(s, answer).0
  }

  /** The session awaits each operation before the next, so a run is a sequence of steps. */
  ghost predicate IsRun(states: seq<Service>, ops: seq<Op>) {
    && |states| == |ops| + 1
    && states[0] == INITIAL
    && forall i :: 0 <= i < |ops| ==> Step(states[i], ops[i], states[i + 1])
  }
}
