/** The room vocabulary: the types of room/service.rs and room/events.rs. Error messages are left out. */
module RoomTypes {
  import opened Bytes
  import opened Wrappers

  datatype RoomState = Idle | Creating | Joining | Connected | Reconnecting | Leaving | Faulted | Diagnosing

  datatype RoomRole = NoRole | HostRole | MemberRole

  datatype ConnectionMode = UnknownMode | Direct | Relay

  datatype RoomMember = RoomMember(
    id: string,
    displayName: string,
    mode: ConnectionMode,
    roundTrip: Option<nat>,
    packetLoss: Option<real>)

  datatype NetworkStatus = NetworkStatus(
    natType: Option<string>,
    mode: ConnectionMode,
    roundTrip: Option<nat>,
    packetLoss: Option<real>,
    relayNode: Option<string>,
    isHealthy: bool)

  /** A piece of text as socket-address parsing sees it; rendering an address gives text that parses to it. */
  datatype AddressText = Malformed | Endpoint(isLoopback: bool, port: Port)

  datatype ErrorCode =
    | OperationInProgress | InvalidRequest | InvalidCode | ForwardMissing | NotHost | NotConnected
    | IdentityNotInitialized | EasyTierMissing | EasyTierStartFailed | EntropyUnavailable
    | ScaffoldingFailed | MeshIngressFailed | ForwardFailed | PeerUnreachable | DiscoveryInvalid
    | OtherError

  datatype RoomError = RoomError(code: ErrorCode, retryable: bool)

  datatype RoomSnapshot = RoomSnapshot(
    state: RoomState,
    role: RoomRole,
    roomCode: Option<string>,
    localAddress: Option<AddressText>,
    gameSessionId: Option<string>,
    network: Option<NetworkStatus>,
    members: seq<RoomMember>,
    errorCode: Option<ErrorCode>)

  datatype CreateRoomRequest = CreateRoomRequest(
    gameSessionId: string,
    lanAddress: AddressText,
    preferDirect: bool,
    allowRelay: bool)

  datatype JoinRoomRequest = JoinRoomRequest(roomCode: string, gameSessionId: Option<string>)

  datatype BackendRoom = BackendRoom(
    roomCode: string,
    localAddress: Option<AddressText>,
    network: NetworkStatus,
    members: seq<RoomMember>)

  datatype BackendRefresh = BackendRefresh(
    network: Option<NetworkStatus>,
    members: Option<seq<RoomMember>>,
    localAddress: Option<AddressText>)

  datatype RoomEvent =
    | PeerJoined(member: RoomMember)
    | PeerLeft(id: string)
    | PeerUpdated(member: RoomMember)
    | NetworkUpdated(network: NetworkStatus)
    | StateChanged(snapshot: RoomSnapshot)

  /** A loopback IP and a non-zero port. */
  predicate IsLoopbackEndpoint(address: AddressText) {
    address.Endpoint? && address.isLoopback && address.port != 0
  }

  /** `BackendRefresh::default()` */
  const EMPTY_REFRESH := BackendRefresh(None, None, None)
}
