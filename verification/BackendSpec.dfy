/** What the operations of `EasyTierRoomBackend` (network/backend.rs) do, for every way their steps can fail. */
module BackendSpec {
  import opened Bytes
  import opened Mesh
  import opened PlayerRegistry
  import opened Quality
  import opened RoomTypes
  import opened Wrappers
  import Credentials

  // ----- What a session holds -----

  datatype ResourceKind = EasyTierProcess | ScaffoldingTask | Forward | Broadcast

  /** A running process or task. A mesh ingress holds its fixed port for as long as it lives. */
  datatype Resource = Resource(kind: ResourceKind, id: nat, port: Option<Port>)

  datatype ActiveSession =
    | HostSession(
        roomCode: string,
        endpoints: MeshEndpoints,
        easytier: Resource,
        scaffoldingTask: Resource,
        minecraft: Port,
        scaffoldingIngress: Resource,
        minecraftIngress: Resource,
        preferDirect: bool,
        allowRelay: bool)
    | MemberSession(
        easytier: Resource,
        scaffoldingForward: Option<Resource>,
        minecraftForward: Option<Resource>,
        minecraftBroadcast: Option<Resource>,
        localMinecraft: Port,
        preferDirect: bool,
        allowRelay: bool)

  function Held(resource: Option<Resource>): set<Resource> {
    if resource.Some? then {resource.value} else {}
  }

  function Owned(session: Option<ActiveSession>): set<Resource> {
    match session
    case None => {}
    case Some(HostSession(_, _, easytier, task, _, scaffolding, minecraft, _, _)) =>
      {easytier, task, scaffolding, minecraft}
    case Some(MemberSession(easytier, scaffolding, minecraft, broadcast, _, _, _)) =>
      {easytier} + Held(scaffolding) + Held(minecraft) + Held(broadcast)
  }

  /** The backend with what is running on its behalf; a host's registry is the one its server keeps. */
  datatype Backend = Backend(
    identity: Option<string>,
    session: Option<ActiveSession>,
    registry: Option<Registry>,
    live: set<Resource>,
    next: nat)

  const INITIAL := Backend(None, None, None, {}, 0)

  predicate IsHost(session: Option<ActiveSession>) {
    session.Some? && session.value.HostSession?
  }

  predicate IsPortTaken(live: set<Resource>, port: Port) {
    exists r :: r in live && r.port == Some(port)
  }

  // ----- Creating a room -----

  function Err(code: ErrorCode, retryable: bool): Option<RoomError> {
    Some(RoomError(code, retryable))
  }

  /** How each step of `create` turns out; `material` is what the random source yields. */
  datatype CreateEnv = CreateEnv(
    binaryFound: bool,
    material: Option<seq<byte>>,
    easytier: Result<(), RoomError>,
    serverBinds: bool,
    addressRead: bool,
    scaffoldingIngressBinds: bool,
    minecraftIngressBinds: bool,
    published: Result<(), RoomError>,
    now: nat)

  type CreateWorld = e: CreateEnv | e.material.Some? ==> |e.material.value| == 12
    witness CreateEnv(false, None, Success(()), false, false, false, false, Success(()), 0)

  function HostProfile(machineId: string): PlayerProfile {
    PlayerProfile("Host", machineId, "PCL N Terracotta", Some(HostPlayer))
  }

  /** All that can be wrong with a host's profile: its name and vendor are fixed. */
  predicate IsValidMachineId(machineId: string) {
    IsValidText(machineId, 128)
  }

  function GeneratedCode(env: CreateWorld): string
    requires env.material.Some?
  {
    Credentials.FormatRoomCode(Credentials.CodeOf(env.material.value))
  }

  /** Refused before anything has been started. */
  function CreateRefusal(b: Backend, request: CreateRoomRequest, env: CreateWorld): Option<RoomError> {
    if b.session.Some? then Err(OperationInProgress, false)
    else if b.identity.None? then Err(IdentityNotInitialized, false)
    else if !env.binaryFound then Err(EasyTierMissing, false)
    else if !IsLoopbackEndpoint(request.lanAddress) then Err(InvalidRequest, false)
    else if env.material.None? then Err(EntropyUnavailable, true)
    else None
  }

  /** Both mesh ingresses can be bound, one after the other, beside what is live. */
  predicate CanBindIngresses(live: set<Resource>, endpoints: MeshEndpoints, scaffolding: bool, minecraft: bool) {
    && scaffolding && !IsPortTaken(live, endpoints.scaffoldingPort)
    && minecraft && !IsPortTaken(live, endpoints.minecraftPort)
    && endpoints.scaffoldingPort != endpoints.minecraftPort
  }

  /** The first step that fails once the code has been drawn, if any does. */
  function HostFailure(b: Backend, env: CreateWorld, endpoints: MeshEndpoints): Option<RoomError>
    requires b.identity.Some?
  {
    if env.easytier.Failure? then Some(env.easytier.error)
    else if !IsValidMachineId(b.identity.value) then Err(ScaffoldingFailed, false)
    else if !env.serverBinds || !env.addressRead then Err(ScaffoldingFailed, true)
    else if !CanBindIngresses(b.live, endpoints, env.scaffoldingIngressBinds, env.minecraftIngressBinds)
      then Err(MeshIngressFailed, true)
    else if env.published.Failure? then Some(env.published.error)
    else None
  }

  function HostNetwork(preferDirect: bool, allowRelay: bool): NetworkStatus {
    NetworkStatus(
      Some("Unknown"),
      if preferDirect then Direct else if allowRelay then Relay else UnknownMode,
      Some(0), Some(0.0), None, true)
  }

  function CreatedRoom(machineId: string, request: CreateRoomRequest, code: string): BackendRoom {
    BackendRoom(
      code,
      None,
      HostNetwork(request.preferDirect, request.allowRelay),
      [RoomMember(machineId, "Host", Direct, Some(0), Some(0.0))])
  }

  function CreatedSession(next: nat, request: CreateRoomRequest, code: string, endpoints: MeshEndpoints): ActiveSession
    requires request.lanAddress.Endpoint?
  {
    HostSession(
      code,
      endpoints,
      Resource(EasyTierProcess, next, None),
      Resource(ScaffoldingTask, next + 1, None),
      request.lanAddress.port,
      Resource(Forward, next + 2, Some(endpoints.scaffoldingPort)),
      Resource(Forward, next + 3, Some(endpoints.minecraftPort)),
      request.preferDirect,
      request.allowRelay)
  }

  /** Nothing but the numbering of resources has changed. */
  predicate IsRolledBack(b: Backend, b': Backend) {
    b.next <= b'.next && b' == b.(next := b'.next)
  }

  /** Everything from the start of EasyTier on: all of it kept, or all of it given back. */
  predicate HostStarted(
      b: Backend, request: CreateRoomRequest, env: CreateWorld, code: string, endpoints: MeshEndpoints, b': Backend,
      r: Result<BackendRoom, RoomError>)
    requires b.identity.Some? && request.lanAddress.Endpoint?
  {
    match HostFailure(b, env, endpoints)
    case Some(error) => r == Failure(error) && IsRolledBack(b, b')
    case None =>
      var session := CreatedSession(b.next, request, code, endpoints);
      && r == Success(CreatedRoom(b.identity.value, request, code))
      && b' == Backend(
                 b.identity,
                 Some(session),
                 Some(NewRegistry(HostProfile(b.identity.value), request.lanAddress.port, env.now)),
                 b.live + Owned(Some(session)),
                 b.next + 4)
  }

  predicate Created(
      b: Backend, request: CreateRoomRequest, env: CreateWorld, hash: Hash, b': Backend,
      r: Result<BackendRoom, RoomError>)
  {
    match CreateRefusal(b, request, env)
    case Some(error) => r == Failure(error) && b' == b
    case None => HostStarted(b, request, env, GeneratedCode(env), FromRoomCode(GeneratedCode(env), hash), b', r)
  }

  // ----- Joining a room -----

  const LOCAL_DISCOVERY_ATTEMPTS: nat := 8
  const MESH_PROBE_ATTEMPTS: nat := 40

  datatype Advertisement = Advertisement(scaffolding: AddressText, minecraft: AddressText)

  datatype Heartbeat = Heartbeat(latencyMillis: nat, players: seq<PlayerProfile>)

  type EphemeralPort = p: Port | p != 0 witness 1

  /** How each step of `join` turns out, on the same-machine path and on the mesh path. */
  datatype JoinEnv = JoinEnv(
    binaryFound: bool,
    discovery: nat -> Result<Option<Advertisement>, RoomError>,
    easytier: Result<(), RoomError>,
    scaffoldingForwardBinds: bool,
    minecraftForwardBinds: bool,
    forwardPort: EphemeralPort,
    connects: nat -> bool,
    heartbeat: Option<Heartbeat>,
    broadcastStarts: bool)

  /** What up to `attempts` lookups find, from the given one on. */
  function Discovered(lookup: nat -> Result<Option<Advertisement>, RoomError>, from: nat, attempts: nat)
    : Result<Option<Advertisement>, RoomError>
    decreases attempts
  {
    if attempts == 0 then Success(None)
    else if lookup(from) != Success(None) then lookup(from)
    else Discovered(lookup, from + 1, attempts - 1)
  }

  function DiscoveredLocally(env: JoinEnv): Result<Option<Advertisement>, RoomError> {
    Discovered(env.discovery, 0, LOCAL_DISCOVERY_ATTEMPTS)
  }

  predicate IsReachable(env: JoinEnv) {
    exists k :: 0 <= k < MESH_PROBE_ATTEMPTS && env.connects(k)
  }

  /** The first step of `join_via_local_discovery` that fails, if any does. */
  function LocalJoinFailure(ad: Advertisement, env: JoinEnv): Option<RoomError> {
    if env.easytier.Failure? then Some(env.easytier.error)
    else if !IsLoopbackEndpoint(ad.scaffolding) || !IsLoopbackEndpoint(ad.minecraft) then Err(DiscoveryInvalid, false)
    else if !env.scaffoldingForwardBinds || !env.minecraftForwardBinds then Err(ForwardFailed, true)
    else None
  }

  function MeshJoinFailure(env: JoinEnv): Option<RoomError> {
    if env.easytier.Failure? then Some(env.easytier.error)
    else if !IsReachable(env) then Err(PeerUnreachable, true)
    else None
  }

  function JoinFailure(b: Backend, request: JoinRoomRequest, env: JoinEnv): Option<RoomError> {
    if b.session.Some? then Err(OperationInProgress, false)
    else if b.identity.None? then Err(IdentityNotInitialized, false)
    else if !env.binaryFound then Err(EasyTierMissing, false)
    else if Credentials.NormalizeRoomCode(request.roomCode).None? then Err(InvalidCode, false)
    else
      match DiscoveredLocally(env)
      case Failure(error) => Some(error)
      case Success(Some(ad)) => LocalJoinFailure(ad, env)
      case Success(None) => MeshJoinFailure(env)
  }

  /** The joined room's members: those of the host's heartbeat, or just the guest itself. */
  function JoinedMembers(machineId: string, heartbeat: Option<Heartbeat>): seq<RoomMember> {
    match heartbeat
    case None => [RoomMember(machineId, "Player", UnknownMode, None, None)]
    case Some(h) =>
      seq(|h.players|, i requires 0 <= i < |h.players| =>
        RoomMember(h.players[i].machineId, h.players[i].name, Direct, Some(ClampMillis(h.latencyMillis)), None))
  }

  function JoinedRtt(heartbeat: Option<Heartbeat>): Option<nat> {
    if heartbeat.Some? then Some(ClampMillis(heartbeat.value.latencyMillis)) else None
  }

  function LocalRoom(machineId: string, code: string, env: JoinEnv): BackendRoom {
    BackendRoom(
      code,
      Some(Endpoint(true, env.forwardPort)),
      NetworkStatus(Some("Local"), Direct, JoinedRtt(env.heartbeat), Some(0.0), None, true),
      JoinedMembers(machineId, env.heartbeat))
  }

  function LocalSession(next: nat, env: JoinEnv): ActiveSession {
    MemberSession(
      Resource(EasyTierProcess, next, None),
      Some(Resource(Forward, next + 1, None)),
      Some(Resource(Forward, next + 2, None)),
      if env.broadcastStarts then Some(Resource(Broadcast, next + 3, None)) else None,
      env.forwardPort,
      true,
      true)
  }

  function MeshRoom(machineId: string, code: string, env: JoinEnv, hash: Hash): BackendRoom {
    BackendRoom(
      code,
      Some(Endpoint(true, FromRoomCode(code, hash).memberLocalMinecraftPort)),
      NetworkStatus(
        Some("Unknown"),
        if env.heartbeat.Some? then Direct else UnknownMode,
        JoinedRtt(env.heartbeat), None, None, true),
      JoinedMembers(machineId, env.heartbeat))
  }

  function MeshSession(next: nat, code: string, env: JoinEnv, hash: Hash): ActiveSession {
    MemberSession(
      Resource(EasyTierProcess, next, None),
      None,
      None,
      if env.broadcastStarts then Some(Resource(Broadcast, next + 1, None)) else None,
      FromRoomCode(code, hash).memberLocalMinecraftPort,
      true,
      true)
  }

  /** A member session has been entered with exactly its own resources added. */
  predicate SessionEntered(b: Backend, session: ActiveSession, b': Backend) {
    && b.next <= b'.next
    && b' == Backend(b.identity, Some(session), None, b.live + Owned(Some(session)), b'.next)
    && forall r :: r in Owned(Some(session)) ==> b.next <= r.id < b'.next
  }

  predicate Joined(
      b: Backend, request: JoinRoomRequest, env: JoinEnv, hash: Hash, b': Backend,
      r: Result<BackendRoom, RoomError>)
  {
    match JoinFailure(b, request, env)
    case Some(error) => r == Failure(error) && IsRolledBack(b, b')
    case None =>
      var code := Credentials.NormalizeRoomCode(request.roomCode).value;
      if DiscoveredLocally(env).value.Some? then
        && r == Success(LocalRoom(b.identity.value, code, env))
        && SessionEntered(b, LocalSession(b.next, env), b')
      else
        && r == Success(MeshRoom(b.identity.value, code, env, hash))
        && SessionEntered(b, MeshSession(b.next, code, env, hash), b')
  }

  // ----- Changing the LAN address -----

  datatype LanEnv = LanEnv(
    serverBinds: bool,
    addressRead: bool,
    scaffoldingIngressBinds: bool,
    minecraftIngressBinds: bool,
    published: Result<(), RoomError>,
    now: nat)

  /** Refused before anything is touched. */
  function LanRefusal(b: Backend, address: AddressText): Option<RoomError> {
    if !IsHost(b.session) then Err(NotHost, false)
    else if !IsLoopbackEndpoint(address) then Err(InvalidRequest, false)
    else None
  }

  /** Failed after the old Scaffolding task was stopped; the old ingresses still hold their ports. */
  function LanFailure(b: Backend, env: LanEnv): Option<RoomError>
    requires IsHost(b.session)
  {
    var host := b.session.value;
    if b.identity.None? then Err(IdentityNotInitialized, false)
    else if !IsValidMachineId(b.identity.value) then Err(ScaffoldingFailed, false)
    else if !env.serverBinds || !env.addressRead then Err(ScaffoldingFailed, true)
    else if !CanBindIngresses(
              b.live - {host.scaffoldingTask}, host.endpoints, env.scaffoldingIngressBinds, env.minecraftIngressBinds)
      then Err(MeshIngressFailed, true)
    else None
  }

  function Rebound(host: ActiveSession, next: nat, port: Port): ActiveSession
    requires host.HostSession?
  {
    host.(
      scaffoldingTask := Resource(ScaffoldingTask, next, None),
      minecraft := port,
      scaffoldingIngress := Resource(Forward, next + 1, Some(host.endpoints.scaffoldingPort)),
      minecraftIngress := Resource(Forward, next + 2, Some(host.endpoints.minecraftPort)))
  }

  /** The part of the change that begins with stopping the old task. */
  predicate LanRebound(
      b: Backend, address: AddressText, env: LanEnv, b': Backend, r: Result<(), RoomError>)
    requires IsHost(b.session) && IsLoopbackEndpoint(address)
  {
    var host := b.session.value;
    match LanFailure(b, env)
    case Some(error) =>
      && r == Failure(error)
      && b.next <= b'.next
      && b' == b.(live := b.live - {host.scaffoldingTask}, next := b'.next)
    case None =>
      var session := Rebound(host, b.next, address.port);
      var stopped := {host.scaffoldingTask, host.scaffoldingIngress, host.minecraftIngress};
      && r == env.published
      && b' == Backend(
                 b.identity,
                 Some(session),
                 Some(NewRegistry(HostProfile(b.identity.value), address.port, env.now)),
                 b.live - stopped + {session.scaffoldingTask, session.scaffoldingIngress, session.minecraftIngress},
                 b.next + 3)
  }

  predicate LanSet(
      b: Backend, address: AddressText, env: LanEnv, b': Backend, r: Result<(), RoomError>)
  {
    match LanRefusal(b, address)
    case Some(error) => r == Failure(error) && b' == b
    case None => LanRebound(b, address, env, b', r)
  }

  // ----- Refreshing, diagnosing, leaving -----

  /** What a refresh finds: the network, and for a member the answer of the host's Scaffolding server. */
  datatype RefreshEnv = RefreshEnv(sample: NetworkSample, heartbeat: Option<Heartbeat>)

  ghost function Refreshed(b: Backend, env: RefreshEnv): BackendRefresh {
    match b.session
    case None => EMPTY_REFRESH
    case Some(session) =>
      var network := SampleNetwork(env.sample, session.preferDirect, session.allowRelay);
      if session.HostSession? then
        var profiles := if b.registry.Some? then Listing(b.registry.value) else [];
        BackendRefresh(Some(network), Some(MembersFromProfiles(profiles, network.roundTrip, network.mode)), None)
      else
        BackendRefresh(
          Some(network),
          match env.heartbeat {
            case None => None
            case Some(h) => Some(MembersFromProfiles(h.players, Some(ClampMillis(h.latencyMillis)), network.mode))
          },
          Some(Endpoint(true, session.localMinecraft)))
  }

  ghost function Diagnosed(b: Backend, env: RefreshEnv): Result<NetworkStatus, RoomError> {
    match Refreshed(b, env).network
    case Some(network) => Success(network)
    case None => Failure(RoomError(NotConnected, false))
  }

  function AfterLeave(b: Backend): Backend {
    b.(session := None, registry := None, live := b.live - Owned(b.session))
  }
}
