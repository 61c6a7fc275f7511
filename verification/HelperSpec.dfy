/** The room service and its backend as one machine: room/service.rs driving network/backend.rs. */
module HelperSpec {
  import opened BackendSpec
  import opened Mesh
  import opened RoomTypes
  import opened Wrappers
  import RoomSpec
  import RegistryRuns

  datatype Helper = Helper(service: RoomSpec.Service, backend: Backend)

  const START := Helper(RoomSpec.INITIAL, BackendSpec.INITIAL)

  /**
   * One operation on the service with what the world does to it, traffic of guests on the host's server, or the end
   * of a process or task that nobody stopped.
   */
  datatype Call =
    | SetIdentityCall(machineId: string)
    | CreateCall(create: CreateRoomRequest, creating: CreateWorld, created: Result<BackendRoom, RoomError>)
    | JoinCall(join: JoinRoomRequest, joining: JoinEnv, joined: Result<BackendRoom, RoomError>)
    | PollCall(polling: RefreshEnv)
    | LanCall(address: AddressText, changing: LanEnv, changed: Result<(), RoomError>, polling: RefreshEnv)
    | DiagnoseCall(polling: RefreshEnv, diagnosing: RefreshEnv)
    | LeaveCall
    | GuestCall(happening: RegistryRuns.Happening)
    | EndsCall(resource: Resource)

  predicate CreateStep(
      h: Helper, request: CreateRoomRequest, env: CreateWorld, answer: Result<BackendRoom, RoomError>, hash: Hash,
      h': Helper)
  {
    var checked := RoomSpec.CheckedCreate(request);
    if checked.Failure? || h.service.state.state != Idle then h' == h
    else
      && Created(h.backend, checked.value, env, hash, h'.backend, answer)
      && h'.service == RoomSpec.AfterCreate(h.service, request, answer).0
  }

  ghost predicate JoinStep(
      h: Helper, request: JoinRoomRequest, env: JoinEnv, answer: Result<BackendRoom, RoomError>, hash: Hash,
      h': Helper)
  {
    var checked := RoomSpec.CheckedJoin(request);
    if checked.Failure? || h.service.state.state != Idle then h' == h
    else
      && Joined(h.backend, checked.value, env, hash, h'.backend, answer)
      && h'.service == RoomSpec.AfterJoin(h.service, request, answer).0
  }

  ghost predicate PollStep(h: Helper, env: RefreshEnv, h': Helper) {
    && RoomSpec.Polled(h.service, Success(Refreshed(h.backend, env)), h'.service)
    && h'.backend == h.backend
  }

  ghost predicate LanStep(
      h: Helper, address: AddressText, env: LanEnv, answer: Result<(), RoomError>, polling: RefreshEnv, h': Helper)
  {
    if !RoomSpec.MayChangeLan(h.service, address) then h' == h
    else
      && LanSet(h.backend, address, env, h'.backend, answer)
      && RoomSpec.LanChanged(h.service, address, answer, Success(Refreshed(h'.backend, polling)), h'.service)
  }

  ghost predicate DiagnoseStep(h: Helper, polling: RefreshEnv, diagnosing: RefreshEnv, h': Helper) {
    && h'.backend == h.backend
    && h'.service
       == RoomSpec.AfterDiagnose(
            h.service, Success(Refreshed(h.backend, polling)), Diagnosed(h.backend, diagnosing)).0
  }

  predicate LeaveStep(h: Helper, h': Helper) {
    if h.service.state.state == Idle || h.service.state.state == Leaving then h' == h
    else
      && h'.backend == BackendSpec.AfterLeave(h.backend)
      && h'.service == RoomSpec.AfterLeave(h.service, Success(())).0
  }

  /** Guests reach the registry only while its server runs. */
  predicate GuestStep(h: Helper, e: RegistryRuns.Happening, h': Helper) {
    var b := h.backend;
    if IsHost(b.session) && b.session.value.scaffoldingTask in b.live && b.registry.Some? then
      h' == h.(backend := b.(registry := Some(RegistryRuns.Happen(b.registry.value, e))))
    else h' == h
  }

  /** A process exits, or a listener that cannot accept gives up and frees its port; the session still stores it. */
  predicate EndsStep(h: Helper, resource: Resource, h': Helper) {
    h' == h.(backend := h.backend.(live := h.backend.live - {resource}))
  }

  ghost predicate HelperStep(h: Helper, call: Call, hash: Hash, h': Helper) {
    match call
    case SetIdentityCall(machineId) => h' == h.(backend := h.backend.(identity := Some(machineId)))
    case CreateCall(request, env, answer) => CreateStep(h, request, env, answer, hash, h')
    case JoinCall(request, env, answer) => JoinStep(h, request, env, answer, hash, h')
    case PollCall(env) => PollStep(h, env, h')
    case LanCall(address, env, answer, polling) => LanStep(h, address, env, answer, polling, h')
    case DiagnoseCall(polling, diagnosing) => DiagnoseStep(h, polling, diagnosing, h')
    case LeaveCall => LeaveStep(h, h')
    case GuestCall(happening) => GuestStep(h, happening, h')
    case EndsCall(resource) => EndsStep(h, resource, h')
  }

  ghost predicate IsHelperRun(hs: seq<Helper>, calls: seq<Call>, hash: Hash) {
    && |hs| == |calls| + 1
    && hs[0] == START
    && forall i :: 0 <= i < |calls| ==> HelperStep(hs[i], calls[i], hash, hs[i + 1])
  }
}
