/** What every run of service and backend together keeps: their coupling, and what is running on their behalf. */
module HelperRuns {
  import opened BackendSpec
  import opened HelperSpec
  import opened Mesh
  import opened RoomTypes
  import opened Wrappers
  import Credentials
  import EventReplay
  import PlayerRegistry
  import RegistryRuns
  import RoomSpec

  // ----- The invariant -----

  /** A session's resources are of their kinds; the host's ingresses are for the ports its code stands for. */
  predicate IsWellFormed(session: ActiveSession, hash: Hash) {
    match session
    case HostSession(code, endpoints, easytier, task, _, scaffolding, minecraft, _, _) =>
      && endpoints == FromRoomCode(code, hash)
      && easytier.kind == EasyTierProcess && easytier.port.None?
      && task.kind == ScaffoldingTask && task.port.None?
      && scaffolding.kind == Forward && scaffolding.port == Some(endpoints.scaffoldingPort)
      && minecraft.kind == Forward && minecraft.port == Some(endpoints.minecraftPort)
    case MemberSession(easytier, _, _, _, _, _, _) => easytier.kind == EasyTierProcess
  }

  ghost predicate BackendInvariant(b: Backend, hash: Hash) {
    && (b.session.Some? ==> b.identity.Some? && IsWellFormed(b.session.value, hash))
    && (b.registry.Some? <==> IsHost(b.session))
    && (b.registry.Some? ==> PlayerRegistry.IsRegistry(b.registry.value))
    && b.live <= Owned(b.session)
    && (forall r :: r in Owned(b.session) ==> r.id < b.next)
  }

  /** The service's snapshot and the backend's session describe the same room, or no room. */
  predicate Coupled(s: RoomSnapshot, session: Option<ActiveSession>) {
    match session
    case None => s.state == Idle || s.state == Faulted
    case Some(HostSession(code, _, _, _, _, _, _, _, _)) =>
      && (s.state == Connected || s.state == Reconnecting)
      && s.role == HostRole && s.roomCode == Some(code)
    case Some(MemberSession(_, _, _, _, localMinecraft, _, _)) =>
      && (s.state == Connected || s.state == Reconnecting)
      && s.role == MemberRole && s.localAddress == Some(Endpoint(true, localMinecraft))
  }

  ghost predicate HelperInvariant(h: Helper, hash: Hash) {
    && EventReplay.ServiceInvariant(h.service)
    && BackendInvariant(h.backend, hash)
    && Coupled(h.service.state, h.backend.session)
  }

  // ----- Each step is one of the service -----

  /** What a call is to the service, if it concerns it at all. */
  ghost function OpOf(h: Helper, call: Call, h': Helper): Option<RoomSpec.Op> {
    match call
    case CreateCall(request, _, answer) => Some(RoomSpec.CreateOp(request, answer))
    case JoinCall(request, _, answer) => Some(RoomSpec.JoinOp(request, answer))
    case PollCall(env) => Some(RoomSpec.PollOp(Success(Refreshed(h.backend, env))))
    case LanCall(address, _, answer, polling) =>
      Some(RoomSpec.LanOp(address, answer, Success(Refreshed(h'.backend, polling))))
    case DiagnoseCall(polling, diagnosing) =>
      Some(RoomSpec.DiagnoseOp(Success(Refreshed(h.backend, polling)), Diagnosed(h.backend, diagnosing)))
    case LeaveCall => Some(RoomSpec.LeaveOp(Success(())))
    case _ => None
  }

  /** The pair refines the service: every call is a service operation with the backend's answers, or leaves it be. */
  lemma CallsAreOperations(h: Helper, call: Call, hash: Hash, h': Helper)
    requires HelperStep(h, call, hash, h')
    ensures match OpOf(h, call, h')
      case Some(op) => RoomSpec.Step(h.service, op, h'.service)
      case None => h'.service == h.service
  {
  }

  // ----- Entering a room -----

  lemma CreatedRoomIsValid(machineId: string, request: CreateRoomRequest, env: CreateWorld)
    requires env.material.Some?
    ensures var room := CreatedRoom(machineId, request, GeneratedCode(env));
      RoomSpec.ValidateBackendRoom(room, false) == Success(room)
  {
    var code := GeneratedCode(env);
    Credentials.GeneratedCodesAreNormal(env.material.value);
    RoomSpec.NormalisersAgree(code);
  }

  lemma CreateKeepsInvariant(
      h: Helper, request: CreateRoomRequest, env: CreateWorld, answer: Result<BackendRoom, RoomError>, hash: Hash,
      h': Helper)
    requires HelperInvariant(h, hash) && CreateStep(h, request, env, answer, hash, h')
    ensures BackendInvariant(h'.backend, hash) && Coupled(h'.service.state, h'.backend.session)
  {
    var checked := RoomSpec.CheckedCreate(request);
    if checked.Success? && h.service.state.state == Idle {
      CreationKeepsBackend(h.backend, checked.value, env, hash, h'.backend, answer);
      if answer.Success? {
        CreatedRoomIsValid(h.backend.identity.value, checked.value, env);
      }
    }
  }

  /** A creation leaves no session, or the host session of the room it reports. */
  lemma CreationKeepsBackend(
      b: Backend, request: CreateRoomRequest, env: CreateWorld, hash: Hash, b': Backend,
      r: Result<BackendRoom, RoomError>)
    requires BackendInvariant(b, hash) && b.session.None? && Created(b, request, env, hash, b', r)
    ensures BackendInvariant(b', hash)
    ensures r.Failure? ==> b'.session.None?
    ensures r.Success? ==>
              && b.identity.Some? && env.material.Some? && IsHost(b'.session)
              && r.value == CreatedRoom(b.identity.value, request, GeneratedCode(env))
              && b'.session.value.roomCode == GeneratedCode(env)
  {
    if CreateRefusal(b, request, env).None? {
      var code := GeneratedCode(env);
      StartedHostKeepsBackend(b, request, env, code, FromRoomCode(code, hash), b', r, hash);
    }
  }

  lemma StartedHostKeepsBackend(
      b: Backend, request: CreateRoomRequest, env: CreateWorld, code: string, endpoints: MeshEndpoints, b': Backend,
      r: Result<BackendRoom, RoomError>, hash: Hash)
    requires BackendInvariant(b, hash) && b.session.None? && b.identity.Some? && request.lanAddress.Endpoint?
    requires endpoints == FromRoomCode(code, hash) && HostStarted(b, request, env, code, endpoints, b', r)
    ensures BackendInvariant(b', hash)
    ensures r.Failure? ==> b'.session.None?
    ensures r.Success? ==>
              && IsHost(b'.session) && b'.session.value.roomCode == code
              && r.value == CreatedRoom(b.identity.value, request, code)
  {
  }

  lemma JoinedRoomIsValid(machineId: string, code: string, env: JoinEnv, hash: Hash)
    requires Credentials.NormalizeRoomCode(code) == Some(code)
    ensures RoomSpec.ValidateBackendRoom(LocalRoom(machineId, code, env), true)
         == Success(LocalRoom(machineId, code, env))
    ensures RoomSpec.ValidateBackendRoom(MeshRoom(machineId, code, env, hash), true)
         == Success(MeshRoom(machineId, code, env, hash))
  {
    RoomSpec.NormalisersAgree(code);
  }

  lemma JoinKeepsInvariant(
      h: Helper, request: JoinRoomRequest, env: JoinEnv, answer: Result<BackendRoom, RoomError>, hash: Hash,
      h': Helper)
    requires HelperInvariant(h, hash) && JoinStep(h, request, env, answer, hash, h')
    ensures BackendInvariant(h'.backend, hash) && Coupled(h'.service.state, h'.backend.session)
  {
    var checked := RoomSpec.CheckedJoin(request);
    if checked.Success? && h.service.state.state == Idle {
      JoiningKeepsBackend(h.backend, checked.value, env, hash, h'.backend, answer);
    }
  }

  /** Joining leaves no session, or the member session of a room that passes the service's check. */
  lemma JoiningKeepsBackend(
      b: Backend, request: JoinRoomRequest, env: JoinEnv, hash: Hash, b': Backend, r: Result<BackendRoom, RoomError>)
    requires BackendInvariant(b, hash) && b.session.None? && Joined(b, request, env, hash, b', r)
    ensures BackendInvariant(b', hash)
    ensures r.Failure? ==> b'.session.None?
    ensures r.Success? ==>
              && b'.session.Some? && b'.session.value.MemberSession?
              && r.value.localAddress == Some(Endpoint(true, b'.session.value.localMinecraft))
              && RoomSpec.ValidateBackendRoom(r.value, true) == r
  {
    if r.Success? {
      Credentials.NormalFormsAreTheFixedPoints(request.roomCode);
      JoinedRoomIsValid(b.identity.value, Credentials.NormalizeRoomCode(request.roomCode).value, env, hash);
    }
  }

  // ----- Inside a room -----

  /** The ports of a session can be listened on again exactly when neither of its ingresses still does. */
  lemma PortsAreFreeExactlyWithoutIngresses(b: Backend, hash: Hash)
    requires BackendInvariant(b, hash) && IsHost(b.session)
    ensures var host := b.session.value;
      CanBindIngresses(b.live - {host.scaffoldingTask}, host.endpoints, true, true)
      <==> host.scaffoldingIngress !in b.live && host.minecraftIngress !in b.live
  {
    var host := b.session.value;
    var live := b.live - {host.scaffoldingTask};
    PortsAreDistinctAndInRange(host.roomCode, hash);
    if host.scaffoldingIngress in b.live {
      assert host.scaffoldingIngress in live;
    }
    if host.minecraftIngress in b.live {
      assert host.minecraftIngress in live;
    }
    forall r | r in live
      ensures r == host.easytier || r == host.scaffoldingIngress || r == host.minecraftIngress
    {
      assert r in Owned(b.session);
    }
  }

  /** What a LAN change needs of everything but the ports. */
  predicate CanRebind(b: Backend, env: LanEnv) {
    && b.identity.Some? && IsValidMachineId(b.identity.value)
    && env.serverBinds && env.addressRead && env.scaffoldingIngressBinds && env.minecraftIngressBinds
  }

  /** It takes effect exactly when the rest works out and neither old ingress is listening. */
  lemma LanChangeFailsExactly(b: Backend, env: LanEnv, hash: Hash)
    requires BackendInvariant(b, hash) && IsHost(b.session)
    ensures var host := b.session.value;
      LanFailure(b, env).None?
      <==> CanRebind(b, env) && host.scaffoldingIngress !in b.live && host.minecraftIngress !in b.live
  {
    PortsAreFreeExactlyWithoutIngresses(b, hash);
  }

  /** A rebound session is well formed, and what runs for it beyond EasyTier is new. */
  lemma ReboundKeepsInvariant(
      b: Backend, address: AddressText, env: LanEnv, b': Backend, r: Result<(), RoomError>, hash: Hash)
    requires BackendInvariant(b, hash) && IsHost(b.session) && IsLoopbackEndpoint(address)
    requires LanRebound(b, address, env, b', r)
    ensures BackendInvariant(b', hash) && IsHost(b'.session) && b'.identity == b.identity
    ensures b'.session.value.roomCode == b.session.value.roomCode
    ensures b.session.value.scaffoldingTask !in b'.live
    ensures b'.session != b.session ==> LanFailure(b, env).None?
    ensures r.Success? ==> LanFailure(b, env).None?
  {
    if LanFailure(b, env).None? {
      ReboundResources(b.live, b.session.value, Rebound(b.session.value, b.next, address.port), hash);
    }
  }

  lemma ReboundResources(live: set<Resource>, host: ActiveSession, session: ActiveSession, hash: Hash)
    requires host.HostSession? && IsWellFormed(host, hash) && live <= Owned(Some(host))
    requires session.HostSession? && session.easytier == host.easytier
    requires session.scaffoldingTask.id !in {host.easytier.id, host.scaffoldingTask.id}
    requires forall r :: r in Owned(Some(host)) ==>
               && r.id < session.scaffoldingTask.id && r.id < session.scaffoldingIngress.id
               && r.id < session.minecraftIngress.id
    ensures var running := live - {host.scaffoldingTask, host.scaffoldingIngress, host.minecraftIngress}
              + {session.scaffoldingTask, session.scaffoldingIngress, session.minecraftIngress};
      && running <= Owned(Some(session)) && host.scaffoldingTask !in running
      && (host.easytier in running <==> host.easytier in live)
  {
    assert host.scaffoldingTask in Owned(Some(host)) && host.easytier in Owned(Some(host));
    forall r | r in live
      ensures r in {host.easytier, host.scaffoldingTask, host.scaffoldingIngress, host.minecraftIngress}
    {
      assert r in Owned(Some(host));
    }
  }

  lemma LanKeepsInvariant(
      h: Helper, address: AddressText, env: LanEnv, answer: Result<(), RoomError>, polling: RefreshEnv, hash: Hash,
      h': Helper)
    requires HelperInvariant(h, hash) && LanStep(h, address, env, answer, polling, h')
    ensures BackendInvariant(h'.backend, hash) && Coupled(h'.service.state, h'.backend.session)
    ensures h'.backend.identity == h.backend.identity
    ensures RoomSpec.MayChangeLan(h.service, address) ==>
              IsHost(h.backend.session) && IsHost(h'.backend.session)
              && h.backend.session.value.scaffoldingTask !in h'.backend.live
    ensures !RoomSpec.MayChangeLan(h.service, address) ==> h' == h
    ensures answer.Failure? ==> h'.service == h.service
  {
    if RoomSpec.MayChangeLan(h.service, address) {
      ReboundKeepsInvariant(h.backend, address, env, h'.backend, answer, hash);
      if answer.Success? {
        PollCoupling(h.service, h'.backend, polling, hash, h'.service);
      }
    }
  }

  lemma RefreshFitsSession(b: Backend, env: RefreshEnv, hash: Hash)
    requires BackendInvariant(b, hash)
    ensures b.session.Some? <==> Refreshed(b, env).network.Some?
    ensures IsHost(b.session) ==> Refreshed(b, env).localAddress.None?
    ensures b.session.Some? && b.session.value.MemberSession? ==>
              Refreshed(b, env).localAddress == Some(Endpoint(true, b.session.value.localMinecraft))
  {
  }

  lemma PollCoupling(
      s: RoomSpec.Service, b: Backend, env: RefreshEnv, hash: Hash, s': RoomSpec.Service)
    requires BackendInvariant(b, hash) && Coupled(s.state, b.session)
    requires RoomSpec.Polled(s, Success(Refreshed(b, env)), s')
    ensures Coupled(s'.state, b.session)
  {
    RefreshFitsSession(b, env, hash);
  }

  /** A diagnosis in a room ends in the state it started from, never in a fault. */
  lemma DiagnosisNeverFaults(h: Helper, polling: RefreshEnv, diagnosing: RefreshEnv, hash: Hash, h': Helper)
    requires HelperInvariant(h, hash) && DiagnoseStep(h, polling, diagnosing, h')
    ensures h'.service.state.state == h.service.state.state
    ensures Coupled(h'.service.state, h'.backend.session)
  {
    RefreshFitsSession(h.backend, polling, hash);
  }

  lemma GuestKeepsInvariant(h: Helper, e: RegistryRuns.Happening, hash: Hash, h': Helper)
    requires BackendInvariant(h.backend, hash) && GuestStep(h, e, h')
    ensures BackendInvariant(h'.backend, hash)
  {
    if h.backend.registry.Some? {
      var r := h.backend.registry.value;
      match e
      case Ping(profile, at) => PlayerRegistry.OperationsKeepRegistry(r, profile, at);
      case Cleanup(at) => PlayerRegistry.OperationsKeepRegistry(r, HostProfile(r.hostMachineId), at);
    }
  }

  lemma HelperStepKeepsInvariant(h: Helper, call: Call, hash: Hash, h': Helper)
    requires HelperInvariant(h, hash) && HelperStep(h, call, hash, h')
    ensures HelperInvariant(h', hash)
  {
    CallsAreOperations(h, call, hash, h');
    if OpOf(h, call, h').Some? {
      EventReplay.StepKeepsInvariant(h.service, OpOf(h, call, h').value, h'.service);
    }
    match call
    case SetIdentityCall(_) =>
    case CreateCall(request, env, answer) => CreateKeepsInvariant(h, request, env, answer, hash, h');
    case JoinCall(request, env, answer) => JoinKeepsInvariant(h, request, env, answer, hash, h');
    case PollCall(env) => PollCoupling(h.service, h.backend, env, hash, h'.service);
    case LanCall(address, env, answer, polling) => LanKeepsInvariant(h, address, env, answer, polling, hash, h');
    case DiagnoseCall(polling, diagnosing) => DiagnosisNeverFaults(h, polling, diagnosing, hash, h');
    case LeaveCall =>
    case GuestCall(happening) => GuestKeepsInvariant(h, happening, hash, h');
    case EndsCall(resource) =>
  }

  lemma {:induction false} InvariantOnEveryHelperRun(hs: seq<Helper>, calls: seq<Call>, hash: Hash, i: nat)
    requires IsHelperRun(hs, calls, hash) && i < |hs|
    ensures HelperInvariant(hs[i], hash)
  {
    if i > 0 {
      InvariantOnEveryHelperRun(hs, calls, hash, i - 1);
      HelperStepKeepsInvariant(hs[i - 1], calls[i - 1], hash, hs[i]);
    }
  }

  // ----- What every run guarantees -----

  /** Service state and backend session never drift apart, so a call that finds the service idle finds no session. */
  lemma CouplingOnEveryRun(hs: seq<Helper>, calls: seq<Call>, hash: Hash, i: nat)
    requires IsHelperRun(hs, calls, hash) && i < |hs|
    ensures EventReplay.IsSettled(hs[i].service.state.state)
    ensures EventReplay.SnapshotFits(hs[i].service.state)
    ensures hs[i].service.state.state in {Idle, Faulted} <==> hs[i].backend.session.None?
    ensures hs[i].service.state.state in {Connected, Reconnecting} ==>
              (hs[i].service.state.role == HostRole <==> IsHost(hs[i].backend.session))
    ensures IsHost(hs[i].backend.session) ==>
              hs[i].service.state.roomCode == Some(hs[i].backend.session.value.roomCode)
    ensures EventReplay.IsLifecycle(EventReplay.Lifecycle(hs[i].service.log))
  {
    InvariantOnEveryHelperRun(hs, calls, hash, i);
  }

  /** The backend's own idle check refuses nothing that has passed the service's. */
  lemma IdleCheckNeverRefuses(
      hs: seq<Helper>, calls: seq<Call>, hash: Hash, i: nat, create: CreateRoomRequest, creating: CreateWorld)
    requires IsHelperRun(hs, calls, hash) && i < |hs| && hs[i].service.state.state == Idle
    ensures hs[i].backend.session.None?
    ensures CreateRefusal(hs[i].backend, create, creating) != Some(RoomError(OperationInProgress, false))
  {
    InvariantOnEveryHelperRun(hs, calls, hash, i);
  }

  /** What a call takes away of the running resources without taking them from the session. */
  function StoppedBy(h: Helper, call: Call): set<Resource> {
    if call.EndsCall? then {call.resource}
    else if StopsTask(h, call) && IsHost(h.backend.session) then {h.backend.session.value.scaffoldingTask}
    else {}
  }

  predicate StopsTask(h: Helper, call: Call) {
    call.LanCall? && RoomSpec.MayChangeLan(h.service, call.address)
  }

  /** What is running is what the session owns, less what is lost of it. */
  predicate IsConserved(b: Backend, lost: set<Resource>) {
    b.live == Owned(b.session) - lost && lost <= Owned(b.session)
  }

  /** What is lost after one more call: a session left takes its losses with it. */
  function StillLost(lost: set<Resource>, h: Helper, call: Call, h': Helper): set<Resource> {
    (lost + StoppedBy(h, call)) * Owned(h'.backend.session)
  }

  /** Those of the stored session's resources that have ended by themselves or been stopped by a LAN change. */
  function Lost(hs: seq<Helper>, calls: seq<Call>, i: nat): set<Resource>
    requires i <= |calls| < |hs|
  {
    if i == 0 then {}
    else StillLost(Lost(hs, calls, i - 1), hs[i - 1], calls[i - 1], hs[i])
  }

  /**
   * Whatever failed along the way, what is running is exactly what the stored session owns, less what has ended by
   * itself in this session and the Scaffolding tasks that attempted LAN changes have stopped.
   */
  lemma {:induction false} ResourcesAreConserved(hs: seq<Helper>, calls: seq<Call>, hash: Hash, i: nat)
    requires IsHelperRun(hs, calls, hash) && i < |hs|
    ensures IsConserved(hs[i].backend, Lost(hs, calls, i))
  {
    forall k, lost | 0 <= k < |calls| && IsConserved(hs[k].backend, lost)
      ensures IsConserved(hs[k + 1].backend, StillLost(lost, hs[k], calls[k], hs[k + 1]))
    {
      InvariantOnEveryHelperRun(hs, calls, hash, k);
      StepConservesResources(hs[k], calls[k], hash, hs[k + 1], lost);
    }
    ConservedByInduction(hs, calls, i);
  }

  lemma {:induction false} ConservedByInduction(hs: seq<Helper>, calls: seq<Call>, i: nat)
    requires |hs| == |calls| + 1 && hs[0] == START && i < |hs|
    requires forall k, lost :: 0 <= k < |calls| && IsConserved(hs[k].backend, lost) ==>
               IsConserved(hs[k + 1].backend, StillLost(lost, hs[k], calls[k], hs[k + 1]))
    ensures IsConserved(hs[i].backend, Lost(hs, calls, i))
  {
    if i > 0 {
      ConservedByInduction(hs, calls, i - 1);
      assert IsConserved(hs[i - 1].backend, Lost(hs, calls, i - 1));
    }
  }

  lemma StepConservesResources(h: Helper, call: Call, hash: Hash, h': Helper, lost: set<Resource>)
    requires HelperInvariant(h, hash) && HelperStep(h, call, hash, h')
    requires IsConserved(h.backend, lost)
    ensures IsConserved(h'.backend, StillLost(lost, h, call, h'))
  {
    if call.CreateCall? {
      CreateConservesResources(h, call.create, call.creating, call.created, hash, h', lost, call);
    } else if call.JoinCall? {
      JoinConservesResources(h, call.join, call.joining, call.joined, hash, h', lost, call);
    } else if call.LeaveCall? {
      NothingOwnedNothingLost(h', lost, h, call);
    } else if StopsTask(h, call) {
      LanConservesResources(
        h.backend, call.address, call.changing, h'.backend, call.changed, hash, lost);
    }
  }

  /** An entry that fails changes nothing that runs, and one that succeeds adds exactly its session's resources. */
  lemma CreateConservesResources(
      h: Helper, request: CreateRoomRequest, env: CreateWorld, answer: Result<BackendRoom, RoomError>, hash: Hash,
      h': Helper, lost: set<Resource>, call: Call)
    requires HelperInvariant(h, hash) && CreateStep(h, request, env, answer, hash, h')
    requires IsConserved(h.backend, lost) && call.CreateCall?
    ensures IsConserved(h'.backend, StillLost(lost, h, call, h'))
  {
    EntryConserves(h, lost, call, h');
  }

  lemma JoinConservesResources(
      h: Helper, request: JoinRoomRequest, env: JoinEnv, answer: Result<BackendRoom, RoomError>, hash: Hash,
      h': Helper, lost: set<Resource>, call: Call)
    requires HelperInvariant(h, hash) && JoinStep(h, request, env, answer, hash, h')
    requires IsConserved(h.backend, lost) && call.JoinCall?
    ensures IsConserved(h'.backend, StillLost(lost, h, call, h'))
  {
    EntryConserves(h, lost, call, h');
  }

  lemma EntryConserves(h: Helper, lost: set<Resource>, call: Call, h': Helper)
    requires IsConserved(h.backend, lost) && StoppedBy(h, call) == {}
    requires if h'.backend.session == h.backend.session then h'.backend.live == h.backend.live
             else h.backend.session.None? && h'.backend.live == h.backend.live + Owned(h'.backend.session)
    ensures IsConserved(h'.backend, StillLost(lost, h, call, h'))
  {
  }

  lemma NothingOwnedNothingLost(h': Helper, lost: set<Resource>, h: Helper, call: Call)
    requires IsConserved(h.backend, lost) && StoppedBy(h, call) == {}
    requires h' == h || (h'.backend.session.None? && h'.backend.live == h.backend.live - Owned(h.backend.session))
    ensures IsConserved(h'.backend, StillLost(lost, h, call, h'))
  {
  }

  lemma LanConservesResources(
      b: Backend, address: AddressText, env: LanEnv, b': Backend, r: Result<(), RoomError>, hash: Hash,
      lost: set<Resource>)
    requires BackendInvariant(b, hash) && IsHost(b.session) && IsLoopbackEndpoint(address)
    requires LanRebound(b, address, env, b', r)
    requires b.live == Owned(b.session) - lost && lost <= Owned(b.session)
    ensures b'.live == Owned(b'.session) - (lost + {b.session.value.scaffoldingTask}) * Owned(b'.session)
  {
    var host := b.session.value;
    if LanFailure(b, env).None? {
      var session := Rebound(host, b.next, address.port);
      ReboundResources(b.live, host, session, hash);
      assert host.easytier in Owned(b.session) && host.scaffoldingTask in Owned(b.session);
      assert session.scaffoldingTask !in lost + {host.scaffoldingTask};
      assert session.scaffoldingIngress !in lost + {host.scaffoldingTask};
      assert session.minecraftIngress !in lost + {host.scaffoldingTask};
    }
  }

  /** Nothing runs outside a room: neither after leaving nor after a failed attempt to enter. */
  lemma NothingRunsOutsideRooms(hs: seq<Helper>, calls: seq<Call>, hash: Hash, i: nat)
    requires IsHelperRun(hs, calls, hash) && i < |hs|
    requires hs[i].service.state.state in {Idle, Faulted}
    ensures hs[i].backend.live == {} && hs[i].backend.registry.None?
  {
    InvariantOnEveryHelperRun(hs, calls, hash, i);
  }

  /**
   * A LAN change that gets past the service's checks always stops the room's Scaffolding server first. It takes
   * effect exactly when both of the session's ingresses have ended and the rest works out; while one of them
   * listens it fails, and leaves the room without a server.
   */
  lemma LanChangesOnEveryRun(hs: seq<Helper>, calls: seq<Call>, hash: Hash, i: nat)
    requires IsHelperRun(hs, calls, hash) && i < |calls| && StopsTask(hs[i], calls[i])
    ensures var b, b', answer := hs[i].backend, hs[i + 1].backend, calls[i].changed;
      && IsHost(b.session) && b.session.value.scaffoldingTask !in b'.live
      && var host := b.session.value;
      && (b'.session != b.session
          <==> CanRebind(b, calls[i].changing)
               && host.scaffoldingIngress in Lost(hs, calls, i) && host.minecraftIngress in Lost(hs, calls, i))
      && (b'.session == b.session ==> answer.Failure? && hs[i + 1].service == hs[i].service)
      && (answer.Success? <==> b'.session != b.session && calls[i].changing.published.Success?)
  {
    InvariantOnEveryHelperRun(hs, calls, hash, i);
    ResourcesAreConserved(hs, calls, hash, i);
    var h, call := hs[i], calls[i];
    LanKeepsInvariant(h, call.address, call.changing, call.changed, call.polling, hash, hs[i + 1]);
    LanChangeFailsExactly(h.backend, call.changing, hash);
    assert h.backend.session.value.scaffoldingTask in Owned(h.backend.session);
  }

  // ----- Replay of helper runs -----

  /** A host's refreshed list names every player once. */
  lemma HostListsNamePlayersOnce(b: Backend, env: RefreshEnv, hash: Hash)
    requires BackendInvariant(b, hash) && IsHost(b.session)
    ensures Refreshed(b, env).members.Some? && EventReplay.NamesMembersOnce(Refreshed(b, env).members.value)
  {
    var r := b.registry.value;
    PlayerRegistry.ListingLists(r);
    PlayerRegistry.ListingShape(r, PlayerRegistry.Listing(r));
  }

  /** As does a member's, when its host answers as this helper's server does. */
  lemma GenuineHeartbeatsNamePlayersOnce(b: Backend, env: RefreshEnv, r: PlayerRegistry.Registry)
    requires b.session.Some? && b.session.value.MemberSession?
    requires env.heartbeat.Some? && PlayerRegistry.IsRegistry(r)
    requires PlayerRegistry.IsListing(r, env.heartbeat.value.players)
    ensures Refreshed(b, env).members.Some? && EventReplay.NamesMembersOnce(Refreshed(b, env).members.value)
  {
    PlayerRegistry.ListingShape(r, env.heartbeat.value.players);
  }

  /** Whatever a member's host answers when polled names every player once. */
  ghost predicate HearsPlayersOnce(call: Call) {
    call.PollCall? && call.polling.heartbeat.Some? ==>
      PlayerRegistry.HasDistinctIds(call.polling.heartbeat.value.players)
  }

  lemma LanStepIsReplayed(
      h: Helper, address: AddressText, env: LanEnv, answer: Result<(), RoomError>, polling: RefreshEnv, hash: Hash,
      h': Helper)
    requires HelperInvariant(h, hash) && LanStep(h, address, env, answer, polling, h')
    requires EventReplay.IsReplayed(h.service)
    ensures EventReplay.IsReplayed(h'.service)
  {
    LanKeepsInvariant(h, address, env, answer, polling, hash, h');
    if RoomSpec.MayChangeLan(h.service, address) && answer.Success? {
      var refreshed: Result<BackendRefresh, RoomError> := Success(Refreshed(h'.backend, polling));
      HostListsNamePlayersOnce(h'.backend, polling, hash);
      EventReplay.DistinctListsAreSafe(h.service, RoomSpec.PollOp(refreshed));
      EventReplay.PollReplay(h.service, refreshed, h'.service);
    }
  }

  lemma HelperStepIsReplayed(h: Helper, call: Call, hash: Hash, h': Helper)
    requires HelperInvariant(h, hash) && HelperStep(h, call, hash, h') && EventReplay.IsReplayed(h.service)
    requires IsHost(h.backend.session) || HearsPlayersOnce(call)
    ensures EventReplay.IsReplayed(h'.service)
  {
    if call.PollCall? {
      PollStepIsReplayed(h, call.polling, hash, h');
    } else if call.LanCall? {
      LanStepIsReplayed(h, call.address, call.changing, call.changed, call.polling, hash, h');
    } else {
      CallsAreOperations(h, call, hash, h');
      match OpOf(h, call, h') {
        case Some(op) => OtherOperationsAreReplayed(h.service, op, h'.service);
        case None =>
      }
    }
  }

  lemma OtherOperationsAreReplayed(s: RoomSpec.Service, op: RoomSpec.Op, s': RoomSpec.Service)
    requires EventReplay.ServiceInvariant(s) && EventReplay.IsReplayed(s) && RoomSpec.Step(s, op, s')
    requires !op.PollOp? && !op.LanOp?
    ensures EventReplay.IsReplayed(s')
  {
    EventReplay.StepReplaysExactlyWhenSafe(s, op, s');
  }

  lemma PollStepIsReplayed(h: Helper, env: RefreshEnv, hash: Hash, h': Helper)
    requires HelperInvariant(h, hash) && PollStep(h, env, h') && EventReplay.IsReplayed(h.service)
    requires IsHost(h.backend.session) || HearsPlayersOnce(PollCall(env))
    ensures EventReplay.IsReplayed(h'.service)
  {
    if IsHost(h.backend.session) {
      HostListsNamePlayersOnce(h.backend, env, hash);
    }
    var answer: Result<BackendRefresh, RoomError> := Success(Refreshed(h.backend, env));
    EventReplay.DistinctListsAreSafe(h.service, RoomSpec.PollOp(answer));
    EventReplay.PollReplay(h.service, answer, h'.service);
  }

  /** A subscriber's replay is the service's membership throughout; a host's rooms need no assumption for that. */
  lemma {:induction false} ReplayOnEveryHelperRun(hs: seq<Helper>, calls: seq<Call>, hash: Hash, i: nat)
    requires IsHelperRun(hs, calls, hash) && i < |hs|
    requires forall k :: 0 <= k < i ==> IsHost(hs[k].backend.session) || HearsPlayersOnce(calls[k])
    ensures EventReplay.IsReplayed(hs[i].service)
  {
    if i > 0 {
      ReplayOnEveryHelperRun(hs, calls, hash, i - 1);
      InvariantOnEveryHelperRun(hs, calls, hash, i - 1);
      HelperStepIsReplayed(hs[i - 1], calls[i - 1], hash, hs[i]);
    }
  }
}
