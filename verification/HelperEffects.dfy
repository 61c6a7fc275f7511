/** What calls on the helper achieve, in terms of what the world answered: room/service.rs on network/backend.rs. */
module HelperEffects {
  import opened BackendSpec
  import opened Bytes
  import opened HelperRuns
  import opened HelperSpec
  import opened Mesh
  import opened RoomTypes
  import opened Text
  import opened Wrappers
  import Credentials
  import EventReplay
  import PlayerRegistry
  import RegistryRuns
  import RoomSpec
  import ScaffoldingProtocol
  import ScaffoldingServer
  import SnapshotMembers

  // ----- Polls -----

  /** The peer sample decides where it carries a round trip, and otherwise the probe. */
  predicate LooksHealthy(env: RefreshEnv) {
    if env.sample.peer.Some? && env.sample.peer.value.roundTrip.Some? then env.sample.peer.value.isHealthy
    else env.sample.probe.Some?
  }

  function RoundTripFound(env: RefreshEnv): Option<nat> {
    if env.sample.peer.Some? && env.sample.peer.value.roundTrip.Some? then env.sample.peer.value.roundTrip
    else env.sample.probe
  }

  /** Without a peer sample the mode is the preferred one that is allowed, if anything was reached at all. */
  predicate HasPreferredMode(session: ActiveSession, env: RefreshEnv, mode: ConnectionMode) {
    && (mode == Direct <==> env.sample.probe.Some? && session.preferDirect)
    && (mode == Relay <==> env.sample.probe.Some? && !session.preferDirect && session.allowRelay)
  }

  /** What a diagnosis falls back to is sampled in the same way. */
  lemma RefreshesFollowTheProbe(b: Backend, env: RefreshEnv)
    requires b.session.Some?
    ensures Refreshed(b, env).network.Some?
    ensures var network := Refreshed(b, env).network.value;
      && (network.isHealthy <==> LooksHealthy(env)) && network.roundTrip == RoundTripFound(env)
      && (env.sample.peer.None? ==> HasPreferredMode(b.session.value, env, network.mode))
      && Diagnosed(b, env) == Success(network)
  {
  }

  /** After a poll in a room the service is connected exactly when the network looked healthy, else reconnecting. */
  lemma PollsFollowTheProbe(hs: seq<Helper>, calls: seq<Call>, hash: Hash, i: nat)
    requires IsHelperRun(hs, calls, hash) && i < |calls| && calls[i].PollCall?
    requires RoomSpec.IsActive(hs[i].service.state.state)
    ensures hs[i + 1].service.state.state == if LooksHealthy(calls[i].polling) then Connected else Reconnecting
    ensures hs[i + 1].service.state.network.Some? && hs[i].backend.session.Some?
    ensures var env, network := calls[i].polling, hs[i + 1].service.state.network.value;
      && network.roundTrip == RoundTripFound(env)
      && (env.sample.peer.None? ==> HasPreferredMode(hs[i].backend.session.value, env, network.mode))
  {
    InvariantOnEveryHelperRun(hs, calls, hash, i);
    assert HelperStep(hs[i], calls[i], hash, hs[i + 1]);
    RefreshesFollowTheProbe(hs[i].backend, calls[i].polling);
  }

  /** A poll of a joined room makes the snapshot list the players of the heartbeat, or leaves it without one. */
  lemma MemberSnapshotsListTheHeartbeat(hs: seq<Helper>, calls: seq<Call>, hash: Hash, i: nat)
    requires IsHelperRun(hs, calls, hash) && i < |calls| && calls[i].PollCall?
    requires hs[i].backend.session.Some? && hs[i].backend.session.value.MemberSession?
    ensures var before, after, heartbeat := hs[i].service, hs[i + 1].service, calls[i].polling.heartbeat;
      && after.state.localAddress == Some(Endpoint(true, hs[i].backend.session.value.localMinecraft))
      && if heartbeat.None? then after.state.members == before.state.members && after.known == before.known
         else
           && |after.state.members| == |heartbeat.value.players|
           && SnapshotMembers.ListsKnown(after)
           && forall k :: 0 <= k < |after.state.members| ==>
                after.state.members[k].id == heartbeat.value.players[k].machineId
  {
    InvariantOnEveryHelperRun(hs, calls, hash, i);
    assert HelperStep(hs[i], calls[i], hash, hs[i + 1]);
    SnapshotMembers.PollsRelist(
      hs[i].service, Success(Refreshed(hs[i].backend, calls[i].polling)), hs[i + 1].service);
  }

  /** The list names exactly the registered players, each once and by the name it registered, the host first. */
  ghost predicate ShowsThePlayers(members: seq<RoomMember>, r: PlayerRegistry.Registry) {
    && EventReplay.NamesMembersOnce(members)
    && members != [] && members[0].id == r.hostMachineId && members[0].mode == Direct
    && (forall m :: m in members ==> m.id in r.players && m.displayName == r.players[m.id].profile.name)
    && forall id :: id in r.players ==> exists m :: m in members && m.id == id
  }

  lemma HostRefreshesShowThePlayers(b: Backend, env: RefreshEnv, hash: Hash)
    requires BackendInvariant(b, hash) && IsHost(b.session)
    ensures b.registry.Some? && Refreshed(b, env).members.Some?
    ensures ShowsThePlayers(Refreshed(b, env).members.value, b.registry.value)
  {
    var r := b.registry.value;
    var ps := PlayerRegistry.Listing(r);
    var members := Refreshed(b, env).members.value;
    PlayerRegistry.ListingLists(r);
    PlayerRegistry.ListingShape(r, ps);
    HostListsNamePlayersOnce(b, env, hash);
    forall m | m in members
      ensures m.id in r.players && m.displayName == r.players[m.id].profile.name
    {
      var k :| 0 <= k < |members| && members[k] == m;
      assert ps[k] in ps;
    }
    forall id | id in r.players
      ensures exists m :: m in members && m.id == id
    {
      var k :| 0 <= k < |ps| && ps[k] == r.players[id].profile;
      assert members[k] in members;
    }
  }

  /** A poll of a hosted room makes the snapshot list exactly the players that the host's server then knows. */
  lemma HostSnapshotsListThePlayers(hs: seq<Helper>, calls: seq<Call>, hash: Hash, i: nat)
    requires IsHelperRun(hs, calls, hash) && i < |calls| && calls[i].PollCall?
    requires IsHost(hs[i].backend.session)
    ensures hs[i].backend.registry.Some?
    ensures ShowsThePlayers(hs[i + 1].service.state.members, hs[i].backend.registry.value)
    ensures SnapshotMembers.ListsKnown(hs[i + 1].service)
  {
    InvariantOnEveryHelperRun(hs, calls, hash, i);
    HostRefreshesShowThePlayers(hs[i].backend, calls[i].polling, hash);
    assert HelperStep(hs[i], calls[i], hash, hs[i + 1]);
    SnapshotMembers.PollsRelist(
      hs[i].service, Success(Refreshed(hs[i].backend, calls[i].polling)), hs[i + 1].service);
  }

  /** A guest whose ping the running server takes is among the members from the next poll on, under its name. */
  lemma PingedGuestsAreListed(
      hs: seq<Helper>, calls: seq<Call>, hash: Hash, i: nat, guest: PlayerRegistry.PlayerProfile, at: nat)
    requires IsHelperRun(hs, calls, hash) && i + 1 < |calls|
    requires calls[i] == GuestCall(RegistryRuns.Ping(guest, at)) && calls[i + 1].PollCall?
    requires IsHost(hs[i].backend.session) && hs[i].backend.registry.Some?
    requires hs[i].backend.session.value.scaffoldingTask in hs[i].backend.live
    requires PlayerRegistry.IsValidProfile(guest) && guest.machineId != hs[i].backend.registry.value.hostMachineId
    ensures exists m :: m in hs[i + 2].service.state.members && m.id == guest.machineId && m.displayName == guest.name
  {
    var h, pinged := hs[i], hs[i + 1];
    assert HelperStep(h, calls[i], hash, pinged);
    HostSnapshotsListThePlayers(hs, calls, hash, i + 1);
    var players := pinged.backend.registry.value.players;
    assert guest.machineId in players && players[guest.machineId].profile.name == guest.name;
  }

  // ----- Creating -----

  /** All it takes to host a room, the request being in order. */
  predicate CanHost(b: Backend, env: CreateWorld) {
    && b.identity.Some? && IsValidMachineId(b.identity.value)
    && env.binaryFound && env.material.Some? && env.easytier.Success?
    && env.serverBinds && env.addressRead && env.scaffoldingIngressBinds && env.minecraftIngressBinds
    && env.published.Success?
  }

  /** What counts is the trimmed text: something, of at most 128 bytes, without control characters. */
  predicate IsSessionId(value: string) {
    Trim(value) != "" && Utf8Length(Trim(value)) <= 128 && forall c :: c in Trim(value) ==> !IsControl(c)
  }

  lemma SessionIdsAreCheckedExactly(value: string)
    ensures RoomSpec.ValidateSessionId(value) == if IsSessionId(value) then Some(Trim(value)) else None
  {
  }

  predicate IsCreateInOrder(request: CreateRoomRequest) {
    IsSessionId(request.gameSessionId) && IsLoopbackEndpoint(request.lanAddress)
  }

  lemma HostsExactly(b: Backend, request: CreateRoomRequest, env: CreateWorld, hash: Hash)
    requires b.session.None? && b.live == {} && IsLoopbackEndpoint(request.lanAddress)
    ensures CreateRefusal(b, request, env).None?
            && HostFailure(b, env, FromRoomCode(GeneratedCode(env), hash)).None?
            <==> CanHost(b, env)
  {
    if env.material.Some? {
      PortsAreDistinctAndInRange(GeneratedCode(env), hash);
    }
  }

  /** The room is entered exactly when all of it works out; anything less faults it; a wrong request does nothing. */
  lemma RoomsAreCreatedExactly(hs: seq<Helper>, calls: seq<Call>, hash: Hash, i: nat)
    requires IsHelperRun(hs, calls, hash) && i < |calls| && calls[i].CreateCall?
    requires hs[i].service.state.state == Idle
    ensures var request, b, s' := calls[i].create, hs[i].backend, hs[i + 1].service.state;
      s'.state == if !IsCreateInOrder(request) then Idle
                  else if CanHost(b, calls[i].creating) then Connected else Faulted
  {
    InvariantOnEveryHelperRun(hs, calls, hash, i);
    InvariantOnEveryHelperRun(hs, calls, hash, i + 1);
    var h, call, h' := hs[i], calls[i], hs[i + 1];
    assert HelperStep(h, call, hash, h');
    SessionIdsAreCheckedExactly(call.create.gameSessionId);
    if IsCreateInOrder(call.create) {
      var checked := RoomSpec.CheckedCreate(call.create).value;
      CreationIsExact(h.backend, checked, call.creating, hash, h'.backend, call.created);
      CreationKeepsBackend(h.backend, checked, call.creating, hash, h'.backend, call.created);
    }
  }

  lemma CreationIsExact(
      b: Backend, request: CreateRoomRequest, env: CreateWorld, hash: Hash, b': Backend,
      r: Result<BackendRoom, RoomError>)
    requires b.session.None? && b.live == {} && IsLoopbackEndpoint(request.lanAddress)
    requires Created(b, request, env, hash, b', r)
    ensures b'.session.Some? <==> CanHost(b, env)
  {
    HostsExactly(b, request, env, hash);
  }

  /** A created room is the one asked for: its session, port and preferences, a fresh code, and only the host in it. */
  lemma CreatedRoomsAreAsAsked(hs: seq<Helper>, calls: seq<Call>, hash: Hash, i: nat)
    requires IsHelperRun(hs, calls, hash) && i < |calls| && calls[i].CreateCall?
    requires hs[i].service.state.state == Idle && hs[i + 1].service.state.state == Connected
    ensures calls[i].create.lanAddress.Endpoint? && calls[i].creating.material.Some? && hs[i].backend.identity.Some?
    ensures var request, s', session := calls[i].create, hs[i + 1].service.state, hs[i + 1].backend.session;
      && s'.role == HostRole && s'.gameSessionId == Some(Trim(request.gameSessionId))
      && s'.roomCode == Some(GeneratedCode(calls[i].creating))
      && |s'.members| == 1 && s'.members[0].id == hs[i].backend.identity.value && s'.members[0].mode == Direct
      && s'.network.Some? && s'.network.value.isHealthy && s'.localAddress.None?
      && IsHost(session) && session.value.minecraft == request.lanAddress.port
      && session.value.preferDirect == request.preferDirect && session.value.allowRelay == request.allowRelay
  {
    InvariantOnEveryHelperRun(hs, calls, hash, i);
    var h, call, h' := hs[i], calls[i], hs[i + 1];
    assert HelperStep(h, call, hash, h');
    CreatedStepIsAsAsked(h, call.create, call.creating, call.created, hash, h');
  }

  lemma CreatedStepIsAsAsked(
      h: Helper, request: CreateRoomRequest, env: CreateWorld, answer: Result<BackendRoom, RoomError>, hash: Hash,
      h': Helper)
    requires HelperInvariant(h, hash) && CreateStep(h, request, env, answer, hash, h')
    requires h.service.state.state == Idle && h'.service.state.state == Connected
    ensures request.lanAddress.Endpoint? && env.material.Some? && h.backend.identity.Some?
    ensures var s', session := h'.service.state, h'.backend.session;
      && s'.role == HostRole && s'.gameSessionId == Some(Trim(request.gameSessionId))
      && s'.roomCode == Some(GeneratedCode(env))
      && |s'.members| == 1 && s'.members[0].id == h.backend.identity.value && s'.members[0].mode == Direct
      && s'.network.Some? && s'.network.value.isHealthy && s'.localAddress.None?
      && IsHost(session) && session.value.minecraft == request.lanAddress.port
      && session.value.preferDirect == request.preferDirect && session.value.allowRelay == request.allowRelay
  {
    SessionIdsAreCheckedExactly(request.gameSessionId);
    var checked := RoomSpec.CheckedCreate(request).value;
    CreationKeepsBackend(h.backend, checked, env, hash, h'.backend, answer);
    CreatedRoomIsValid(h.backend.identity.value, checked, env);
  }

  /** The code is that of the first check that fails. */
  ghost predicate NamesFirstFailure(checks: seq<(bool, ErrorCode)>, code: ErrorCode) {
    exists k :: 0 <= k < |checks| && !checks[k].0 && checks[k].1 == code && forall j :: 0 <= j < k ==> checks[j].0
  }

  function CodeOf<T>(result: Result<T, RoomError>): ErrorCode {
    if result.Failure? then result.error.code else OtherError
  }

  /** The steps of a creation in their order. */
  function CreateChecks(b: Backend, env: CreateWorld): seq<(bool, ErrorCode)> {
    [
      (b.identity.Some?, IdentityNotInitialized),
      (env.binaryFound, EasyTierMissing),
      (env.material.Some?, EntropyUnavailable),
      (env.easytier.Success?, CodeOf(env.easytier)),
      (b.identity.Some? && IsValidMachineId(b.identity.value), ScaffoldingFailed),
      (env.serverBinds && env.addressRead, ScaffoldingFailed),
      (env.scaffoldingIngressBinds && env.minecraftIngressBinds, MeshIngressFailed),
      (env.published.Success?, CodeOf(env.published))
    ]
  }

  lemma RefusedCreationsNameFirstFailure(b: Backend, request: CreateRoomRequest, env: CreateWorld, error: RoomError)
    requires b.session.None? && IsLoopbackEndpoint(request.lanAddress)
    requires CreateRefusal(b, request, env) == Some(error)
    ensures NamesFirstFailure(CreateChecks(b, env), error.code)
  {
    var checks := CreateChecks(b, env);
    var k := if !checks[0].0 then 0 else if !checks[1].0 then 1 else 2;
    assert !checks[k].0 && checks[k].1 == error.code;
  }

  lemma FailedHostsNameFirstFailure(
      b: Backend, request: CreateRoomRequest, env: CreateWorld, hash: Hash, error: RoomError)
    requires b.live == {} && CreateRefusal(b, request, env).None?
    requires HostFailure(b, env, FromRoomCode(GeneratedCode(env), hash)) == Some(error)
    ensures NamesFirstFailure(CreateChecks(b, env), error.code)
  {
    var checks := CreateChecks(b, env);
    PortsAreDistinctAndInRange(GeneratedCode(env), hash);
    var k :=
      if !checks[3].0 then 3 else if !checks[4].0 then 4 else if !checks[5].0 then 5 else if !checks[6].0 then 6 else 7;
    assert !checks[k].0 && checks[k].1 == error.code;
  }

  /** A room that faults while it is created shows the error of the first step that failed. */
  lemma FaultedCreationsNameTheFailure(hs: seq<Helper>, calls: seq<Call>, hash: Hash, i: nat)
    requires IsHelperRun(hs, calls, hash) && i < |calls| && calls[i].CreateCall?
    requires hs[i].service.state.state == Idle && hs[i + 1].service.state.state == Faulted
    ensures hs[i + 1].service.state.errorCode.Some?
    ensures NamesFirstFailure(CreateChecks(hs[i].backend, calls[i].creating), hs[i + 1].service.state.errorCode.value)
  {
    InvariantOnEveryHelperRun(hs, calls, hash, i);
    var h, call, h' := hs[i], calls[i], hs[i + 1];
    assert HelperStep(h, call, hash, h');
    FaultedCreationNamesTheFailure(h, call.create, call.creating, call.created, hash, h');
  }

  lemma FaultedCreationNamesTheFailure(
      h: Helper, request: CreateRoomRequest, env: CreateWorld, answer: Result<BackendRoom, RoomError>, hash: Hash,
      h': Helper)
    requires HelperInvariant(h, hash) && CreateStep(h, request, env, answer, hash, h')
    requires h.service.state.state == Idle && h'.service.state.state == Faulted
    ensures h'.service.state.errorCode.Some?
    ensures NamesFirstFailure(CreateChecks(h.backend, env), h'.service.state.errorCode.value)
  {
    var checked := RoomSpec.CheckedCreate(request).value;
    CreationKeepsBackend(h.backend, checked, env, hash, h'.backend, answer);
    if answer.Success? {
      CreatedRoomIsValid(h.backend.identity.value, checked, env);
    }
    if CreateRefusal(h.backend, checked, env).Some? {
      RefusedCreationsNameFirstFailure(h.backend, checked, env, answer.error);
    } else {
      FailedHostsNameFirstFailure(h.backend, checked, env, hash, answer.error);
    }
  }

  // ----- Joining -----

  /** The first lookup that gives anything decides. */
  lemma {:induction false} FirstLookupDecides(
      lookup: nat -> Result<Option<Advertisement>, RoomError>, from: nat, attempts: nat)
    ensures var found := Discovered(lookup, from, attempts);
      || (found == Success(None) && forall j: nat :: from <= j < from + attempts ==> lookup(j) == Success(None))
      || (found != Success(None)
          && exists k: nat :: from <= k < from + attempts && lookup(k) == found
               && forall j: nat :: from <= j < k ==> lookup(j) == Success(None))
    decreases attempts
  {
    if attempts > 0 && lookup(from) == Success(None) {
      FirstLookupDecides(lookup, from + 1, attempts - 1);
      var found := Discovered(lookup, from + 1, attempts - 1);
      if found != Success(None) {
        var k: nat :| from + 1 <= k < from + attempts && lookup(k) == found
          && forall j: nat :: from + 1 <= j < k ==> lookup(j) == Success(None);
        assert forall j: nat :: from <= j < k ==> lookup(j) == Success(None);
      }
    }
  }

  /** Lookup `k` is the first of the eight that does not come back with nothing. */
  ghost predicate IsFirstAnswer(env: JoinEnv, k: nat) {
    k < 8 && env.discovery(k) != Success(None) && forall j: nat :: j < k ==> env.discovery(j) == Success(None)
  }

  /** It names two loopback endpoints, and both can be forwarded to. */
  predicate LeadsToNeighbour(env: JoinEnv, k: nat) {
    && env.discovery(k).Success? && env.discovery(k).value.Some?
    && var ad := env.discovery(k).value.value;
    && IsLoopbackEndpoint(ad.scaffolding) && IsLoopbackEndpoint(ad.minecraft)
    && env.scaffoldingForwardBinds && env.minecraftForwardBinds
  }

  /** The host is on this machine, or one of forty connections over the mesh gets through. */
  ghost predicate ReachesHost(env: JoinEnv) {
    if exists k: nat :: IsFirstAnswer(env, k) then exists k: nat :: IsFirstAnswer(env, k) && LeadsToNeighbour(env, k)
    else exists k: nat :: k < 40 && env.connects(k)
  }

  lemma JoinFailsExactly(b: Backend, request: JoinRoomRequest, env: JoinEnv)
    requires b.session.None? && Credentials.NormalizeRoomCode(request.roomCode).Some?
    ensures JoinFailure(b, request, env).None?
       <==> b.identity.Some? && env.binaryFound && env.easytier.Success? && ReachesHost(env)
  {
    FirstLookupDecides(env.discovery, 0, 8);
    var found := DiscoveredLocally(env);
    if found != Success(None) {
      var k: nat :| k < 8 && env.discovery(k) == found && forall j: nat :: j < k ==> env.discovery(j) == Success(None);
      assert IsFirstAnswer(env, k);
      assert forall j: nat :: IsFirstAnswer(env, j) ==> j == k;
    } else {
      assert forall j: nat :: !IsFirstAnswer(env, j);
    }
  }

  predicate IsJoinInOrder(request: JoinRoomRequest) {
    && Credentials.NormalizeRoomCode(request.roomCode).Some?
    && (request.gameSessionId.Some? ==> IsSessionId(request.gameSessionId.value))
  }

  lemma JoinsAreCheckedExactly(request: JoinRoomRequest)
    ensures RoomSpec.CheckedJoin(request).Success? <==> IsJoinInOrder(request)
    ensures IsJoinInOrder(request) ==>
              Some(RoomSpec.CheckedJoin(request).value.roomCode) == Credentials.NormalizeRoomCode(request.roomCode)
  {
    RoomSpec.NormalisersAgree(request.roomCode);
    if request.gameSessionId.Some? {
      SessionIdsAreCheckedExactly(request.gameSessionId.value);
    }
  }

  /** A room is joined exactly when its host is reached; failing that it faults, and a wrong request does nothing. */
  lemma RoomsAreJoinedExactly(hs: seq<Helper>, calls: seq<Call>, hash: Hash, i: nat)
    requires IsHelperRun(hs, calls, hash) && i < |calls| && calls[i].JoinCall?
    requires hs[i].service.state.state == Idle
    ensures var request, b, env := calls[i].join, hs[i].backend, calls[i].joining;
      hs[i + 1].service.state.state
      == if !IsJoinInOrder(request) then Idle
         else if b.identity.Some? && env.binaryFound && env.easytier.Success? && ReachesHost(env) then Connected
         else Faulted
  {
    InvariantOnEveryHelperRun(hs, calls, hash, i);
    InvariantOnEveryHelperRun(hs, calls, hash, i + 1);
    var h, call, h' := hs[i], calls[i], hs[i + 1];
    assert HelperStep(h, call, hash, h');
    JoinsAreCheckedExactly(call.join);
    if IsJoinInOrder(call.join) {
      JoinedStepIsExact(h, call.join, call.joining, call.joined, hash, h');
    }
  }

  lemma JoinedStepIsExact(
      h: Helper, request: JoinRoomRequest, env: JoinEnv, answer: Result<BackendRoom, RoomError>, hash: Hash,
      h': Helper)
    requires HelperInvariant(h, hash) && JoinStep(h, request, env, answer, hash, h')
    requires h.service.state.state == Idle && RoomSpec.CheckedJoin(request).Success?
    ensures h'.service.state.state
         == if h.backend.identity.Some? && env.binaryFound && env.easytier.Success? && ReachesHost(env)
            then Connected else Faulted
  {
    var checked := RoomSpec.CheckedJoin(request).value;
    JoinsAreCheckedExactly(request);
    Credentials.NormalFormsAreTheFixedPoints(request.roomCode);
    JoinFailsExactly(h.backend, checked, env);
    JoiningKeepsBackend(h.backend, checked, env, hash, h'.backend, answer);
  }

  /** The list names the players of the heartbeat in its order, or, without one, just the joining machine. */
  predicate ListsThePlayers(members: seq<RoomMember>, heartbeat: Option<Heartbeat>, machineId: string) {
    match heartbeat
    case None => |members| == 1 && members[0].id == machineId
    case Some(h) =>
      && |members| == |h.players|
      && forall i :: 0 <= i < |members| ==>
           members[i].id == h.players[i].machineId && members[i].displayName == h.players[i].name
  }

  /** The address shown is the port on which this machine really reaches the game. */
  lemma JoinedRoomsAreReached(hs: seq<Helper>, calls: seq<Call>, hash: Hash, i: nat)
    requires IsHelperRun(hs, calls, hash) && i < |calls| && calls[i].JoinCall?
    requires hs[i].service.state.state == Idle && hs[i + 1].service.state.state == Connected
    ensures IsJoinInOrder(calls[i].join) && hs[i].backend.identity.Some?
    ensures var request, env, s' := calls[i].join, calls[i].joining, hs[i + 1].service.state;
      && s'.role == MemberRole && s'.roomCode == Credentials.NormalizeRoomCode(request.roomCode)
      && s'.gameSessionId == (if request.gameSessionId.Some? then Some(Trim(request.gameSessionId.value)) else None)
      && ListsThePlayers(s'.members, env.heartbeat, hs[i].backend.identity.value)
      && s'.localAddress
         == Some(Endpoint(
              true,
              if exists k: nat :: IsFirstAnswer(env, k) then env.forwardPort
              else FromRoomCode(s'.roomCode.value, hash).memberLocalMinecraftPort))
  {
    InvariantOnEveryHelperRun(hs, calls, hash, i);
    var h, call, h' := hs[i], calls[i], hs[i + 1];
    assert HelperStep(h, call, hash, h');
    JoinsAreCheckedExactly(call.join);
    JoinedStepIsReached(h, call.join, call.joining, call.joined, hash, h');
  }

  lemma JoinedStepIsReached(
      h: Helper, request: JoinRoomRequest, env: JoinEnv, answer: Result<BackendRoom, RoomError>, hash: Hash,
      h': Helper)
    requires HelperInvariant(h, hash) && JoinStep(h, request, env, answer, hash, h')
    requires h.service.state.state == Idle && h'.service.state.state == Connected
    ensures RoomSpec.CheckedJoin(request).Success? && h.backend.identity.Some?
    ensures var s' := h'.service.state;
      && s'.role == MemberRole && s'.roomCode == Some(RoomSpec.CheckedJoin(request).value.roomCode)
      && s'.gameSessionId == (if request.gameSessionId.Some? then Some(Trim(request.gameSessionId.value)) else None)
      && ListsThePlayers(s'.members, env.heartbeat, h.backend.identity.value)
      && s'.localAddress
         == Some(Endpoint(
              true,
              if exists k: nat :: IsFirstAnswer(env, k) then env.forwardPort
              else FromRoomCode(s'.roomCode.value, hash).memberLocalMinecraftPort))
  {
    var checked := RoomSpec.CheckedJoin(request).value;
    JoinsAreCheckedExactly(request);
    Credentials.NormalFormsAreTheFixedPoints(request.roomCode);
    JoiningKeepsBackend(h.backend, checked, env, hash, h'.backend, answer);
    if answer.Success? {
      JoinedRoomIsReached(h.backend, checked, env, hash, h'.backend, answer.value);
    }
  }

  lemma JoinedRoomIsReached(
      b: Backend, request: JoinRoomRequest, env: JoinEnv, hash: Hash, b': Backend, room: BackendRoom)
    requires Joined(b, request, env, hash, b', Success(room))
    ensures b.identity.Some? && Some(room.roomCode) == Credentials.NormalizeRoomCode(request.roomCode)
    ensures ListsThePlayers(room.members, env.heartbeat, b.identity.value)
    ensures room.localAddress
         == Some(Endpoint(
              true,
              if exists k: nat :: IsFirstAnswer(env, k) then env.forwardPort
              else FromRoomCode(room.roomCode, hash).memberLocalMinecraftPort))
  {
    JoinPathIsTheFirstAnswer(env);
  }

  lemma JoinPathIsTheFirstAnswer(env: JoinEnv)
    ensures DiscoveredLocally(env) == Success(None) <==> !exists k: nat :: IsFirstAnswer(env, k)
  {
    FirstLookupDecides(env.discovery, 0, 8);
    if DiscoveredLocally(env) != Success(None) {
      var k: nat :| k < 8 && env.discovery(k) == DiscoveredLocally(env)
        && forall j: nat :: j < k ==> env.discovery(j) == Success(None);
      assert IsFirstAnswer(env, k);
    }
  }

  /** The steps of a join in their order, once its code is in order. */
  function JoinChecks(b: Backend, env: JoinEnv): seq<(bool, ErrorCode)> {
    var found := DiscoveredLocally(env);
    var isLocal := found.Success? && found.value.Some?;
    [
      (b.identity.Some?, IdentityNotInitialized),
      (env.binaryFound, EasyTierMissing),
      (found.Success?, CodeOf(found)),
      (env.easytier.Success?, CodeOf(env.easytier)),
      (isLocal ==> IsLoopbackEndpoint(found.value.value.scaffolding), DiscoveryInvalid),
      (isLocal ==> IsLoopbackEndpoint(found.value.value.minecraft), DiscoveryInvalid),
      (isLocal ==> env.scaffoldingForwardBinds && env.minecraftForwardBinds, ForwardFailed),
      (isLocal || IsReachable(env), PeerUnreachable)
    ]
  }

  lemma JoinsNameFirstFailure(b: Backend, request: JoinRoomRequest, env: JoinEnv, error: RoomError)
    requires b.session.None? && Credentials.NormalizeRoomCode(request.roomCode).Some?
    requires JoinFailure(b, request, env) == Some(error)
    ensures NamesFirstFailure(JoinChecks(b, env), error.code)
  {
    var checks := JoinChecks(b, env);
    var k :=
      if !checks[0].0 then 0 else if !checks[1].0 then 1 else if !checks[2].0 then 2 else if !checks[3].0 then 3
      else if !checks[4].0 then 4 else if !checks[5].0 then 5 else if !checks[6].0 then 6 else 7;
    assert !checks[k].0 && checks[k].1 == error.code;
  }

  /** A room that faults while it is joined shows the error of the first step that failed. */
  lemma FaultedJoinsNameTheFailure(hs: seq<Helper>, calls: seq<Call>, hash: Hash, i: nat)
    requires IsHelperRun(hs, calls, hash) && i < |calls| && calls[i].JoinCall?
    requires hs[i].service.state.state == Idle && hs[i + 1].service.state.state == Faulted
    ensures hs[i + 1].service.state.errorCode.Some?
    ensures NamesFirstFailure(JoinChecks(hs[i].backend, calls[i].joining), hs[i + 1].service.state.errorCode.value)
  {
    InvariantOnEveryHelperRun(hs, calls, hash, i);
    var h, call, h' := hs[i], calls[i], hs[i + 1];
    assert HelperStep(h, call, hash, h');
    FaultedJoinNamesTheFailure(h, call.join, call.joining, call.joined, hash, h');
  }

  lemma FaultedJoinNamesTheFailure(
      h: Helper, request: JoinRoomRequest, env: JoinEnv, answer: Result<BackendRoom, RoomError>, hash: Hash,
      h': Helper)
    requires HelperInvariant(h, hash) && JoinStep(h, request, env, answer, hash, h')
    requires h.service.state.state == Idle && h'.service.state.state == Faulted
    ensures h'.service.state.errorCode.Some?
    ensures NamesFirstFailure(JoinChecks(h.backend, env), h'.service.state.errorCode.value)
  {
    var checked := RoomSpec.CheckedJoin(request).value;
    JoinsAreCheckedExactly(request);
    Credentials.NormalFormsAreTheFixedPoints(request.roomCode);
    JoiningKeepsBackend(h.backend, checked, env, hash, h'.backend, answer);
    JoinsNameFirstFailure(h.backend, checked, env, answer.error);
  }

  // ----- The LAN port -----

  /** Only a loopback address given to a connected host is acted upon, and it always is. */
  lemma LanChangesAreOfConnectedHosts(hs: seq<Helper>, calls: seq<Call>, hash: Hash, i: nat)
    requires IsHelperRun(hs, calls, hash) && i < |calls| && calls[i].LanCall?
    ensures var state, b' := hs[i].service.state, hs[i + 1].backend;
      if IsLoopbackEndpoint(calls[i].address) && state.state == Connected && state.role == HostRole then
        IsHost(hs[i].backend.session) && hs[i].backend.session.value.scaffoldingTask !in b'.live
      else hs[i + 1] == hs[i]
  {
    InvariantOnEveryHelperRun(hs, calls, hash, i);
    var h, call := hs[i], calls[i];
    LanKeepsInvariant(h, call.address, call.changing, call.changed, call.polling, hash, hs[i + 1]);
  }

  /** The port of the last game that was given to the host: by the creation, or by a change that took effect. */
  function AskedPort(hs: seq<Helper>, calls: seq<Call>, i: nat): Port
    requires i <= |calls| < |hs|
  {
    if i == 0 then 0 else PortAfter(AskedPort(hs, calls, i - 1), hs[i - 1], calls[i - 1], hs[i])
  }

  function PortAfter(port: Port, h: Helper, call: Call, h': Helper): Port {
    match call
    case CreateCall(request, _, _) =>
      if h.backend.session.None? && IsHost(h'.backend.session) && request.lanAddress.Endpoint?
      then request.lanAddress.port else port
    case LanCall(address, _, _, _) =>
      if h'.backend.session != h.backend.session && address.Endpoint? then address.port else port
    case _ => port
  }

  /** The host's session and the registry that its server answers from are for the port. */
  predicate ServesPort(b: Backend, port: Port) {
    IsHost(b.session) ==>
      b.session.value.minecraft == port && b.registry.Some? && b.registry.value.minecraftPort == port
  }

  lemma AskedPortIsServed(hs: seq<Helper>, calls: seq<Call>, hash: Hash, i: nat)
    requires IsHelperRun(hs, calls, hash) && i < |hs|
    ensures ServesPort(hs[i].backend, AskedPort(hs, calls, i))
  {
    forall k, port | 0 <= k < |calls| && ServesPort(hs[k].backend, port)
      ensures ServesPort(hs[k + 1].backend, PortAfter(port, hs[k], calls[k], hs[k + 1]))
    {
      InvariantOnEveryHelperRun(hs, calls, hash, k);
      StepServesPort(hs[k], calls[k], hash, hs[k + 1], port);
    }
    ServedByInduction(hs, calls, i);
  }

  lemma {:induction false} ServedByInduction(hs: seq<Helper>, calls: seq<Call>, i: nat)
    requires |hs| == |calls| + 1 && hs[0] == START && i < |hs|
    requires forall k, port :: 0 <= k < |calls| && ServesPort(hs[k].backend, port) ==>
               ServesPort(hs[k + 1].backend, PortAfter(port, hs[k], calls[k], hs[k + 1]))
    ensures ServesPort(hs[i].backend, AskedPort(hs, calls, i))
  {
    if i > 0 {
      ServedByInduction(hs, calls, i - 1);
      assert ServesPort(hs[i - 1].backend, AskedPort(hs, calls, i - 1));
    }
  }

  lemma StepServesPort(h: Helper, call: Call, hash: Hash, h': Helper, port: Port)
    requires HelperInvariant(h, hash) && HelperStep(h, call, hash, h') && ServesPort(h.backend, port)
    ensures ServesPort(h'.backend, PortAfter(port, h, call, h'))
  {
    if call.CreateCall? {
      CreationServesPort(h, call.create, call.creating, call.created, hash, h');
    } else if call.JoinCall? {
      JoiningServesNobody(h, call.join, call.joining, call.joined, hash, h');
    } else if call.LanCall? {
      LanChangeServesPort(h, call.address, call.changing, call.changed, call.polling, hash, h');
    } else {
      OthersKeepPort(h, call, hash, h', port);
    }
  }

  lemma OthersKeepPort(h: Helper, call: Call, hash: Hash, h': Helper, port: Port)
    requires HelperStep(h, call, hash, h') && ServesPort(h.backend, port)
    requires !call.CreateCall? && !call.JoinCall? && !call.LanCall?
    ensures ServesPort(h'.backend, port)
  {
    if call.GuestCall? {
      RegistryRuns.HappeningsKeepPort(h.backend.registry, call.happening);
    }
  }

  lemma CreationServesPort(
      h: Helper, request: CreateRoomRequest, env: CreateWorld, answer: Result<BackendRoom, RoomError>, hash: Hash,
      h': Helper)
    requires HelperInvariant(h, hash) && CreateStep(h, request, env, answer, hash, h')
    ensures h'.backend.session == h.backend.session ==> h'.backend.registry == h.backend.registry
    ensures h'.backend.session != h.backend.session ==>
              && h.backend.session.None? && IsHost(h'.backend.session)
              && request.lanAddress.Endpoint? && ServesPort(h'.backend, request.lanAddress.port)
  {
  }

  lemma JoiningServesNobody(
      h: Helper, request: JoinRoomRequest, env: JoinEnv, answer: Result<BackendRoom, RoomError>, hash: Hash,
      h': Helper)
    requires HelperInvariant(h, hash) && JoinStep(h, request, env, answer, hash, h')
    ensures (h'.backend.session == h.backend.session && h'.backend.registry == h.backend.registry)
         || !IsHost(h'.backend.session)
  {
  }

  lemma LanChangeServesPort(
      h: Helper, address: AddressText, env: LanEnv, answer: Result<(), RoomError>, polling: RefreshEnv, hash: Hash,
      h': Helper)
    requires HelperInvariant(h, hash) && LanStep(h, address, env, answer, polling, h')
    ensures h'.backend.session == h.backend.session ==> h'.backend.registry == h.backend.registry
    ensures h'.backend.session != h.backend.session ==>
              address.Endpoint? && ServesPort(h'.backend, address.port)
  {
    if RoomSpec.MayChangeLan(h.service, address) {
      ReboundKeepsInvariant(h.backend, address, env, h'.backend, answer, hash);
    }
  }

  /** Whoever asks the host's Scaffolding server for its port is told the one that was last given to the helper. */
  lemma GuestsLearnTheLanPort(
      hs: seq<Helper>, calls: seq<Call>, hash: Hash, i: nat, now: nat, codec: ScaffoldingServer.Codec)
    requires IsHelperRun(hs, calls, hash) && i < |hs| && IsHost(hs[i].backend.session)
    ensures hs[i].backend.registry.Some?
    ensures var request := ScaffoldingProtocol.RequestFrame("c:server_port", []);
      var served := ScaffoldingServer.Serve(hs[i].backend.registry.value, request, now, codec);
      && served.reply.Some? && served.reply.value.status == 0 && |served.reply.value.body| == 2
      && var high: int := served.reply.value.body[0];
      high * 256 + served.reply.value.body[1] == AskedPort(hs, calls, i)
  {
    AskedPortIsServed(hs, calls, hash, i);
    ScaffoldingServer.PortIsServed(hs[i].backend.registry.value, now, codec);
  }
}
