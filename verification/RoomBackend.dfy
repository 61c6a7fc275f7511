/** The production backend, which acquires and gives back processes, tasks and ports: network/backend.rs. */
module RoomBackend {
  import opened BackendSpec
  import opened Bytes
  import opened Mesh
  import opened PlayerRegistry
  import opened Quality
  import opened RoomTypes
  import opened Wrappers
  import opened Text
  import Credentials

  /** What runs on this machine for the helper. A fixed port can be listened on only once at a time. */
  class Machine {
    var live: set<Resource>
    var next: nat

    ghost predicate Valid()
      reads this
    {
      forall r :: r in live ==> r.id < next
    }

    constructor ()
      ensures Valid() && live == {} && next == 0
    {
      live := {};
      next := 0;
    }

    method Start(kind: ResourceKind) returns (r: Resource)
      requires Valid()
      modifies this
      ensures Valid() && r == Resource(kind, old(next), None)
      ensures live == old(live) + {r} && next == old(next) + 1
    {
      r := Resource(kind, next, None);
      live := live + {r};
      next := next + 1;
    }

    /** `PortForward::start_on` a fixed port, which may fail for reasons outside this process too. */
    method Listen(port: Port, available: bool) returns (r: Option<Resource>)
      requires Valid()
      modifies this
      ensures Valid() && next == old(next) + (if r.Some? then 1 else 0)
      ensures r.Some? <==> available && !IsPortTaken(old(live), port)
      ensures r.Some? ==> r.value == Resource(Forward, old(next), Some(port)) && live == old(live) + {r.value}
      ensures r.None? ==> live == old(live)
    {
      if !available || exists l :: l in live && l.port == Some(port) {
        return None;
      }
      r := Some(Resource(Forward, next, Some(port)));
      live := live + {r.value};
      next := next + 1;
    }

    /** Stopping and dropping release alike. */
    method Stop(r: Resource)
      requires Valid()
      modifies this
      ensures Valid() && live == old(live) - {r} && next == old(next)
    {
      live := live - {r};
    }
  }

  /** The bounded lookup of a same-machine advertisement. */
  method TryLocalEndpoint(lookup: nat -> Result<Option<Advertisement>, RoomError>)
    returns (found: Result<Option<Advertisement>, RoomError>)
    ensures found == Discovered(lookup, 0, LOCAL_DISCOVERY_ATTEMPTS)
  {
    for k := 0 to LOCAL_DISCOVERY_ATTEMPTS
      invariant Discovered(lookup, 0, LOCAL_DISCOVERY_ATTEMPTS)
             == Discovered(lookup, k, LOCAL_DISCOVERY_ATTEMPTS - k)
    {
      var advertisement := lookup(k);
      if advertisement.Failure? || advertisement.value.Some? {
        return advertisement;
      }
    }
    return Success(None);
  }

  /** The bounded wait for the mesh forward to accept a connection. */
  method WaitForTcp(connects: nat -> bool) returns (connected: bool)
    ensures connected <==> exists k :: 0 <= k < MESH_PROBE_ATTEMPTS && connects(k)
  {
    for attempt := 0 to MESH_PROBE_ATTEMPTS
      invariant forall k :: 0 <= k < attempt ==> !connects(k)
    {
      if connects(attempt) {
        return true;
      }
    }
    return false;
  }

  /** The registry of this machine as a host. */
  method NewHostContext(machineId: string, minecraft: Port, now: nat) returns (context: ServerContext?)
    ensures context != null <==> minecraft != 0 && IsValidMachineId(machineId)
    ensures context != null ==>
              && fresh(context) && context.Valid()
              && context.Contents() == NewRegistry(HostProfile(machineId), minecraft, now)
  {
    HostProfileIsValid(machineId);
    context := ServerContext.New(HostProfile(machineId), minecraft, now);
  }

  predicate IsPlainText(value: string, maximumLength: nat) {
    && 0 < |value| <= maximumLength && value[0] != ' ' && value[|value| - 1] != ' '
    && forall i :: 0 <= i < |value| ==> ' ' <= value[i] <= '~'
  }

  lemma PlainTextIsValid(value: string, maximumLength: nat)
    requires IsPlainText(value, maximumLength)
    ensures IsValidText(value, maximumLength)
  {
    assert TrimStart(value) == value;
    Utf8LengthOfAscii(value);
  }

  lemma PlainProfileIsValid(p: PlayerProfile)
    requires IsPlainText(p.name, 64) && IsPlainText(p.vendor, 256)
    ensures IsValidProfile(p) <==> IsValidMachineId(p.machineId)
  {
    PlainTextIsValid(p.name, 64);
    PlainTextIsValid(p.vendor, 256);
  }

  lemma HostProfileIsValid(machineId: string)
    ensures IsValidProfile(HostProfile(machineId)) <==> IsValidMachineId(machineId)
  {
    var p := HostProfile(machineId);
    assert p.name == "Host" && p.vendor == "PCL N Terracotta";
    PlainProfileIsValid(p);
  }

  lemma PortlessResourceTakesNoPort(live: set<Resource>, r: Resource)
    requires r.port.None?
    ensures forall p :: IsPortTaken(live + {r}, p) <==> IsPortTaken(live, p)
  {
  }

  lemma AddedAndRemoved(live: set<Resource>, a: Resource, b: Resource, c: Resource, d: Resource)
    ensures live + {a} + {b} + {c, d} == live + {a, b, c, d}
    ensures c !in live + {a, b} && d !in live + {a, b} ==> live + {a} + {b} + {c, d} - {c} - {d} == live + {a} + {b}
  {
  }

  /** A host that was exposed, or given back, has been started as specified. */
  lemma ExposedHostIsStarted(
      b: Backend, request: CreateRoomRequest, env: CreateWorld, code: string, endpoints: MeshEndpoints, b': Backend,
      r: Result<BackendRoom, RoomError>)
    requires b.session.None? && b.identity.Some? && IsLoopbackEndpoint(request.lanAddress)
    requires env.easytier.Success? && env.serverBinds && env.addressRead
    requires IsValidMachineId(b.identity.value)
    requires IsExposed(b, request, env, code, endpoints, b', r)
    ensures HostStarted(b, request, env, code, endpoints, b', r)
  {
  }

  /** What is left of `create` once EasyTier runs: all of the session, or nothing of it. */
  ghost predicate IsExposed(
      b: Backend, request: CreateRoomRequest, env: CreateWorld, code: string, endpoints: MeshEndpoints, b': Backend,
      r: Result<BackendRoom, RoomError>)
    requires b.identity.Some? && request.lanAddress.Endpoint?
  {
    if !CanBindIngresses(b.live, endpoints, env.scaffoldingIngressBinds, env.minecraftIngressBinds)
    then r == Failure(RoomError(MeshIngressFailed, true)) && IsRolledBack(b, b')
    else if env.published.Failure? then r == Failure(env.published.error) && IsRolledBack(b, b')
    else
      var session := Some(CreatedSession(b.next, request, code, endpoints));
      && r == Success(CreatedRoom(b.identity.value, request, code))
      && b' == Backend(
                 b.identity, session,
                 Some(NewRegistry(HostProfile(b.identity.value), request.lanAddress.port, env.now)),
                 b.live + Owned(session), b.next + 4)
  }

  lemma SwappedResources(
      live: set<Resource>, a: Resource, b: Resource, c: Resource, x: Resource, y: Resource, z: Resource)
    requires x !in {b, c} && y !in {b, c} && z !in {b, c}
    ensures live - {a} + {x} + {y, z} - {b} - {c} == live - {a, b, c} + {x, y, z}
  {
  }

  /** What is left of a LAN address change once the old task has stopped. */
  ghost predicate IsSwapped(b: Backend, port: Port, env: LanEnv, b': Backend, r: Result<(), RoomError>)
    requires IsHost(b.session) && b.identity.Some?
  {
    var host := b.session.value;
    var live := b.live - {host.scaffoldingTask};
    if !CanBindIngresses(live, host.endpoints, env.scaffoldingIngressBinds, env.minecraftIngressBinds) then
      && r == Failure(RoomError(MeshIngressFailed, true))
      && b.next <= b'.next && b' == b.(live := live, next := b'.next)
    else
      var session := Rebound(host, b.next, port);
      var stopped := {host.scaffoldingTask, host.scaffoldingIngress, host.minecraftIngress};
      && r == env.published
      && b' == Backend(
                 b.identity, Some(session), Some(NewRegistry(HostProfile(b.identity.value), port, env.now)),
                 b.live - stopped + {session.scaffoldingTask, session.scaffoldingIngress, session.minecraftIngress},
                 b.next + 3)
  }

  lemma SwappedHostIsRebound(
      b: Backend, address: AddressText, env: LanEnv, b': Backend, r: Result<(), RoomError>)
    requires IsHost(b.session) && b.identity.Some? && IsLoopbackEndpoint(address)
    requires env.serverBinds && env.addressRead && IsValidMachineId(b.identity.value)
    requires IsSwapped(b, address.port, env, b', r)
    ensures LanRebound(b, address, env, b', r)
  {
  }

  class EasyTierRoomBackend {
    const hash: Hash
    const machine: Machine
    var identity: Option<string>
    var session: Option<ActiveSession>
    /** The host session's registry, shared with its Scaffolding server. */
    var context: ServerContext?

    ghost function State(): Backend
      reads this, machine, context
    {
      Backend(
        identity,
        session,
        if context != null then Some(context.Contents()) else None,
        machine.live,
        machine.next)
    }

    ghost predicate Valid()
      reads this, machine, context
    {
      && machine.Valid()
      && (forall r :: r in Owned(session) ==> r.id < machine.next)
      && (context != null <==> IsHost(session))
      && (context != null ==> context.Valid())
    }

    constructor (hash: Hash)
      ensures Valid() && State() == BackendSpec.INITIAL && fresh(machine) && context == null && this.hash == hash
    {
      this.hash := hash;
      machine := new Machine();
      identity := None;
      session := None;
      context := null;
    }

    method SetIdentity(machineId: string)
      requires Valid()
      modifies this
      ensures Valid() && context == old(context)
      ensures State() == old(State()).(identity := Some(machineId))
    {
      identity := Some(machineId);
    }

    method Create(request: CreateRoomRequest, env: CreateWorld) returns (result: Result<BackendRoom, RoomError>)
      requires Valid()
      modifies this, machine
      ensures Valid()
      ensures context == old(context) || (context != null && fresh(context))
      ensures Created(old(State()), request, env, hash, State(), result)
    {
      if session.Some? {
        return Failure(RoomError(OperationInProgress, false));
      }
      if identity.None? {
        return Failure(RoomError(IdentityNotInitialized, false));
      }
      if !env.binaryFound {
        return Failure(RoomError(EasyTierMissing, false));
      }
      if !IsLoopbackEndpoint(request.lanAddress) {
        return Failure(RoomError(InvalidRequest, false));
      }
      var minecraft := request.lanAddress.port;
      if env.material.None? {
        return Failure(RoomError(EntropyUnavailable, true));
      }
      var code := Credentials.Generate(env.material.value);
      result := StartHost(request, env, code.value, FromRoomCode(code.value, hash));
    }

    /** The rest of `create`; leaving it early drops what was started. */
    method StartHost(request: CreateRoomRequest, env: CreateWorld, code: string, endpoints: MeshEndpoints)
      returns (result: Result<BackendRoom, RoomError>)
      requires Valid() && session.None? && identity.Some? && IsLoopbackEndpoint(request.lanAddress)
      modifies this, machine
      ensures Valid()
      ensures context == old(context) || (context != null && fresh(context))
      ensures HostStarted(old(State()), request, env, code, endpoints, State(), result)
    {
      if env.easytier.Failure? {
        return Failure(env.easytier.error);
      }
      ghost var live := machine.live;
      var easytier := machine.Start(EasyTierProcess);
      var registry := NewHostContext(identity.value, request.lanAddress.port, env.now);
      if registry == null {
        machine.Stop(easytier);
        assert machine.live == live;
        return Failure(RoomError(ScaffoldingFailed, false));
      }
      if !env.serverBinds || !env.addressRead {
        machine.Stop(easytier);
        assert machine.live == live;
        return Failure(RoomError(ScaffoldingFailed, true));
      }
      result := ExposeHost(request, env, code, endpoints, easytier, registry, old(State()));
      ExposedHostIsStarted(old(State()), request, env, code, endpoints, State(), result);
    }

    /** The Scaffolding task, the ingresses and the advertisement of a host whose EasyTier is running. */
    method ExposeHost(
        request: CreateRoomRequest, env: CreateWorld, code: string, endpoints: MeshEndpoints,
        easytier: Resource, registry: ServerContext, ghost b: Backend)
      returns (result: Result<BackendRoom, RoomError>)
      requires Valid() && session.None? && identity.Some? && IsLoopbackEndpoint(request.lanAddress)
      requires registry.Valid()
            && registry.Contents() == NewRegistry(HostProfile(identity.value), request.lanAddress.port, env.now)
      requires easytier == Resource(EasyTierProcess, b.next, None) && easytier !in b.live
      requires State() == b.(live := b.live + {easytier}, next := b.next + 1)
      modifies this, machine
      ensures Valid() && (context == old(context) || context == registry)
      ensures IsExposed(b, request, env, code, endpoints, State(), result)
    {
      PortlessResourceTakesNoPort(b.live, easytier);
      var task := machine.Start(ScaffoldingTask);
      PortlessResourceTakesNoPort(old(machine.live), task);
      var ingresses := BindIngresses(endpoints, env.scaffoldingIngressBinds, env.minecraftIngressBinds);
      if ingresses.None? {
        GiveBack(easytier, task, b.live);
        return Failure(RoomError(MeshIngressFailed, true));
      }
      result := PublishHost(request, env, code, endpoints, easytier, task, ingresses.value, registry, b);
    }

    /** The advertisement: with it the session is stored, without it everything is given back. */
    method PublishHost(
        request: CreateRoomRequest, env: CreateWorld, code: string, endpoints: MeshEndpoints,
        easytier: Resource, task: Resource, ingresses: (Resource, Resource), registry: ServerContext, ghost b: Backend)
      returns (result: Result<BackendRoom, RoomError>)
      requires Valid() && session.None? && identity.Some? && request.lanAddress.Endpoint? && registry.Valid()
      requires easytier == Resource(EasyTierProcess, b.next, None) && easytier !in b.live
      requires task == Resource(ScaffoldingTask, b.next + 1, None) && task !in b.live
      requires ingresses.0 == Resource(Forward, b.next + 2, Some(endpoints.scaffoldingPort)) && ingresses.0 !in b.live
      requires ingresses.1 == Resource(Forward, b.next + 3, Some(endpoints.minecraftPort)) && ingresses.1 !in b.live
      requires machine.live == b.live + {easytier} + {task} + {ingresses.0, ingresses.1}
      requires machine.next == b.next + 4
      modifies this, machine
      ensures Valid() && identity == old(identity) && machine.next == old(machine.next)
      ensures env.published.Failure? ==>
                && result == Failure(env.published.error)
                && session.None? && context == old(context) && machine.live == b.live
      ensures env.published.Success? ==>
                && result == Success(CreatedRoom(identity.value, request, code)) && context == registry
                && session == Some(CreatedSession(b.next, request, code, endpoints))
                && machine.live == b.live + Owned(session)
    {
      var (scaffoldingIngress, minecraftIngress) := ingresses;
      AddedAndRemoved(b.live, easytier, task, scaffoldingIngress, minecraftIngress);
      if env.published.Failure? {
        machine.Stop(scaffoldingIngress);
        machine.Stop(minecraftIngress);
        GiveBack(easytier, task, b.live);
        return Failure(env.published.error);
      }
      context := registry;
      session := Some(HostSession(
        code, endpoints, easytier, task, request.lanAddress.port, scaffoldingIngress, minecraftIngress,
        request.preferDirect, request.allowRelay));
      return Success(CreatedRoom(identity.value, request, code));
    }

    /** Gives back the Scaffolding task and the EasyTier process. */
    method GiveBack(easytier: Resource, task: Resource, ghost live: set<Resource>)
      requires machine.Valid() && machine.live == live + {easytier} + {task}
      requires easytier !in live && task !in live
      modifies machine
      ensures machine.Valid() && machine.live == live && machine.next == old(machine.next)
    {
      machine.Stop(task);
      machine.Stop(easytier);
    }

    /** The Scaffolding ingress, then the Minecraft ingress; the first is given back if the second fails. */
    method BindIngresses(endpoints: MeshEndpoints, scaffolding: bool, minecraft: bool)
      returns (ingresses: Option<(Resource, Resource)>)
      requires machine.Valid()
      modifies machine
      ensures machine.Valid() && old(machine.next) <= machine.next
      ensures ingresses.Some? <==> CanBindIngresses(old(machine.live), endpoints, scaffolding, minecraft)
      ensures ingresses.None? ==> machine.live == old(machine.live)
      ensures ingresses.Some? ==>
                && ingresses.value.0 == Resource(Forward, old(machine.next), Some(endpoints.scaffoldingPort))
                && ingresses.value.1 == Resource(Forward, old(machine.next) + 1, Some(endpoints.minecraftPort))
                && machine.live == old(machine.live) + {ingresses.value.0, ingresses.value.1}
                && machine.next == old(machine.next) + 2
    {
      ghost var live := machine.live;
      var first := machine.Listen(endpoints.scaffoldingPort, scaffolding);
      if first.None? {
        return None;
      }
      assert first.value.port == Some(endpoints.scaffoldingPort);
      var second := machine.Listen(endpoints.minecraftPort, minecraft);
      if second.None? {
        if minecraft && endpoints.minecraftPort != endpoints.scaffoldingPort {
          var r :| r in machine.live && r.port == Some(endpoints.minecraftPort);
          assert r in live;
        }
        machine.Stop(first.value);
        return None;
      }
      return Some((first.value, second.value));
    }

    method Join(request: JoinRoomRequest, env: JoinEnv) returns (result: Result<BackendRoom, RoomError>)
      requires Valid()
      modifies this, machine
      ensures Valid() && context == old(context)
      ensures Joined(old(State()), request, env, hash, State(), result)
    {
      if session.Some? {
        return Failure(RoomError(OperationInProgress, false));
      }
      if identity.None? {
        return Failure(RoomError(IdentityNotInitialized, false));
      }
      if !env.binaryFound {
        return Failure(RoomError(EasyTierMissing, false));
      }
      var code := Credentials.NormalizeRoomCode(request.roomCode);
      if code.None? {
        return Failure(RoomError(InvalidCode, false));
      }
      var advertisement := TryLocalEndpoint(env.discovery);
      if advertisement.Failure? {
        return Failure(advertisement.error);
      }
      if advertisement.value.Some? {
        result := JoinViaLocalDiscovery(code.value, advertisement.value.value, env);
        return;
      }
      result := JoinViaMesh(code.value, env);
    }

    /** The cross-machine path, over EasyTier's own port forwards. */
    method JoinViaMesh(code: string, env: JoinEnv) returns (result: Result<BackendRoom, RoomError>)
      requires Valid() && session.None? && identity.Some?
      modifies this, machine
      ensures Valid() && context == old(context)
      ensures match MeshJoinFailure(env)
        case Some(error) => result == Failure(error) && IsRolledBack(old(State()), State())
        case None =>
          && result == Success(MeshRoom(old(identity).value, code, env, hash))
          && SessionEntered(old(State()), MeshSession(old(machine.next), code, env, hash), State())
    {
      if env.easytier.Failure? {
        return Failure(env.easytier.error);
      }
      var easytier := machine.Start(EasyTierProcess);
      var reachable := WaitForTcp(env.connects);
      if !reachable {
        machine.Stop(easytier);
        return Failure(RoomError(PeerUnreachable, true));
      }
      var room := MeshRoom(identity.value, code, env, hash);
      var broadcast := StartBroadcast(env.broadcastStarts);
      session := Some(MemberSession(
        easytier, None, None, broadcast, FromRoomCode(code, hash).memberLocalMinecraftPort, true, true));
      return Success(room);
    }

    method JoinViaLocalDiscovery(code: string, advertisement: Advertisement, env: JoinEnv)
      returns (result: Result<BackendRoom, RoomError>)
      requires Valid() && session.None? && identity.Some?
      modifies this, machine
      ensures Valid() && context == old(context)
      ensures match LocalJoinFailure(advertisement, env)
        case Some(error) => result == Failure(error) && IsRolledBack(old(State()), State())
        case None =>
          && result == Success(LocalRoom(old(identity).value, code, env))
          && SessionEntered(old(State()), LocalSession(old(machine.next), env), State())
    {
      if env.easytier.Failure? {
        return Failure(env.easytier.error);
      }
      var easytier := machine.Start(EasyTierProcess);
      if !IsLoopbackEndpoint(advertisement.scaffolding) {
        machine.Stop(easytier);
        return Failure(RoomError(DiscoveryInvalid, false));
      }
      if !IsLoopbackEndpoint(advertisement.minecraft) {
        machine.Stop(easytier);
        return Failure(RoomError(DiscoveryInvalid, false));
      }
      var forwards := StartForwards(env.scaffoldingForwardBinds, env.minecraftForwardBinds);
      if forwards.None? {
        machine.Stop(easytier);
        return Failure(RoomError(ForwardFailed, true));
      }
      var room := LocalRoom(identity.value, code, env);
      EnterLocally(easytier, forwards.value, env, old(machine.live));
      return Success(room);
    }

    method EnterLocally(
        easytier: Resource, forwards: (Resource, Resource), env: JoinEnv, ghost live: set<Resource>)
      requires Valid() && session.None?
      requires easytier == Resource(EasyTierProcess, easytier.id, None)
      requires forwards.0 == Resource(Forward, easytier.id + 1, None)
      requires forwards.1 == Resource(Forward, easytier.id + 2, None)
      requires machine.live == live + {easytier} + {forwards.0, forwards.1} && machine.next == easytier.id + 3
      modifies this, machine
      ensures Valid() && context == old(context) && identity == old(identity)
      ensures session == Some(LocalSession(easytier.id, env)) && machine.live == live + Owned(session)
      ensures machine.next == easytier.id + (if env.broadcastStarts then 4 else 3)
    {
      var (scaffoldingForward, minecraftForward) := forwards;
      var broadcast := StartBroadcast(env.broadcastStarts);
      session := Some(MemberSession(
        easytier, Some(scaffoldingForward), Some(minecraftForward), broadcast, env.forwardPort, true, true));
      assert Owned(session) == {easytier} + {scaffoldingForward, minecraftForward} + Held(broadcast);
    }

    /** The Scaffolding forward, then the Minecraft forward; the first is given back if the second fails. */
    method StartForwards(scaffolding: bool, minecraft: bool) returns (forwards: Option<(Resource, Resource)>)
      requires machine.Valid()
      modifies machine
      ensures machine.Valid() && old(machine.next) <= machine.next
      ensures forwards.Some? <==> scaffolding && minecraft
      ensures forwards.None? ==> machine.live == old(machine.live)
      ensures forwards.Some? ==>
                && forwards.value.0 == Resource(Forward, old(machine.next), None)
                && forwards.value.1 == Resource(Forward, old(machine.next) + 1, None)
                && machine.live == old(machine.live) + {forwards.value.0, forwards.value.1}
                && machine.next == old(machine.next) + 2
    {
      if !scaffolding {
        return None;
      }
      var first := machine.Start(Forward);
      if !minecraft {
        machine.Stop(first);
        return None;
      }
      var second := machine.Start(Forward);
      return Some((first, second));
    }

    /** A broadcast that cannot start is only logged. */
    method StartBroadcast(starts: bool) returns (broadcast: Option<Resource>)
      requires machine.Valid()
      modifies machine
      ensures machine.Valid()
      ensures broadcast == if starts then Some(Resource(Broadcast, old(machine.next), None)) else None
      ensures machine.live == old(machine.live) + Held(broadcast)
      ensures machine.next == old(machine.next) + (if starts then 1 else 0)
    {
      if starts {
        var b := machine.Start(Broadcast);
        return Some(b);
      }
      return None;
    }

    method SetLanAddress(address: AddressText, env: LanEnv) returns (result: Result<(), RoomError>)
      requires Valid()
      modifies this, machine
      ensures Valid()
      ensures context == old(context) || (context != null && fresh(context))
      ensures LanSet(old(State()), address, env, State(), result)
    {
      if session.None? || !session.value.HostSession? {
        return Failure(RoomError(NotHost, false));
      }
      var host := session.value;
      if !IsLoopbackEndpoint(address) {
        return Failure(RoomError(InvalidRequest, false));
      }
      result := RebindLan(host, address, env);
    }

    /** The old task goes first; the new ingresses are bound while the old ones still listen. */
    method RebindLan(host: ActiveSession, address: AddressText, env: LanEnv) returns (result: Result<(), RoomError>)
      requires Valid() && session == Some(host) && host.HostSession? && IsLoopbackEndpoint(address)
      modifies this, machine
      ensures Valid()
      ensures context == old(context) || (context != null && fresh(context))
      ensures LanRebound(old(State()), address, env, State(), result)
    {
      machine.Stop(host.scaffoldingTask);
      if identity.None? {
        return Failure(RoomError(IdentityNotInitialized, false));
      }
      var registry := NewHostContext(identity.value, address.port, env.now);
      if registry == null {
        return Failure(RoomError(ScaffoldingFailed, false));
      }
      if !env.serverBinds || !env.addressRead {
        return Failure(RoomError(ScaffoldingFailed, true));
      }
      result := SwapScaffolding(host, address.port, env, registry, old(State()));
      SwappedHostIsRebound(old(State()), address, env, State(), result);
    }

    method SwapScaffolding(
        host: ActiveSession, port: Port, env: LanEnv, registry: ServerContext, ghost b: Backend)
      returns (result: Result<(), RoomError>)
      requires Valid() && session == Some(host) && host.HostSession? && identity.Some?
      requires registry.Valid() && registry.Contents() == NewRegistry(HostProfile(identity.value), port, env.now)
      requires State() == b.(live := b.live - {host.scaffoldingTask})
      modifies this, machine
      ensures Valid() && (context == old(context) || context == registry)
      ensures IsSwapped(b, port, env, State(), result)
    {
      var task := machine.Start(ScaffoldingTask);
      PortlessResourceTakesNoPort(old(machine.live), task);
      var ingresses := BindIngresses(host.endpoints, env.scaffoldingIngressBinds, env.minecraftIngressBinds);
      if ingresses.None? {
        machine.Stop(task);
        assert machine.live == old(machine.live);
        return Failure(RoomError(MeshIngressFailed, true));
      }
      StoreRebound(host, port, task, ingresses.value, registry);
      SwappedResources(
        b.live, host.scaffoldingTask, host.scaffoldingIngress, host.minecraftIngress,
        task, ingresses.value.0, ingresses.value.1);
      return env.published;
    }

    /** The replacements go in, then the previous ingresses are stopped. */
    method StoreRebound(
        host: ActiveSession, port: Port, task: Resource, ingresses: (Resource, Resource), registry: ServerContext)
      requires machine.Valid() && session == Some(host) && host.HostSession? && registry.Valid()
      requires forall r :: r in Owned(session) + {task, ingresses.0, ingresses.1} ==> r.id < machine.next
      modifies this, machine
      ensures Valid() && context == registry && identity == old(identity)
      ensures session
           == Some(host.(
                scaffoldingTask := task, minecraft := port,
                scaffoldingIngress := ingresses.0, minecraftIngress := ingresses.1))
      ensures machine.live == old(machine.live) - {host.scaffoldingIngress} - {host.minecraftIngress}
      ensures machine.next == old(machine.next)
    {
      var (scaffoldingIngress, minecraftIngress) := ingresses;
      context := registry;
      assert host.easytier in Owned(session);
      session := Some(host.(
        scaffoldingTask := task,
        minecraft := port,
        scaffoldingIngress := scaffoldingIngress,
        minecraftIngress := minecraftIngress));
      machine.Stop(host.scaffoldingIngress);
      machine.Stop(host.minecraftIngress);
    }

    method Refresh(env: RefreshEnv) returns (refresh: BackendRefresh)
      requires Valid()
      ensures refresh == Refreshed(State(), env)
    {
      if session.None? {
        return EMPTY_REFRESH;
      }
      var network := SampleNetwork(env.sample, session.value.preferDirect, session.value.allowRelay);
      if session.value.HostSession? {
        var profiles := context.PlayerProfiles();
        return BackendRefresh(
          Some(network), Some(MembersFromProfiles(profiles, network.roundTrip, network.mode)), None);
      }
      var members := None;
      if env.heartbeat.Some? {
        var h := env.heartbeat.value;
        members := Some(MembersFromProfiles(h.players, Some(ClampMillis(h.latencyMillis)), network.mode));
      }
      return BackendRefresh(Some(network), members, Some(Endpoint(true, session.value.localMinecraft)));
    }

    method Diagnose(env: RefreshEnv) returns (result: Result<NetworkStatus, RoomError>)
      requires Valid()
      ensures result == Diagnosed(State(), env)
    {
      var refresh := Refresh(env);
      if refresh.network.None? {
        return Failure(RoomError(NotConnected, false));
      }
      return Success(refresh.network.value);
    }

    method Leave() returns (result: Result<(), RoomError>)
      requires Valid()
      modifies this, machine
      ensures Valid() && context == null
      ensures result == Success(()) && State() == AfterLeave(old(State()))
    {
      StopSession();
      return Success(());
    }

    method StopSession()
      requires Valid()
      modifies this, machine
      ensures Valid() && context == null
      ensures State() == AfterLeave(old(State()))
    {
      var active := session;
      session := None;
      context := null;
      match active {
        case None =>
        case Some(active) =>
          if active.HostSession? {
            StopHost(active);
          } else {
            StopMember(active);
          }
      }
    }

    method StopHost(host: ActiveSession)
      requires machine.Valid() && host.HostSession?
      modifies machine
      ensures machine.Valid() && machine.live == old(machine.live) - Owned(Some(host))
      ensures machine.next == old(machine.next)
    {
      machine.Stop(host.scaffoldingTask);
      machine.Stop(host.scaffoldingIngress);
      machine.Stop(host.minecraftIngress);
      machine.Stop(host.easytier);
    }

    method StopMember(member: ActiveSession)
      requires machine.Valid() && member.MemberSession?
      modifies machine
      ensures machine.Valid() && machine.live == old(machine.live) - Owned(Some(member))
      ensures machine.next == old(machine.next)
    {
      StopHeld(member.minecraftBroadcast);
      StopHeld(member.scaffoldingForward);
      StopHeld(member.minecraftForward);
      machine.Stop(member.easytier);
    }

    method StopHeld(resource: Option<Resource>)
      requires machine.Valid()
      modifies machine
      ensures machine.Valid() && machine.live == old(machine.live) - Held(resource)
      ensures machine.next == old(machine.next)
    {
      if resource.Some? {
        machine.Stop(resource.value);
      }
    }
  }
}
