/** The room lifecycle on the production backend: room/service.rs, with the events of room/events.rs. */
module RoomService {
  import opened BackendSpec
  import opened HelperSpec
  import opened Mesh
  import opened RoomSpec
  import opened RoomTypes
  import opened Wrappers
  import RoomBackend

  class RoomService {
    const backend: RoomBackend.EasyTierRoomBackend
    var state: RoomSnapshot
    var known: map<string, RoomMember>
    /** Everything published on the event bus. */
    var log: seq<RoomEvent>

    ghost function Contents(): Helper
      reads this, backend, backend.machine, backend.context
    {
      Helper(Service(state, known, log), backend.State())
    }

    ghost predicate Valid()
      reads this, backend, backend.machine, backend.context
    {
      backend.Valid()
    }

    constructor (hash: Hash)
      ensures Valid() && Contents() == START && backend.hash == hash
      ensures fresh(backend) && fresh(backend.machine)
    {
      backend := new RoomBackend.EasyTierRoomBackend(hash);
      state := IDLE;
      known := map[];
      log := [];
    }

    method Publish(e: RoomEvent)
      modifies this
      ensures state == old(state) && known == old(known) && log == old(log) + [e]
    {
      log := log + [e];
    }

    method InitializeIdentity(machineId: string)
      requires Valid()
      modifies backend
      ensures Valid()
      ensures HelperStep(old(Contents()), SetIdentityCall(machineId), backend.hash, Contents())
    {
      backend.SetIdentity(machineId);
    }

    method Status(env: RefreshEnv) returns (snapshot: RoomSnapshot)
      requires Valid()
      modifies this
      ensures Valid() && snapshot == state
      ensures PollStep(old(Contents()), env, Contents())
    {
      PollAndEmit(env);
      return state;
    }

    method PollAndEmit(env: RefreshEnv)
      requires Valid()
      modifies this
      ensures Valid()
      ensures PollStep(old(Contents()), env, Contents())
    {
      var refresh := backend.Refresh(env);
      Absorb(refresh);
    }

    /** Apply and emit a refresh, in a room that is still active. */
    method Absorb(refresh: BackendRefresh)
      modifies this
      ensures Polled(Service(old(state), old(known), old(log)), Success(refresh), Service(state, known, log))
    {
      if !IsActive(state.state) {
        return;
      }
      ghost var before := Service(state, known, log);
      var emitNetwork, emitState := ApplyRefresh(refresh);
      if refresh.members.Some? {
        EmitMembership(refresh.members.value);
      }
      ghost var peers := log[|old(log)|..];
      EmitRest(emitNetwork, emitState, PollTail(before.state, refresh));
      PolledInParts(before, refresh, peers, Service(state, known, log));
    }

    /** What the locked part of a poll has left to publish. */
    method EmitRest(
        emitNetwork: Option<NetworkStatus>, emitState: Option<RoomSnapshot>, ghost tail: seq<RoomEvent>)
      requires tail == (if emitNetwork.Some? then [NetworkUpdated(emitNetwork.value)] else [])
                       + (if emitState.Some? then [StateChanged(emitState.value)] else [])
      modifies this
      ensures state == old(state) && known == old(known) && log == old(log) + tail
    {
      if emitNetwork.Some? {
        Publish(NetworkUpdated(emitNetwork.value));
      }
      if emitState.Some? {
        Publish(StateChanged(emitState.value));
      }
      assert log == old(log) + tail;
    }

    /** The part of a poll that holds the state lock. What to publish is remembered for later. */
    method ApplyRefresh(refresh: BackendRefresh)
      returns (emitNetwork: Option<NetworkStatus>, emitState: Option<RoomSnapshot>)
      modifies this
      ensures known == old(known) && log == old(log)
      ensures IsActive(old(state).state) ==>
                && state == AfterRefresh(old(state), refresh)
                && NetworkNews(old(state), refresh)
                   == (if emitNetwork.Some? then [NetworkUpdated(emitNetwork.value)] else [])
                && StateNews(old(state), refresh)
                   == (if emitState.Some? then [StateChanged(emitState.value)] else [])
    {
      emitNetwork, emitState := None, None;
      if refresh.network.Some? {
        var previous := state.network;
        var network := refresh.network.value;
        state := state.(network := Some(network));
        if previous != Some(network) {
          emitNetwork := Some(network);
        }
        if state.state == Connected || state.state == Reconnecting {
          if !network.isHealthy && state.state == Connected {
            state := state.(state := Reconnecting);
            emitState := Some(state);
          } else if network.isHealthy && state.state == Reconnecting {
            state := state.(state := Connected);
            emitState := Some(state);
          }
        }
      }
      if refresh.localAddress.Some? {
        state := state.(localAddress := refresh.localAddress);
      }
      if refresh.members.Some? {
        state := state.(members := refresh.members.value);
      }
    }

    /** Compares the members with those of the last poll, one by one, and announces the differences. */
    method EmitMembership(members: seq<RoomMember>)
      modifies this
      ensures state == old(state) && known == MapOf(members)
      ensures |old(log)| <= |log| && log[..|old(log)|] == old(log)
      ensures AreDiffEvents(old(known), members, log[|old(log)|..])
    {
      var next := EmitArrivals(members);
      EmitDepartures(next);
      known := next;
      ghost var arrivals := Arrivals(old(known), members);
      assert log[|old(log)|..][..|arrivals|] == arrivals;
      assert log[|old(log)|..][|arrivals|..] == log[|old(log)| + |arrivals|..];
    }

    method EmitArrivals(members: seq<RoomMember>) returns (next: map<string, RoomMember>)
      modifies this
      ensures state == old(state) && known == old(known)
      ensures next == MapOf(members) && log == old(log) + Arrivals(known, members)
    {
      next := map[];
      for i := 0 to |members|
        invariant state == old(state) && known == old(known)
        invariant next == MapOf(members[..i])
        invariant log == old(log) + Arrivals(known, members[..i])
      {
        var member := members[i];
        MembersSnoc(known, members, i);
        next := next[member.id := member];
        if member.id !in known {
          Publish(PeerJoined(member));
        } else if known[member.id] != member {
          Publish(PeerUpdated(member));
        }
      }
      assert members[..|members|] == members;
    }

    /** The hash map yields the departed in no particular order. */
    method EmitDepartures(next: map<string, RoomMember>)
      modifies this
      ensures state == old(state) && known == old(known)
      ensures |old(log)| <= |log| && log[..|old(log)|] == old(log)
      ensures AreDepartures(log[|old(log)|..], known.Keys - next.Keys)
    {
      ghost var departures: seq<RoomEvent> := [];
      var remaining := known.Keys;
      while remaining != {}
        invariant state == old(state) && known == old(known) && remaining <= known.Keys
        invariant log == old(log) + departures
        invariant AreDepartures(departures, (known.Keys - remaining) - next.Keys)
      {
        var id :| id in remaining;
        if id !in next {
          DeparturesExtend(departures, (known.Keys - remaining) - next.Keys, id);
          Publish(PeerLeft(id));
          departures := departures + [PeerLeft(id)];
        }
        remaining := remaining - {id};
        assert (known.Keys - remaining) - next.Keys
            == (known.Keys - (remaining + {id})) - next.Keys + if id in next then {} else {id};
      }
      assert log[|old(log)|..] == departures;
    }

    method Create(request: CreateRoomRequest, env: CreateWorld)
      returns (result: Result<RoomSnapshot, RoomError>, ghost answer: Result<BackendRoom, RoomError>)
      requires Valid()
      modifies this, backend, backend.machine
      ensures Valid()
      ensures CreateStep(old(Contents()), request, env, answer, backend.hash, Contents())
      ensures result == AfterCreate(old(Contents().service), request, answer).1
    {
      answer := Failure(BUSY);
      var checked := CheckedCreate(request);
      if checked.Failure? {
        return Failure(checked.error), answer;
      }
      if state.state != Idle {
        return Failure(BUSY), answer;
      }
      var id := Some(checked.value.gameSessionId);
      state := Pending(Creating, HostRole, id);
      var created := backend.Create(checked.value, env);
      answer := created;
      result := Enter(HostRole, id, created, old(Contents().service));
    }

    method Join(request: JoinRoomRequest, env: JoinEnv)
      returns (result: Result<RoomSnapshot, RoomError>, ghost answer: Result<BackendRoom, RoomError>)
      requires Valid()
      modifies this, backend, backend.machine
      ensures Valid()
      ensures JoinStep(old(Contents()), request, env, answer, backend.hash, Contents())
      ensures result == AfterJoin(old(Contents().service), request, answer).1
    {
      answer := Failure(BUSY);
      var checked := CheckedJoin(request);
      if checked.Failure? {
        return Failure(checked.error), answer;
      }
      if state.state != Idle {
        return Failure(BUSY), answer;
      }
      var id := checked.value.gameSessionId;
      state := Pending(Joining, MemberRole, id);
      var joined := backend.Join(checked.value, env);
      answer := joined;
      result := Enter(MemberRole, id, joined, old(Contents().service));
    }

    /** What `create` and `join` do with the backend's answer. */
    method Enter(
        role: RoomRole, gameSessionId: Option<string>, answer: Result<BackendRoom, RoomError>, ghost before: Service)
      returns (result: Result<RoomSnapshot, RoomError>)
      requires before.known == known && before.log == log
      modifies this
      ensures (Service(state, known, log), result) == Entered(before, role, gameSessionId, answer)
    {
      if answer.Failure? {
        state := FaultedSnapshot(role, gameSessionId, answer.error);
        return Failure(answer.error);
      }
      var room := ValidateBackendRoom(answer.value, role == MemberRole);
      if room.Failure? {
        state := FaultedSnapshot(role, gameSessionId, room.error);
        return Failure(room.error);
      }
      var snapshot := ConnectedSnapshot(role, gameSessionId, room.value);
      ReplaceKnownMembers(room.value.members);
      state := snapshot;
      Publish(StateChanged(snapshot));
      return Success(snapshot);
    }

    method ReplaceKnownMembers(members: seq<RoomMember>)
      modifies this
      ensures state == old(state) && log == old(log) && known == MapOf(members)
    {
      known := map[];
      for i := 0 to |members|
        invariant state == old(state) && log == old(log)
        invariant known == MapOf(members[..i])
      {
        MembersSnoc(known, members, i);
        known := known[members[i].id := members[i]];
      }
      assert members[..|members|] == members;
    }

    method SetLanAddress(address: AddressText, env: LanEnv, polling: RefreshEnv)
      returns (result: Result<RoomSnapshot, RoomError>, ghost answer: Result<(), RoomError>)
      requires Valid()
      modifies this, backend, backend.machine
      ensures Valid()
      ensures LanStep(old(Contents()), address, env, answer, polling, Contents())
      ensures result == LanResult(old(Contents().service), address, answer, state)
    {
      answer := Failure(INVALID);
      if !IsLoopbackEndpoint(address) {
        return Failure(INVALID), answer;
      }
      if state.state != Connected || state.role != HostRole {
        return Failure(RoomError(NotHost, false)), answer;
      }
      var changed := backend.SetLanAddress(address, env);
      answer := changed;
      if changed.Failure? {
        return Failure(changed.error), answer;
      }
      var snapshot := Status(polling);
      return Success(snapshot), answer;
    }

    method Diagnose(polling: RefreshEnv, diagnosing: RefreshEnv) returns (result: Result<NetworkStatus, RoomError>)
      requires Valid()
      modifies this
      ensures Valid()
      ensures DiagnoseStep(old(Contents()), polling, diagnosing, Contents())
      ensures result == AfterDiagnose(
                          old(Contents().service), Success(Refreshed(old(backend.State()), polling)),
                          Diagnosed(old(backend.State()), diagnosing)).1
    {
      if state.state != Connected && state.state != Reconnecting {
        return Failure(RoomError(NotConnected, false));
      }
      var previous := state.state;
      state := state.(state := Diagnosing);
      var refresh := backend.Refresh(polling);
      if refresh.network.Some? {
        state := state.(state := previous, network := refresh.network);
        if refresh.members.Some? {
          state := state.(members := refresh.members.value);
        }
        if refresh.localAddress.Some? {
          state := state.(localAddress := refresh.localAddress);
        }
        return Success(refresh.network.value);
      }
      result := backend.Diagnose(diagnosing);
      ConcludeDiagnosis(previous, result);
    }

    /** What becomes of a diagnosis whose refresh brought no network. */
    method ConcludeDiagnosis(previous: RoomState, diagnosed: Result<NetworkStatus, RoomError>)
      modifies this
      ensures known == old(known) && log == old(log)
      ensures state
           == match diagnosed
              case Success(network) => old(state).(state := previous, network := Some(network))
              case Failure(error) => FaultedSnapshot(old(state).role, old(state).gameSessionId, error)
    {
      if diagnosed.Failure? {
        state := FaultedSnapshot(state.role, state.gameSessionId, diagnosed.error);
        return;
      }
      state := state.(state := previous, network := Some(diagnosed.value));
    }

    method Leave() returns (result: Result<RoomSnapshot, RoomError>)
      requires Valid()
      modifies this, backend, backend.machine
      ensures Valid()
      ensures LeaveStep(old(Contents()), Contents())
      ensures result == RoomSpec.AfterLeave(old(Contents().service), Success(())).1
    {
      if state.state == Idle {
        return Success(state);
      }
      if state.state == Leaving {
        return Failure(BUSY);
      }
      state := state.(state := Leaving);
      var left := backend.Leave();
      result := ConcludeLeave(left, old(Contents().service));
    }

    method ConcludeLeave(left: Result<(), RoomError>, ghost before: Service)
      returns (result: Result<RoomSnapshot, RoomError>)
      requires before == Service(state.(state := before.state.state), known, log)
      requires before.state.state != Idle && before.state.state != Leaving
      modifies this
      ensures (Service(state, known, log), result) == RoomSpec.AfterLeave(before, left)
    {
      if left.Failure? {
        state := FaultedSnapshot(state.role, state.gameSessionId, left.error);
        return Failure(left.error);
      }
      state := IDLE;
      known := map[];
      Publish(StateChanged(IDLE));
      return Success(IDLE);
    }
  }

  /** A poll of an active room, put together from its peer events and its tail. */
  lemma PolledInParts(s: Service, refresh: BackendRefresh, peers: seq<RoomEvent>, s': Service)
    requires IsActive(s.state.state) && s'.state == AfterRefresh(s.state, refresh)
    requires s'.known == (if refresh.members.Some? then MapOf(refresh.members.value) else s.known)
    requires if refresh.members.Some? then AreDiffEvents(s.known, refresh.members.value, peers) else peers == []
    requires s'.log == s.log + peers + PollTail(s.state, refresh)
    ensures Polled(s, Success(refresh), s')
  {
    var tail := PollTail(s.state, refresh);
    assert s'.log[|s.log|..|s'.log| - |tail|] == peers;
  }

  /** What one more member adds to the map and to the arrivals. */
  lemma MembersSnoc(known: map<string, RoomMember>, members: seq<RoomMember>, i: nat)
    requires i < |members|
    ensures MapOf(members[..i + 1]) == MapOf(members[..i])[members[i].id := members[i]]
    ensures Arrivals(known, members[..i + 1]) == Arrivals(known, members[..i]) + Arrival(known, members[i])
  {
    assert members[..i + 1][..i] == members[..i];
  }

  lemma DeparturesExtend(events: seq<RoomEvent>, ids: set<string>, id: string)
    requires AreDepartures(events, ids) && id !in ids
    ensures AreDepartures(events + [PeerLeft(id)], ids + {id})
  {
    var longer := events + [PeerLeft(id)];
    forall i, j | 0 <= i < j < |longer|
      ensures longer[i] != longer[j]
    {
      if j == |events| {
        assert longer[i] == events[i] && events[i] in events;
      }
    }
    forall other | other in ids + {id}
      ensures PeerLeft(other) in longer
    {
      assert longer[|events|] == PeerLeft(id);
      assert other in ids ==> PeerLeft(other) in events;
    }
  }
}
