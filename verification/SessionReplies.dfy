/** What the replies of an IPC session say about the room and about the requests they answer: ipc/session.rs. */
module SessionReplies {
  import opened BackendSpec
  import opened HelperSpec
  import opened RoomTypes
  import opened SessionRuns
  import opened SessionSpec
  import opened Wrappers
  import Credentials
  import EventReplay
  import HelperEffects
  import HelperRuns
  import Mesh
  import RoomSpec
  import SnapshotMembers

  // ----- Replies and the room -----

  /** The snapshot that a reply carries, if it carries one. */
  function SnapshotOf(reply: Body): Option<RoomSnapshot> {
    match reply
    case StatusResult(s) => Some(s)
    case RoomLeft(s) => Some(s)
    case RoomCreated(s) => Some(s)
    case RoomJoined(s) => Some(s)
    case RoomStateChanged(s) => Some(s)
    case _ => None
  }

  /** The reply says how the service is after the turn, or why nothing came of the request. */
  predicate ShowsTheRoom(before: RoomSpec.Service, reply: Body, after: RoomSpec.Service) {
    && (SnapshotOf(reply).Some? ==> SnapshotOf(reply).value == after.state)
    && match reply
       case RoomLeft(_) => after.state.state == Idle
       case RoomCreated(_) => after.state.state == Connected && after.state.role == HostRole
       case RoomJoined(_) => after.state.state == Connected && after.state.role == MemberRole
       case RoomStateChanged(_) => after.state.state in {Connected, Reconnecting} && after.state.role == HostRole
       case DiagnosticUpdated(network) =>
         after.state.network == Some(network) && after.state.state == before.state.state && after.log == before.log
       case RoomRefused(error) =>
         || after == before
         || (after.state.state == Faulted && after.state.errorCode == Some(error.code) && after.log == before.log)
       case _ => true
  }

  lemma CallsShowTheRoom(h: Helper, action: Action, call: Call, config: Config, h': Helper, reply: Body)
    requires HelperRuns.HelperInvariant(h, config.hash)
    requires HelperStep(h, call, config.hash, h') && IsReplyTo(h, action, call, config, h', reply)
    ensures ShowsTheRoom(h.service, reply, h'.service)
  {
    if call.DiagnoseCall? {
      DiagnosesShowTheRoom(h, action, call, config, h', reply);
    } else if call.LanCall? {
      LanChangesShowTheRoom(h, action, call, config, h', reply);
    } else {
      OtherCallsShowTheRoom(h, action, call, config, h', reply);
    }
  }

  lemma DiagnosesShowTheRoom(h: Helper, action: Action, call: Call, config: Config, h': Helper, reply: Body)
    requires HelperRuns.HelperInvariant(h, config.hash) && call.DiagnoseCall?
    requires HelperStep(h, call, config.hash, h') && IsReplyTo(h, action, call, config, h', reply)
    ensures ShowsTheRoom(h.service, reply, h'.service)
  {
    HelperRuns.DiagnosisNeverFaults(h, call.polling, call.diagnosing, config.hash, h');
  }

  lemma LanChangesShowTheRoom(h: Helper, action: Action, call: Call, config: Config, h': Helper, reply: Body)
    requires HelperRuns.HelperInvariant(h, config.hash) && call.LanCall?
    requires HelperStep(h, call, config.hash, h') && IsReplyTo(h, action, call, config, h', reply)
    ensures ShowsTheRoom(h.service, reply, h'.service)
  {
    HelperRuns.LanKeepsInvariant(h, call.address, call.changing, call.changed, call.polling, config.hash, h');
  }

  lemma OtherCallsShowTheRoom(h: Helper, action: Action, call: Call, config: Config, h': Helper, reply: Body)
    requires HelperRuns.HelperInvariant(h, config.hash) && !call.DiagnoseCall? && !call.LanCall?
    requires HelperStep(h, call, config.hash, h') && IsReplyTo(h, action, call, config, h', reply)
    ensures ShowsTheRoom(h.service, reply, h'.service)
  {
  }

  /** On every run each reply shows the room as it then is; an error leaves it alone or is the one it faulted with. */
  lemma RepliesShowTheRoom(ss: seq<Session>, es: seq<Happening>, hello: Request, config: Config, i: nat)
    requires IsSessionRun(ss, es, hello, config) && i < |es| && es[i].Arrives?
    ensures ShowsTheRoom(ss[i].helper.service, es[i].reply, ss[i + 1].helper.service)
  {
    GateOnEveryRun(ss, es, hello, config, i);
    var s, e, s' := ss[i], es[i], ss[i + 1];
    assert SessionStep(s, e, config, s');
    if e.call.Some? {
      CallsShowTheRoom(
        s.helper, ActionOf(s.identity.Some?, e.request), e.call.value, config, s'.helper, e.reply);
    }
  }

  // ----- The members of a status reply -----

  /** An entry, a departure, or a poll of a live room that hears of its members; a host hears of them always. */
  predicate Relists(h: Helper, call: Call, h': Helper) {
    match call
    case CreateCall(_, _, _) | JoinCall(_, _, _) => h.service.state.state == Idle && h'.service.state.state == Connected
    case PollCall(env) =>
      RoomSpec.IsActive(h.service.state.state) && (IsHost(h.backend.session) || env.heartbeat.Some?)
    case LeaveCall => h'.service.state.state == Idle
    case _ => false
  }

  lemma RelistingLists(h: Helper, call: Call, hash: Mesh.Hash, h': Helper)
    requires HelperRuns.HelperInvariant(h, hash) && HelperStep(h, call, hash, h') && Relists(h, call, h')
    ensures SnapshotMembers.ListsKnown(h'.service)
  {
    HelperRuns.CallsAreOperations(h, call, hash, h');
    SnapshotMembers.RelistingLists(h.service, HelperRuns.OpOf(h, call, h').value, h'.service);
  }

  lemma CallsKeepTheList(h: Helper, call: Call, hash: Mesh.Hash, h': Helper)
    requires HelperRuns.HelperInvariant(h, hash) && HelperStep(h, call, hash, h') && !call.DiagnoseCall?
    requires SnapshotMembers.ListsKnown(h.service)
    ensures SnapshotMembers.ListsKnown(h'.service)
  {
    HelperRuns.CallsAreOperations(h, call, hash, h');
    match HelperRuns.OpOf(h, call, h') {
      case Some(op) => SnapshotMembers.StepListsExactly(h.service, op, h'.service);
      case None =>
    }
  }

  /** Turns `i` to `j` follow the start, or a turn that lists the members anew, and none of them is a diagnosis. */
  ghost predicate IsFreshlyListed(ss: seq<Session>, es: seq<Happening>, i: nat, j: nat)
    requires i <= j < |ss| && |ss| == |es| + 1
  {
    && (i > 0 ==> CallOf(es[i - 1]).Some? && Relists(ss[i - 1].helper, CallOf(es[i - 1]).value, ss[i].helper))
    && forall k :: i <= k < j && CallOf(es[k]).Some? ==> !CallOf(es[k]).value.DiagnoseCall?
  }

  lemma TurnsList(s: Session, e: Happening, config: Config, s': Session)
    requires GateInvariant(s, config) && SessionStep(s, e, config, s')
    ensures CallOf(e).Some? && Relists(s.helper, CallOf(e).value, s'.helper) ==>
              SnapshotMembers.ListsKnown(s'.helper.service)
    ensures (CallOf(e).Some? ==> !CallOf(e).value.DiagnoseCall?) && SnapshotMembers.ListsKnown(s.helper.service) ==>
              SnapshotMembers.ListsKnown(s'.helper.service)
  {
    TurnsAreCalls(s, e, config, s');
    if CallOf(e).Some? {
      var call := CallOf(e).value;
      if Relists(s.helper, call, s'.helper) {
        RelistingLists(s.helper, call, config.hash, s'.helper);
      } else if !call.DiagnoseCall? && SnapshotMembers.ListsKnown(s.helper.service) {
        CallsKeepTheList(s.helper, call, config.hash, s'.helper);
      }
    }
  }

  lemma NextTurnLists(ss: seq<Session>, es: seq<Happening>, hello: Request, config: Config, i: nat)
    requires IsSessionRun(ss, es, hello, config) && i < |es|
    ensures CallOf(es[i]).Some? && Relists(ss[i].helper, CallOf(es[i]).value, ss[i + 1].helper) ==>
              SnapshotMembers.ListsKnown(ss[i + 1].helper.service)
    ensures (CallOf(es[i]).Some? ==> !CallOf(es[i]).value.DiagnoseCall?)
            && SnapshotMembers.ListsKnown(ss[i].helper.service) ==>
              SnapshotMembers.ListsKnown(ss[i + 1].helper.service)
  {
    GateOnEveryRun(ss, es, hello, config, i);
    TurnsList(ss[i], es[i], config, ss[i + 1]);
  }

  /** From then on the snapshot lists the members that the service holds known. */
  lemma {:induction false} SessionsListTheKnown(
      ss: seq<Session>, es: seq<Happening>, hello: Request, config: Config, i: nat, j: nat)
    requires IsSessionRun(ss, es, hello, config) && i <= j < |ss| && IsFreshlyListed(ss, es, i, j)
    ensures RoomSpec.MapOf(ss[j].helper.service.state.members) == ss[j].helper.service.known
    decreases j
  {
    if j > 0 {
      NextTurnLists(ss, es, hello, config, j - 1);
      if i < j {
        SessionsListTheKnown(ss, es, hello, config, i, j - 1);
      }
    }
  }

  lemma LogsExtend(ss: seq<Session>, es: seq<Happening>, hello: Request, config: Config, i: nat, j: nat)
    requires IsSessionRun(ss, es, hello, config) && i <= j < |ss|
    ensures Extends(ss[j].helper.service.log, ss[i].helper.service.log)
  {
    var logs := seq(|ss|, k requires 0 <= k < |ss| => ss[k].helper.service.log);
    forall k | 0 <= k < |es|
      ensures Extends(logs[k + 1], logs[k])
    {
      TurnsGrowLog(ss[k], es[k], config, ss[k + 1]);
    }
    ExtensionIsTransitive(logs, i, j);
  }

  lemma {:induction false} ExtensionIsTransitive(logs: seq<seq<RoomEvent>>, i: nat, j: nat)
    requires i <= j < |logs|
    requires forall k :: 0 <= k < |logs| - 1 ==> Extends(logs[k + 1], logs[k])
    ensures Extends(logs[j], logs[i])
    decreases j
  {
    if i < j {
      ExtensionIsTransitive(logs, i, j - 1);
      assert Extends(logs[j - 1 + 1], logs[j - 1]);
    }
  }

  /**
   * The members of a status reply are the ones that the pushed events replay to, once the client has received those
   * published up to the reply and missed none. This is what the plugin reconciles its membership from.
   */
  lemma StatusRepliesListTheReplayed(
      ss: seq<Session>, es: seq<Happening>, hello: Request, config: Config, i: nat, j: nat, k: nat)
    requires IsSessionRun(ss, es, hello, config) && i <= j < k < |ss|
    requires es[j].Arrives? && es[j].reply.StatusResult? && IsFreshlyListed(ss, es, i, j + 1)
    requires forall n :: 0 <= n <= j ==> IsSafeTurn(ss[n], es[n])
    requires ss[k].missed == 0 && ss[k].outcome != Some(Broken)
    requires ss[k].cursor == |ss[j + 1].helper.service.log|
    ensures RoomSpec.MapOf(es[j].reply.snapshot.members)
         == EventReplay.Replay(EventReplay.NOBODY, PushedEvents(ss[k].written)).members
  {
    var log := ss[j + 1].helper.service.log;
    RepliesShowTheRoom(ss, es, hello, config, j);
    SessionsListTheKnown(ss, es, hello, config, i, j + 1);
    ReplayOnEverySession(ss, es, hello, config, j + 1);
    FeedOnEveryRun(ss, es, hello, config, k);
    LogsExtend(ss, es, hello, config, j + 1, k);
    assert PushedEvents(ss[k].written) == log;
  }

  // ----- Requests and calls -----

  /** The call is the one that the request asks for, with what the request carries. */
  predicate Carries(request: Request, call: Call) {
    match call
    case SetIdentityCall(_) => request.messageType == "identity.initialize"
    case CreateCall(create, _, _) => request.messageType == "room.create" && request.payload.create == Some(create)
    case JoinCall(join, _, _) => request.messageType == "room.join" && request.payload.join == Some(join)
    case PollCall(_) => request.messageType == "room.status"
    case LanCall(address, _, _, _) =>
      request.messageType == "room.set-lan-address" && request.payload.lan == Some(address)
    case DiagnoseCall(_, _) => request.messageType == "network.diagnose"
    case LeaveCall => request.messageType == "room.leave"
    case GuestCall(_) | EndsCall(_) => false
  }

  /** A request that names an operation and carries what it takes; entries also take an identity. */
  predicate IsServiceable(isInitialized: bool, request: Request) {
    match request.messageType
    case "identity.initialize" =>
      request.payload.privateKey.Some? && DecodedKey(request.payload.privateKey.value).Some?
    case "room.create" => isInitialized && request.payload.create.Some?
    case "room.join" => isInitialized && request.payload.join.Some?
    case "room.set-lan-address" => request.payload.lan.Some?
    case "room.status" => true
    case "room.leave" => true
    case "network.diagnose" => true
    case _ => false
  }

  lemma ActionsCarryExactly(isInitialized: bool, request: Request)
    ensures var action := ActionOf(isInitialized, request);
      !action.Refuse? && !action.Shutdown? <==> IsServiceable(isInitialized, request)
    ensures ActionOf(isInitialized, request).Shutdown? <==> request.messageType == "shutdown"
  {
  }

  lemma RepliesCarry(
      h: Helper, isInitialized: bool, request: Request, call: Call, config: Config, h': Helper, reply: Body)
    requires IsReplyTo(h, ActionOf(isInitialized, request), call, config, h', reply)
    ensures Carries(request, call)
  {
  }

  /** New within the session: neither the hello's id nor one admitted before. */
  predicate IsNew(s: Session, hello: Request, id: string) {
    id != hello.id && id !in s.admitted
  }

  /** What it takes for a request to be acted upon: the protocol, a fresh well-formed id, and fewer than 4095 before. */
  predicate IsAdmissible(s: Session, hello: Request, request: Request) {
    request.protocol == 1 && IsValidRequestId(request.id) && |s.admitted| < 4095 && IsNew(s, hello, request.id)
  }

  /**
   * On every run a request leads to a call on the service exactly when it is admissible and serviceable, and then to
   * the call it asks for with what it carries; anything else reaches nobody.
   */
  lemma RequestsAreServedExactly(ss: seq<Session>, es: seq<Happening>, hello: Request, config: Config, i: nat)
    requires IsSessionRun(ss, es, hello, config) && i < |es| && es[i].Arrives?
    ensures ss[i + 1].admitted != ss[i].admitted <==> IsAdmissible(ss[i], hello, es[i].request)
    ensures es[i].call.Some?
       <==> IsAdmissible(ss[i], hello, es[i].request) && IsServiceable(ss[i].identity.Some?, es[i].request)
    ensures es[i].call.Some? ==> Carries(es[i].request, es[i].call.value)
    ensures es[i].call.None? ==> ss[i + 1].helper == ss[i].helper && ss[i + 1].identity == ss[i].identity
  {
    var s, e, s' := ss[i], es[i], ss[i + 1];
    IdsOnEveryRun(ss, es, hello, config, i);
    assert SessionStep(s, e, config, s');
    AdmissionIsExact(s, hello, e.request);
    ActionsCarryExactly(s.identity.Some?, e.request);
    if e.call.Some? {
      RepliesCarry(s.helper, s.identity.Some?, e.request, e.call.value, config, s'.helper, e.reply);
    }
  }

  lemma AdmissionIsExact(s: Session, hello: Request, request: Request)
    requires IdsInvariant(s, hello)
    ensures Refusal(s.ids, request).None? <==> IsAdmissible(s, hello, request)
  {
  }

  /** The code with which a request is refused that reaches nobody. */
  function RefusalCode(s: Session, hello: Request, request: Request): string {
    if request.protocol != 1 then "ipc.protocol-mismatch"
    else if !IsValidRequestId(request.id) then "ipc.invalid-request-id"
    else if |s.admitted| == 4095 then "ipc.request-limit"
    else if !IsNew(s, hello, request.id) then "ipc.duplicate-request-id"
    else
      match request.messageType
      case "identity.initialize" =>
        if request.payload.privateKey.None? then "identity.invalid-request" else "identity.invalid-key"
      case "room.create" => if s.identity.None? then "identity.not-initialized" else "room.invalid-request"
      case "room.join" => if s.identity.None? then "identity.not-initialized" else "room.invalid-request"
      case "room.set-lan-address" => "room.invalid-request"
      case _ => "ipc.unknown-message-type"
  }

  /** Such a request is answered with its code, or, if it is an admissible shutdown, accepted. */
  lemma RefusalsAreNamed(ss: seq<Session>, es: seq<Happening>, hello: Request, config: Config, i: nat)
    requires IsSessionRun(ss, es, hello, config) && i < |es| && es[i].Arrives? && es[i].call.None?
    ensures es[i].reply
         == if IsAdmissible(ss[i], hello, es[i].request) && es[i].request.messageType == "shutdown"
            then ShutdownAccepted
            else Refused(RefusalCode(ss[i], hello, es[i].request))
  {
    var s, e := ss[i], es[i];
    IdsOnEveryRun(ss, es, hello, config, i);
    assert SessionStep(s, e, config, ss[i + 1]);
    AdmissionIsExact(s, hello, e.request);
    RefusedActionsAreNamed(s, hello, e.request);
  }

  lemma RefusedActionsAreNamed(s: Session, hello: Request, request: Request)
    requires IdsInvariant(s, hello)
    ensures Refusal(s.ids, request).Some? ==> Refusal(s.ids, request).value == RefusalCode(s, hello, request)
    ensures var action := ActionOf(s.identity.Some?, request);
      && (Refusal(s.ids, request).None? && action.Refuse? ==> action.code == RefusalCode(s, hello, request))
      && (action.Shutdown? <==> request.messageType == "shutdown")
  {
    AdmissionIsExact(s, hello, request);
  }

  /** Why the service turns a call away without trying anything. */
  function TurnedAway(state: RoomSnapshot, call: Call): Option<ErrorCode> {
    match call
    case CreateCall(request, _, _) =>
      if !HelperEffects.IsCreateInOrder(request) then Some(InvalidRequest)
      else if state.state != Idle then Some(OperationInProgress) else None
    case JoinCall(request, _, _) =>
      if Credentials.NormalizeRoomCode(request.roomCode).None? then Some(InvalidCode)
      else if !HelperEffects.IsJoinInOrder(request) then Some(InvalidRequest)
      else if state.state != Idle then Some(OperationInProgress) else None
    case LanCall(address, _, _, _) =>
      if !IsLoopbackEndpoint(address) then Some(InvalidRequest)
      else if state.state != Connected || state.role != HostRole then Some(NotHost) else None
    case DiagnoseCall(_, _) =>
      if state.state != Connected && state.state != Reconnecting then Some(NotConnected) else None
    case _ => None
  }

  lemma CallsAreTurnedAway(h: Helper, action: Action, call: Call, config: Config, h': Helper, reply: Body)
    requires HelperRuns.HelperInvariant(h, config.hash)
    requires HelperStep(h, call, config.hash, h') && IsReplyTo(h, action, call, config, h', reply)
    requires TurnedAway(h.service.state, call).Some?
    ensures h' == h && reply == RoomRefused(RoomError(TurnedAway(h.service.state, call).value, false))
  {
    if call.CreateCall? {
      HelperEffects.SessionIdsAreCheckedExactly(call.create.gameSessionId);
    } else if call.JoinCall? {
      HelperEffects.JoinsAreCheckedExactly(call.join);
      RoomSpec.NormalisersAgree(call.join.roomCode);
    }
  }

  /** On every run such a call changes nothing and is answered with that reason, as one not to be retried. */
  lemma CallsAreTurnedAwayUnchanged(ss: seq<Session>, es: seq<Happening>, hello: Request, config: Config, i: nat)
    requires IsSessionRun(ss, es, hello, config) && i < |es| && es[i].Arrives? && es[i].call.Some?
    requires TurnedAway(ss[i].helper.service.state, es[i].call.value).Some?
    ensures ss[i + 1].helper == ss[i].helper
    ensures es[i].reply
         == RoomRefused(RoomError(TurnedAway(ss[i].helper.service.state, es[i].call.value).value, false))
  {
    GateOnEveryRun(ss, es, hello, config, i);
    var s, e, s' := ss[i], es[i], ss[i + 1];
    assert SessionStep(s, e, config, s');
    CallsAreTurnedAway(
      s.helper, ActionOf(s.identity.Some?, e.request), e.call.value, config, s'.helper, e.reply);
  }

  // ----- The end of a session -----

  /** How a turn ends the session, if it does. */
  function EndOf(s: Session, hello: Request, e: Happening): Option<Outcome> {
    match e
    case Ends => Some(PeerDisconnected)
    case Breaks => Some(Broken)
    case Announces(delivered) => if delivered || |s.helper.service.log| - s.cursor > 64 then None else Some(Broken)
    case Arrives(request, _, _, delivered) =>
      if !delivered then Some(Broken)
      else if IsAdmissible(s, hello, request) then
        if request.messageType == "shutdown" then Some(ShutdownRequested) else None
      else if request.protocol == 1 && IsValidRequestId(request.id) && |s.admitted| == 4095 then Some(PeerDisconnected)
      else None
    case _ => None
  }

  /** It ends for a shutdown asked for, when ids run out, when the stream ends, or when a frame is not taken. */
  lemma SessionsEndExactly(ss: seq<Session>, es: seq<Happening>, hello: Request, config: Config, i: nat)
    requires IsSessionRun(ss, es, hello, config) && i < |es|
    ensures ss[i + 1].outcome == EndOf(ss[i], hello, es[i])
  {
    var s, e, s' := ss[i], es[i], ss[i + 1];
    IdsOnEveryRun(ss, es, hello, config, i);
    assert SessionStep(s, e, config, s');
    if e.Arrives? {
      AdmissionIsExact(s, hello, e.request);
      ActionsCarryExactly(s.identity.Some?, e.request);
    }
  }

  // ----- Lost events -----

  /** Every event up to the cursor was pushed or is counted as missed; none is pushed twice. */
  ghost predicate AccountsForEvents(s: Session) {
    s.outcome != Some(Broken) ==> |PushedEvents(s.written)| + s.missed == s.cursor
  }

  lemma StepKeepsAccounts(s: Session, e: Happening, s': Session)
    requires AccountsForEvents(s) && TraceStep(s, e, s')
    ensures AccountsForEvents(s')
  {
    match e
    case Arrives(request, call, reply, delivered) =>
      SentOnTrace(s.written, Frame(request.id, reply));
    case Announces(delivered) =>
      if s'.written != s.written {
        SentOnTrace(s.written, s'.written[|s.written|]);
      }
    case _ =>
  }

  lemma {:induction false} EventsAreAccountedFor(
      ss: seq<Session>, es: seq<Happening>, hello: Request, config: Config, i: nat)
    requires IsSessionRun(ss, es, hello, config) && i < |ss|
    ensures AccountsForEvents(ss[i])
  {
    if i > 0 {
      EventsAreAccountedFor(ss, es, hello, config, i - 1);
      StepsAreTraced(ss[i - 1], es[i - 1], config, ss[i]);
      StepKeepsAccounts(ss[i - 1], es[i - 1], ss[i]);
    } else {
      SentOnTrace([], Frame(hello.id, HelloAccepted));
      assert [] + [Frame(hello.id, HelloAccepted)] == ss[0].written;
    }
  }

  /** A turn loses events exactly when it finds more than 64 waiting, and then all but the latest 64. */
  lemma OnlyLaggingLosesEvents(ss: seq<Session>, es: seq<Happening>, hello: Request, config: Config, i: nat)
    requires IsSessionRun(ss, es, hello, config) && i < |es|
    ensures var waiting := |ss[i].helper.service.log| - ss[i].cursor;
      ss[i + 1].missed - ss[i].missed == if es[i].Announces? && waiting > 64 then waiting - 64 else 0
  {
    StepsAreTraced(ss[i], es[i], config, ss[i + 1]);
  }
}
