/** What the operations and events of the plugin's controller do to its two copies of the room state. */
module ControllerSpec {
  import opened RoomStateMachine
  import opened Text
  import opened Wrappers

  datatype PluginRole = NoRole | Host | Member

  datatype Snapshot = Snapshot(
    state: PluginState,
    role: PluginRole,
    roomCode: Option<string>,
    localAddress: Option<string>,
    gameSessionId: Option<string>,
    isHealthy: Option<bool>,
    members: seq<string>,
    errorCode: Option<string>)

  const IDLE := Snapshot(Idle, NoRole, None, None, None, None, [], None)

  const NO_RUNNING_GAME := "TC-GAME-001"
  const LAN_PORT_UNAVAILABLE := "TC-GAME-002"
  const HELPER_DISCONNECTED := "TC-IPC-002"
  const INVALID_ROOM_CODE := "TC-ROOM-001"
  const NETWORK_UNAVAILABLE := "TC-NET-001"

  /** How to re-enter the room after the helper has crashed. */
  datatype RecoveryIntent = RecoveryIntent(
    role: PluginRole,
    roomCode: Option<string>,
    gameSessionId: Option<string>,
    lanAddress: Option<string>)

  /** How an awaited call ends. The code is the one that the exception maps to. */
  datatype Reply<T> = Replied(value: T) | Threw(code: string) | Canceled

  /** What the holder of the operation gate is waiting for. */
  datatype Ongoing =
    | CreateCall(intent: RecoveryIntent)
    | JoinCall(intent: RecoveryIntent)
    | PersistCall
    | LeaveCall
    | StopCall
    | StatusCall
    | DiagnoseCall(previous: PluginState)
    | RecoverStopCall(intent: RecoveryIntent)
    | RecoverCall

  datatype Controller = Controller(
    machine: PluginState,
    snapshot: Snapshot,
    pendingCreate: Option<Option<string>>,
    recovery: Option<RecoveryIntent>,
    isPolling: bool,
    ongoing: Option<Ongoing>)

  const STARTED := Controller(Idle, IDLE, None, None, false, None)

  /** `PublishFault`: every state but Faulted itself may move to Faulted. */
  function Fault(c: Controller, code: string): Controller {
    c.(machine := Faulted, snapshot := c.snapshot.(state := Faulted, errorCode := Some(code)))
  }

  function Released(c: Controller): Controller {
    c.(ongoing := None)
  }


  predicate IsLive(state: PluginState) {
    state == Connected || state == Reconnecting
  }

  /** Connected, reconnecting or diagnosing. */
  predicate IsInRoom(state: PluginState) {
    IsLive(state) || state == Diagnosing
  }

  // ----- Creating and joining -----

  /** The game to host, as far as it can be found. */
  datatype Selection =
    | SelectionFails(code: string)
    | NoGame
    | NoLan(session: string)
    | Ready(session: string, lan: string)

  function WithoutFault(c: Controller): Controller {
    if c.machine == Faulted then c.(machine := Idle) else c
  }

  /** `TransitionAndPublish`, whose throw is a fault of the operation. */
  function Waiting(c: Controller, state: PluginState, session: Option<string>, code: string): Controller {
    if !MayMove(c.machine, state) then Fault(c, NETWORK_UNAVAILABLE)
    else c.(machine := state, snapshot := Snapshot(state, NoRole, None, None, session, None, [], Some(code)))
  }

  function CreateAsked(c: Controller, requested: Option<string>, selection: Selection): Controller {
    var r := WithoutFault(c);
    if r.machine != Idle && r.machine != WaitingForGame && r.machine != WaitingForLan
    then Fault(r, NETWORK_UNAVAILABLE)
    else
      match selection
      case SelectionFails(code) => Fault(r, code)
      case NoGame => Waiting(r.(pendingCreate := Some(requested)), WaitingForGame, None, NO_RUNNING_GAME)
      case NoLan(session) =>
        Waiting(r.(pendingCreate := Some(Some(session))), WaitingForLan, Some(session), LAN_PORT_UNAVAILABLE)
      case Ready(session, lan) =>
        r.(
          pendingCreate := None,
          machine := Creating,
          snapshot := Snapshot(Creating, Host, None, Some(lan), Some(session), None, [], None),
          ongoing := Some(CreateCall(RecoveryIntent(Host, None, Some(session), Some(lan)))))
  }

  function JoinAsked(c: Controller, code: string, session: Option<string>): Controller {
    var r := WithoutFault(c);
    if r.machine != Idle then Fault(r, NETWORK_UNAVAILABLE)
    else
      r.(
        machine := Joining,
        snapshot := Snapshot(Joining, Member, Some(code), None, session, None, [], None),
        ongoing := Some(JoinCall(RecoveryIntent(Member, Some(code), session, None))))
  }

  /** How the room just entered is to be re-entered. */
  function Remembered(intent: RecoveryIntent, connected: Snapshot): RecoveryIntent {
    if intent.role == Host then intent.(roomCode := connected.roomCode)
    else
      intent.(
        roomCode := if connected.roomCode.Some? then connected.roomCode else intent.roomCode,
        gameSessionId := if connected.gameSessionId.Some? then connected.gameSessionId else intent.gameSessionId,
        lanAddress := connected.localAddress)
  }

  /** The helper's answer to a create or join. */
  function EntryAnswered(c: Controller, intent: RecoveryIntent, reply: Reply<Snapshot>): Controller {
    match reply
    case Canceled => Released(c)
    case Threw(code) => Released(Fault(c, code))
    case Replied(connected) =>
      if !MayMove(c.machine, Connected) then Released(Fault(c, NETWORK_UNAVAILABLE))
      else
        c.(
          machine := Connected,
          snapshot := connected.(state := Connected),
          recovery := Some(Remembered(intent, connected)),
          isPolling := true,
          ongoing := Some(PersistCall))
  }

  /** An operation whose remaining work touches the state only by failing. */
  function Concluded(c: Controller, reply: Reply<()>): Controller {
    if reply.Threw? then Released(Fault(c, reply.code)) else Released(c)
  }

  // ----- Leaving -----

  function LeaveAsked(c: Controller): Controller {
    var r := c.(isPolling := false, recovery := None, pendingCreate := None);
    match r.machine
    case Idle => r
    case WaitingForGame | WaitingForLan | Faulted => r.(machine := Idle, snapshot := IDLE, ongoing := Some(StopCall))
    case _ =>
      if !MayMove(r.machine, Leaving) then Fault(r, NETWORK_UNAVAILABLE)
      else r.(machine := Leaving, snapshot := r.snapshot.(state := Leaving), ongoing := Some(LeaveCall))
  }

  function LeaveAnswered(c: Controller, reply: Reply<()>): Controller {
    match reply
    case Canceled => Released(c)
    case Threw(code) => Released(Fault(c, code))
    case Replied(_) =>
      if !MayMove(c.machine, Idle) then Released(Fault(c, NETWORK_UNAVAILABLE))
      else Released(c.(machine := Idle, snapshot := IDLE))
  }

  // ----- Refreshing and diagnosing -----

  function StatusAnswered(c: Controller, reply: Reply<Snapshot>): Controller {
    if !reply.Replied? then Released(c)
    else if IsLive(reply.value.state) then
      Released(c.(snapshot := reply.value.(state := if c.machine == Diagnosing then Diagnosing else reply.value.state)))
    else if reply.value.state == Faulted then
      Released(c.(isPolling := false, machine := Faulted, snapshot := reply.value))
    else Released(c)
  }

  function DiagnoseAsked(c: Controller): Controller {
    if !IsInRoom(c.snapshot.state) then Fault(c, NETWORK_UNAVAILABLE)
    else if c.machine == Diagnosing then c.(ongoing := Some(DiagnoseCall(Diagnosing)))
    else if !MayMove(c.machine, Diagnosing) then Fault(c, NETWORK_UNAVAILABLE)
    else
      c.(
        machine := Diagnosing,
        snapshot := c.snapshot.(state := Diagnosing),
        ongoing := Some(DiagnoseCall(c.machine)))
  }

  function DiagnoseAnswered(c: Controller, previous: PluginState, reply: Reply<bool>): Controller {
    match reply
    case Canceled => Released(c)
    case Threw(code) => Released(Fault(c, code))
    case Replied(isHealthy) =>
      var machine :=
        if c.machine == Diagnosing && previous != Diagnosing
        then if previous == Reconnecting then Reconnecting else Connected
        else c.machine;
      Released(c.(machine := machine, snapshot := c.snapshot.(state := machine, isHealthy := Some(isHealthy))))
  }

  // ----- Recovering from a crash of the helper -----

  predicate IsBlank(text: Option<string>) {
    text.None? || Trim(text.value) == ""
  }

  predicate IsComplete(intent: RecoveryIntent) {
    if intent.role == Host then !IsBlank(intent.gameSessionId) && !IsBlank(intent.lanAddress)
    else !IsBlank(intent.roomCode)
  }

  function RecoverFailed(c: Controller, code: string): Controller {
    Released(Fault(c.(recovery := None), code))
  }

  function RecoverStopped(c: Controller, intent: RecoveryIntent, reply: Reply<()>): Controller {
    match reply
    case Canceled => Released(c)
    case Threw(code) => RecoverFailed(c, code)
    case Replied(_) =>
      if IsComplete(intent) then c.(ongoing := Some(RecoverCall)) else RecoverFailed(c, NETWORK_UNAVAILABLE)
  }

  function RecoverAnswered(c: Controller, reply: Reply<Snapshot>): Controller {
    match reply
    case Canceled => Released(c)
    case Threw(code) => RecoverFailed(c, code)
    case Replied(connected) =>
      if !MayMove(c.machine, Connected) then RecoverFailed(c, NETWORK_UNAVAILABLE)
      else
        Released(c.(
          machine := Connected,
          snapshot := connected.(state := Connected, errorCode := None),
          isPolling := true))
  }

  // ----- Events from the helper, whatever the gate's holder waits for -----

  function SnapshotPushed(c: Controller, pushed: Snapshot): Controller {
    if pushed.state == Idle then c.(isPolling := false, machine := Idle, snapshot := IDLE)
    else if pushed.state == Faulted then c.(isPolling := false, machine := Faulted, snapshot := pushed)
    else if IsLive(pushed.state) then
      var machine := if MayMove(c.machine, pushed.state) then pushed.state else c.machine;
      c.(
        machine := machine,
        snapshot := pushed.(state := if machine == Diagnosing then Diagnosing else pushed.state),
        isPolling := true)
    else c
  }

  function NetworkPushed(c: Controller, isHealthy: bool): Controller {
    if !IsInRoom(c.snapshot.state) then c
    else
      var next := if isHealthy then Connected else Reconnecting;
      var machine := if IsLive(c.machine) then next else c.machine;
      c.(machine := machine, snapshot := c.snapshot.(state := machine, isHealthy := Some(isHealthy)))
  }

  function HelperExited(c: Controller, willAutoRestart: bool): Controller {
    if c.snapshot.state == Idle || c.snapshot.state == Leaving then c
    else
      var r := c.(
        isPolling := false,
        machine := if IsInRoom(c.machine) then Reconnecting else c.machine,
        snapshot := c.snapshot.(state := Reconnecting, errorCode := Some(HELPER_DISCONNECTED)));
      if willAutoRestart && c.recovery.Some? then r else Fault(r, HELPER_DISCONNECTED)
  }

  function HelperRestarted(c: Controller): Controller {
    if c.machine != Idle then Fault(c, HELPER_DISCONNECTED) else c
  }

  // ----- Steps -----

  /**
   * `…Asked` takes the operation gate and `…Answered` resumes its holder. A status request checks the snapshot, and
   * a recovery takes its intent, before waiting for the gate, so neither depends on the state it then finds.
   */
  datatype Event =
    | CreateEvent(requested: Option<string>, selection: Selection)
    | JoinRefusedEvent
    | JoinEvent(code: string, session: Option<string>)
    | EntryEvent(entered: Reply<Snapshot>)
    | LeaveEvent
    | LeftEvent(left: Reply<()>)
    | ConclusionEvent(concluded: Reply<()>)
    | StatusEvent
    | StatusAnswerEvent(status: Reply<Snapshot>)
    | DiagnoseEvent
    | DiagnosisEvent(diagnosis: Reply<bool>)
    | RecoverEvent(intent: RecoveryIntent)
    | RecoverStoppedEvent(stopped: Reply<()>)
    | RecoveredEvent(recovered: Reply<Snapshot>)
    | SnapshotPush(pushed: Snapshot)
    | NetworkPush(isHealthy: bool)
    | ExitEvent(willAutoRestart: bool)
    | RestartEvent

  predicate CanHappen(c: Controller, e: Event) {
    match e
    case CreateEvent(_, _) | JoinEvent(_, _) | LeaveEvent | StatusEvent | DiagnoseEvent | RecoverEvent(_) =>
      c.ongoing.None?
    case EntryEvent(_) => c.ongoing.Some? && (c.ongoing.value.CreateCall? || c.ongoing.value.JoinCall?)
    case LeftEvent(_) => c.ongoing == Some(LeaveCall)
    case ConclusionEvent(_) => c.ongoing == Some(StopCall) || c.ongoing == Some(PersistCall)
    case StatusAnswerEvent(_) => c.ongoing == Some(StatusCall)
    case DiagnosisEvent(_) => c.ongoing.Some? && c.ongoing.value.DiagnoseCall?
    case RecoverStoppedEvent(_) => c.ongoing.Some? && c.ongoing.value.RecoverStopCall?
    case RecoveredEvent(_) => c.ongoing == Some(RecoverCall)
    case JoinRefusedEvent | SnapshotPush(_) | NetworkPush(_) | ExitEvent(_) | RestartEvent => true
  }

  function Next(c: Controller, e: Event): Controller
    requires CanHappen(c, e)
  {
    match e
    case CreateEvent(requested, selection) => CreateAsked(c, requested, selection)
    case JoinRefusedEvent => Fault(c, INVALID_ROOM_CODE)
    case JoinEvent(code, session) => JoinAsked(c, code, session)
    case EntryEvent(reply) => EntryAnswered(c, c.ongoing.value.intent, reply)
    case LeaveEvent => LeaveAsked(c)
    case LeftEvent(reply) => LeaveAnswered(c, reply)
    case ConclusionEvent(reply) => Concluded(c, reply)
    case StatusEvent => c.(ongoing := Some(StatusCall))
    case StatusAnswerEvent(reply) => StatusAnswered(c, reply)
    case DiagnoseEvent => DiagnoseAsked(c)
    case DiagnosisEvent(reply) => DiagnoseAnswered(c, c.ongoing.value.previous, reply)
    case RecoverEvent(intent) => c.(ongoing := Some(RecoverStopCall(intent)))
    case RecoverStoppedEvent(reply) => RecoverStopped(c, c.ongoing.value.intent, reply)
    case RecoveredEvent(reply) => RecoverAnswered(c, reply)
    case SnapshotPush(pushed) => SnapshotPushed(c, pushed)
    case NetworkPush(isHealthy) => NetworkPushed(c, isHealthy)
    case ExitEvent(willAutoRestart) => HelperExited(c, willAutoRestart)
    case RestartEvent => HelperRestarted(c)
  }
}
