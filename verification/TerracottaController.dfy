/** The controller's operations, cut at their awaits, and its event handlers: Application/TerracottaController.cs. */
module TerracottaController {
  import opened ControllerSpec
  import opened RoomStateMachine
  import opened Wrappers

  class TerracottaController {
    const machine: RoomStateMachine
    var snapshot: Snapshot
    var pendingCreate: Option<Option<string>>
    var recovery: Option<RecoveryIntent>
    /** Whether the status poll runs. */
    var isPolling: bool
    /** What the holder of the operation gate awaits; nobody holds it otherwise. */
    var ongoing: Option<Ongoing>

    ghost function Contents(): Controller
      reads this, machine
    {
      Controller(machine.state, snapshot, pendingCreate, recovery, isPolling, ongoing)
    }

    constructor ()
      ensures Contents() == STARTED && fresh(machine)
    {
      machine := new RoomStateMachine();
      snapshot, pendingCreate, recovery, isPolling, ongoing := IDLE, None, None, false, None;
    }

    // ----- Faults -----

    method PublishFault(code: string)
      modifies this, machine
      ensures Contents() == Fault(old(Contents()), code)
    {
      if machine.state != Faulted {
        var moved := machine.TransitionTo(Faulted);
      }
      snapshot := snapshot.(state := Faulted, errorCode := Some(code));
    }

    /** The `catch` and `finally` of a gated operation. */
    method FaultAndRelease(code: string)
      modifies this, machine
      ensures Contents() == Released(Fault(old(Contents()), code))
    {
      PublishFault(code);
      ongoing := None;
    }

    method ResetFaultIfNeeded()
      modifies machine
      ensures machine.state == if old(machine.state) == Faulted then Idle else old(machine.state)
    {
      if machine.state == Faulted {
        var moved := machine.TransitionTo(Idle);
      }
    }

    method TransitionAndPublish(state: PluginState, session: Option<string>, code: string)
      modifies this, machine
      ensures Contents() == Waiting(old(Contents()), state, session, code)
    {
      var moved := machine.TransitionTo(state);
      if !moved {
        PublishFault(NETWORK_UNAVAILABLE);
        return;
      }
      snapshot := Snapshot(state, NoRole, None, None, session, None, [], Some(code));
    }

    // ----- Creating and joining -----

    method BeginCreate(requested: Option<string>, selection: Selection)
      requires ongoing.None?
      modifies this, machine
      ensures Contents() == Next(old(Contents()), CreateEvent(requested, selection))
    {
      ResetFaultIfNeeded();
      if machine.state != Idle && machine.state != WaitingForGame && machine.state != WaitingForLan {
        PublishFault(NETWORK_UNAVAILABLE);
        return;
      }
      match selection {
        case SelectionFails(code) =>
          PublishFault(code);
        case NoGame =>
          pendingCreate := Some(requested);
          TransitionAndPublish(WaitingForGame, None, NO_RUNNING_GAME);
        case NoLan(session) =>
          pendingCreate := Some(Some(session));
          TransitionAndPublish(WaitingForLan, Some(session), LAN_PORT_UNAVAILABLE);
        case Ready(session, lan) =>
          pendingCreate := None;
          var moved := machine.TransitionTo(Creating);
          snapshot := Snapshot(Creating, Host, None, Some(lan), Some(session), None, [], None);
          ongoing := Some(CreateCall(RecoveryIntent(Host, None, Some(session), Some(lan))));
      }
    }

    /** A malformed code is a fault even while another operation holds the gate. */
    method RefuseJoin()
      modifies this, machine
      ensures Contents() == Next(old(Contents()), JoinRefusedEvent)
    {
      PublishFault(INVALID_ROOM_CODE);
    }

    method BeginJoin(code: string, session: Option<string>)
      requires ongoing.None?
      modifies this, machine
      ensures Contents() == Next(old(Contents()), JoinEvent(code, session))
    {
      ResetFaultIfNeeded();
      if machine.state != Idle {
        PublishFault(NETWORK_UNAVAILABLE);
        return;
      }
      var moved := machine.TransitionTo(Joining);
      snapshot := Snapshot(Joining, Member, Some(code), None, session, None, [], None);
      ongoing := Some(JoinCall(RecoveryIntent(Member, Some(code), session, None)));
    }

    method EndEntry(reply: Reply<Snapshot>)
      requires CanHappen(Contents(), EntryEvent(reply))
      modifies this, machine
      ensures Contents() == Next(old(Contents()), EntryEvent(reply))
    {
      if reply.Canceled? {
        ongoing := None;
        return;
      }
      if reply.Threw? {
        FaultAndRelease(reply.code);
        return;
      }
      var moved := machine.TransitionTo(Connected);
      if !moved {
        FaultAndRelease(NETWORK_UNAVAILABLE);
        return;
      }
      var connected := reply.value;
      snapshot := connected.(state := Connected);
      RememberRecovery(ongoing.value.intent, connected);
      isPolling := true;
      ongoing := Some(PersistCall);
    }

    method RememberRecovery(intent: RecoveryIntent, connected: Snapshot)
      modifies this`recovery
      ensures recovery == Some(Remembered(intent, connected))
    {
      if intent.role == Host {
        recovery := Some(RecoveryIntent(Host, connected.roomCode, intent.gameSessionId, intent.lanAddress));
        return;
      }
      var code := if connected.roomCode.Some? then connected.roomCode else intent.roomCode;
      var session := if connected.gameSessionId.Some? then connected.gameSessionId else intent.gameSessionId;
      recovery := Some(RecoveryIntent(intent.role, code, session, connected.localAddress));
    }

    /** Persisting the selection after an entry, or stopping the helper after leaving a room never entered. */
    method Conclude(reply: Reply<()>)
      requires CanHappen(Contents(), ConclusionEvent(reply))
      modifies this, machine
      ensures Contents() == Next(old(Contents()), ConclusionEvent(reply))
    {
      if reply.Threw? {
        PublishFault(reply.code);
      }
      ongoing := None;
    }

    // ----- Leaving -----

    method BeginLeave()
      requires ongoing.None?
      modifies this, machine
      ensures Contents() == Next(old(Contents()), LeaveEvent)
    {
      isPolling := false;
      recovery := None;
      pendingCreate := None;
      if machine.state == Idle {
        return;
      }
      if machine.state == WaitingForGame || machine.state == WaitingForLan || machine.state == Faulted {
        var moved := machine.TransitionTo(Idle);
        snapshot := IDLE;
        ongoing := Some(StopCall);
        return;
      }
      var moved := machine.TransitionTo(Leaving);
      if !moved {
        PublishFault(NETWORK_UNAVAILABLE);
        return;
      }
      snapshot := snapshot.(state := Leaving);
      ongoing := Some(LeaveCall);
    }

    method EndLeave(reply: Reply<()>)
      requires CanHappen(Contents(), LeftEvent(reply))
      modifies this, machine
      ensures Contents() == Next(old(Contents()), LeftEvent(reply))
    {
      if reply.Canceled? {
        ongoing := None;
        return;
      }
      if reply.Threw? {
        FaultAndRelease(reply.code);
        return;
      }
      var moved := machine.TransitionTo(Idle);
      if !moved {
        FaultAndRelease(NETWORK_UNAVAILABLE);
        return;
      }
      snapshot := IDLE;
      ongoing := None;
    }

    // ----- Refreshing and diagnosing -----

    /** The snapshot was found to be in a room before the gate was waited for. */
    method BeginRefresh()
      requires ongoing.None?
      modifies this
      ensures Contents() == Next(old(Contents()), StatusEvent)
    {
      ongoing := Some(StatusCall);
    }

    /** A failed refresh is only logged. */
    method EndRefresh(reply: Reply<Snapshot>)
      requires CanHappen(Contents(), StatusAnswerEvent(reply))
      modifies this, machine
      ensures Contents() == Next(old(Contents()), StatusAnswerEvent(reply))
    {
      ongoing := None;
      if !reply.Replied? {
        return;
      }
      var answered := reply.value;
      if answered.state == Connected || answered.state == Reconnecting {
        snapshot := answered.(state := if machine.state == Diagnosing then Diagnosing else answered.state);
      } else if answered.state == Faulted {
        isPolling := false;
        var moved := machine.TransitionTo(Faulted);
        snapshot := answered;
      }
    }

    method BeginDiagnose()
      requires ongoing.None?
      modifies this, machine
      ensures Contents() == Next(old(Contents()), DiagnoseEvent)
    {
      if !IsInRoom(snapshot.state) {
        PublishFault(NETWORK_UNAVAILABLE);
        return;
      }
      var previous := machine.state;
      if previous != Diagnosing {
        var moved := machine.TransitionTo(Diagnosing);
        if !moved {
          PublishFault(NETWORK_UNAVAILABLE);
          return;
        }
        snapshot := snapshot.(state := Diagnosing);
      }
      ongoing := Some(DiagnoseCall(previous));
    }

    method EndDiagnose(reply: Reply<bool>)
      requires CanHappen(Contents(), DiagnosisEvent(reply))
      modifies this, machine
      ensures Contents() == Next(old(Contents()), DiagnosisEvent(reply))
    {
      if reply.Canceled? {
        ongoing := None;
        return;
      }
      if reply.Threw? {
        FaultAndRelease(reply.code);
        return;
      }
      var previous := ongoing.value.previous;
      if machine.state == Diagnosing && previous != Diagnosing {
        var moved := machine.TransitionTo(if previous == Reconnecting then Reconnecting else Connected);
      }
      snapshot := snapshot.(state := machine.state, isHealthy := Some(reply.value));
      ongoing := None;
    }

    // ----- Recovering -----

    /** The intent was taken before the gate was waited for. */
    method BeginRecovery(intent: RecoveryIntent)
      requires ongoing.None?
      modifies this
      ensures Contents() == Next(old(Contents()), RecoverEvent(intent))
    {
      ongoing := Some(RecoverStopCall(intent));
    }

    method EndRecoveryStop(reply: Reply<()>)
      requires CanHappen(Contents(), RecoverStoppedEvent(reply))
      modifies this, machine
      ensures Contents() == Next(old(Contents()), RecoverStoppedEvent(reply))
    {
      if reply.Canceled? {
        ongoing := None;
        return;
      }
      if reply.Threw? {
        FailRecovery(reply.code);
        return;
      }
      if !IsComplete(ongoing.value.intent) {
        FailRecovery(NETWORK_UNAVAILABLE);
        return;
      }
      ongoing := Some(RecoverCall);
    }

    method FailRecovery(code: string)
      modifies this, machine
      ensures Contents() == RecoverFailed(old(Contents()), code)
    {
      recovery := None;
      FaultAndRelease(code);
    }

    method EndRecovery(reply: Reply<Snapshot>)
      requires CanHappen(Contents(), RecoveredEvent(reply))
      modifies this, machine
      ensures Contents() == Next(old(Contents()), RecoveredEvent(reply))
    {
      if reply.Canceled? {
        ongoing := None;
        return;
      }
      if reply.Threw? {
        FailRecovery(reply.code);
        return;
      }
      if machine.state != Connected {
        var moved := machine.TransitionTo(Connected);
        if !moved {
          FailRecovery(NETWORK_UNAVAILABLE);
          return;
        }
      }
      snapshot := reply.value.(state := Connected, errorCode := None);
      isPolling := true;
      ongoing := None;
    }

    // ----- Events -----

    method ApplyHelperSnapshot(pushed: Snapshot)
      modifies this, machine
      ensures Contents() == Next(old(Contents()), SnapshotPush(pushed))
    {
      if pushed.state == Idle {
        isPolling := false;
        machine.ResetToIdle();
        snapshot := IDLE;
        return;
      }
      if pushed.state == Faulted {
        isPolling := false;
        PublishState(Faulted, pushed);
        return;
      }
      if pushed.state == Connected || pushed.state == Reconnecting {
        var can := machine.CanTransitionTo(pushed.state);
        if machine.state != pushed.state && can {
          var moved := machine.TransitionTo(pushed.state);
        }
        snapshot := pushed.(state :=
          if IsInRoom(machine.state) then if machine.state == Diagnosing then Diagnosing else pushed.state
          else pushed.state);
        if !isPolling {
          isPolling := true;
        }
      }
    }

    method PublishState(state: PluginState, published: Snapshot)
      requires MayMove(machine.state, state)
      modifies this`snapshot, machine
      ensures machine.state == state && snapshot == published
    {
      if machine.state != state {
        var moved := machine.TransitionTo(state);
      }
      snapshot := published;
    }

    method ApplyNetwork(isHealthy: bool)
      modifies this, machine
      ensures Contents() == Next(old(Contents()), NetworkPush(isHealthy))
    {
      if !IsInRoom(snapshot.state) {
        return;
      }
      var next := if isHealthy then Connected else Reconnecting;
      if machine.state != next && (machine.state == Connected || machine.state == Reconnecting) {
        var moved := machine.TransitionTo(next);
      }
      snapshot := snapshot.(state := machine.state, isHealthy := Some(isHealthy));
    }

    method OnHelperProcessExited(willAutoRestart: bool)
      modifies this, machine
      ensures Contents() == Next(old(Contents()), ExitEvent(willAutoRestart))
    {
      if snapshot.state == Idle || snapshot.state == Leaving {
        return;
      }
      isPolling := false;
      if IsInRoom(machine.state) {
        if machine.state != Reconnecting {
          var moved := machine.TransitionTo(Reconnecting);
        }
      }
      snapshot := snapshot.(state := Reconnecting, errorCode := Some(HELPER_DISCONNECTED));
      if !willAutoRestart || recovery.None? {
        PublishFault(HELPER_DISCONNECTED);
      }
    }

    /** The end of `RestartHelperAsync`, which never takes the gate. */
    method AfterHelperRestart()
      modifies this, machine
      ensures Contents() == Next(old(Contents()), RestartEvent)
    {
      if machine.state != Idle {
        PublishFault(HELPER_DISCONNECTED);
      }
    }
  }
}
