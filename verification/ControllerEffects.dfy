/** What sequences of the controller's operations come to: Application/TerracottaController.cs. */
module ControllerEffects {
  import opened ControllerRuns
  import opened ControllerSpec
  import opened RoomStateMachine
  import opened Text
  import opened Wrappers

  // ----- Leaving -----

  /** A leave that nothing comes between and that is answered. */
  function AfterLeaving(c: Controller): Controller
    requires c.ongoing.None?
  {
    var asked := Next(c, LeaveEvent);
    match asked.ongoing
    case Some(LeaveCall) => Next(asked, LeftEvent(Replied(())))
    case Some(StopCall) => Next(asked, ConclusionEvent(Replied(())))
    case _ => asked
  }

  /**
   * Leaving brings everything back to where the plugin started, whatever had happened, except in the middle of a
   * diagnosis, which cannot be left, and where the machine is idle and the snapshot is not.
   */
  lemma LeavingRestoresTheStartExactly(c: Controller)
    requires c.ongoing.None?
    ensures AfterLeaving(c) == STARTED <==> c.machine != Diagnosing && (c.machine == Idle ==> c.snapshot == IDLE)
    ensures c.machine == Diagnosing ==> AfterLeaving(c).machine == Faulted && AfterLeaving(c).recovery.None?
  {
  }

  // ----- Entering -----

  /** Waiting for a game or its LAN port leaves a later creation as it would have been. */
  lemma WaitingLosesNothing(
      c: Controller, requested: Option<string>, missing: Selection, again: Option<string>, session: string, lan: string)
    requires c.ongoing.None? && c.machine == Idle && (missing.NoGame? || missing.NoLan?)
    ensures var waiting := Next(c, CreateEvent(requested, missing));
      && waiting.ongoing.None? && waiting.machine == waiting.snapshot.state
      && waiting.machine == (if missing.NoGame? then WaitingForGame else WaitingForLan)
      && waiting.snapshot.errorCode == Some(if missing.NoGame? then "TC-GAME-001" else "TC-GAME-002")
      && waiting.pendingCreate == Some(if missing.NoGame? then requested else Some(missing.session))
      && Next(waiting, CreateEvent(again, Ready(session, lan))) == Next(c, CreateEvent(again, Ready(session, lan)))
  {
  }

  /** What an answered and persisted entry comes to. */
  function Entered(c: Controller, e: Event, room: Snapshot): Controller
    requires c.ongoing.None? && c.machine == Idle && (e.JoinEvent? || (e.CreateEvent? && e.selection.Ready?))
  {
    Next(Next(Next(c, e), EntryEvent(Replied(room))), ConclusionEvent(Replied(())))
  }

  /**
   * The room is shown as the helper has it and polled, and what is remembered for a recovery is the request, with
   * what only the helper knows filled in: the code of a hosted room, the address of a joined one.
   */
  lemma EntriesShowTheRoom(c: Controller, e: Event, room: Snapshot)
    requires c.ongoing.None? && c.machine == Idle && (e.JoinEvent? || (e.CreateEvent? && e.selection.Ready?))
    ensures var entered := Entered(c, e, room);
      && entered.machine == Connected && entered.snapshot == room.(state := Connected)
      && entered.isPolling && entered.ongoing.None?
      && entered.pendingCreate == (if e.CreateEvent? then None else c.pendingCreate)
      && entered.recovery
         == Some(
              if e.CreateEvent? then
                RecoveryIntent(Host, room.roomCode, Some(e.selection.session), Some(e.selection.lan))
              else
                RecoveryIntent(
                  Member,
                  if room.roomCode.Some? then room.roomCode else Some(e.code),
                  if room.gameSessionId.Some? then room.gameSessionId else e.session,
                  room.localAddress))
      && AfterLeaving(entered) == STARTED
  {
    var asked := Next(c, e);
    var answered := Next(asked, EntryEvent(Replied(room)));
    assert answered.machine == Connected && answered.ongoing == Some(PersistCall);
    LeavingRestoresTheStartExactly(Next(answered, ConclusionEvent(Replied(()))));
  }

  /** An entry that fails leaves the request on show with the error, the gate free and what was remembered. */
  lemma FailedEntriesShowTheRequest(c: Controller, e: Event, code: string)
    requires c.ongoing.None? && c.machine == Idle
    requires e.JoinEvent? || (e.CreateEvent? && e.selection.Ready?)
    ensures var asked := Next(c, e);
      && CanHappen(asked, EntryEvent(Threw(code)))
      && var failed := Next(asked, EntryEvent(Threw(code)));
         && failed.machine == Faulted && failed.ongoing.None? && failed.recovery == c.recovery
         && failed.snapshot
            == if e.JoinEvent?
               then Snapshot(Faulted, Member, Some(e.code), None, e.session, None, [], Some(code))
               else
                 Snapshot(Faulted, Host, None, Some(e.selection.lan), Some(e.selection.session), None, [], Some(code))
  {
  }

  // ----- Diagnosing -----

  /** A diagnosis returns to the live state it came from, whatever network is pushed meanwhile, and shows its result. */
  lemma DiagnosesReturn(c: Controller, pushed: bool, isHealthy: bool)
    requires c.ongoing.None? && IsLive(c.machine) && IsInRoom(c.snapshot.state)
    ensures var asked := Next(c, DiagnoseEvent);
      && asked.machine == Diagnosing && asked.snapshot == c.snapshot.(state := Diagnosing)
      && Next(asked, NetworkPush(pushed)) == asked.(snapshot := asked.snapshot.(isHealthy := Some(pushed)))
      && CanHappen(asked, DiagnosisEvent(Replied(isHealthy)))
      && Next(asked, DiagnosisEvent(Replied(isHealthy)))
         == c.(snapshot := c.snapshot.(state := c.machine, isHealthy := Some(isHealthy)))
      && Next(Next(asked, NetworkPush(pushed)), DiagnosisEvent(Replied(isHealthy)))
         == Next(asked, DiagnosisEvent(Replied(isHealthy)))
  {
  }

  // ----- Crashes -----

  /** In a room a crash is shown at once: as a reconnection if the room will be recovered, and as a fault if not. */
  lemma CrashesAreShown(c: Controller, willAutoRestart: bool)
    requires IsInRoom(c.machine) && c.snapshot.state != Idle && c.snapshot.state != Leaving
    ensures var c' := Next(c, ExitEvent(willAutoRestart));
      && c'.machine == (if willAutoRestart && c.recovery.Some? then Reconnecting else Faulted)
      && c'.snapshot == c.snapshot.(state := c'.machine, errorCode := Some("TC-IPC-002"))
      && !c'.isPolling && c'.recovery == c.recovery && c'.ongoing == c.ongoing
  {
  }

  /** A recovery that is answered puts the room back, as the helper then has it and polled as before. */
  lemma RecoveriesPutTheRoomBack(c: Controller, room: Snapshot)
    requires c.ongoing.None? && IsInRoom(c.machine) && IsInRoom(c.snapshot.state)
    requires c.recovery.Some? && IsComplete(c.recovery.value)
    ensures var crashed := Next(c, ExitEvent(true));
      && CanHappen(crashed, RecoverEvent(c.recovery.value))
      && var stopping := Next(crashed, RecoverEvent(c.recovery.value));
      && CanHappen(stopping, RecoverStoppedEvent(Replied(())))
      && var asking := Next(stopping, RecoverStoppedEvent(Replied(())));
      && CanHappen(asking, RecoveredEvent(Replied(room)))
      && Next(asking, RecoveredEvent(Replied(room)))
         == c.(machine := Connected, snapshot := room.(state := Connected, errorCode := None), isPolling := true)
  {
  }

  /** A host is re-entered by its session and LAN address, a member by its room code; neither may be blank. */
  predicate CanBeRecovered(intent: RecoveryIntent) {
    if intent.role == Host then
      && intent.gameSessionId.Some? && Trim(intent.gameSessionId.value) != ""
      && intent.lanAddress.Some? && Trim(intent.lanAddress.value) != ""
    else intent.roomCode.Some? && Trim(intent.roomCode.value) != ""
  }

  /**
   * A recovery that does not get through, wherever it fails, is a fault that forgets the room, so it is not tried
   * again; one that is cancelled leaves everything but the gate.
   */
  lemma FailedRecoveriesForgetTheRoom(c: Controller, e: Event)
    requires e.RecoverStoppedEvent? || e.RecoveredEvent?
    requires CanHappen(c, e)
    ensures var c' := Next(c, e);
      if e == RecoverStoppedEvent(Canceled) || e == RecoveredEvent(Canceled) then c' == c.(ongoing := None)
      else if e.RecoverStoppedEvent? && e.stopped.Replied? && CanBeRecovered(c.ongoing.value.intent)
      then c' == c.(ongoing := Some(RecoverCall))
      else if e.RecoveredEvent? && e.recovered.Replied? && MayMove(c.machine, Connected)
      then c'.machine == Connected && c'.recovery == c.recovery && c'.ongoing.None?
      else c'.machine == Faulted && c'.snapshot.state == Faulted && c'.recovery.None? && c'.ongoing.None?
  {
  }

  /** A helper restarted by hand has lost any room there was. */
  lemma RestartsFaultRooms(c: Controller)
    ensures var c' := Next(c, RestartEvent);
      if c.machine == Idle then c' == c
      else c'.machine == Faulted && c'.snapshot == c.snapshot.(state := Faulted, errorCode := Some("TC-IPC-002"))
  {
  }

  // ----- Polling -----

  /** A room has been entered, recovered or pushed as live. */
  predicate StartsPolling(c: Controller, e: Event) {
    match e
    case EntryEvent(reply) => reply.Replied? && MayMove(c.machine, Connected)
    case RecoveredEvent(reply) => reply.Replied? && MayMove(c.machine, Connected)
    case SnapshotPush(pushed) => IsLive(pushed.state)
    case _ => false
  }

  /** The room is left, over, faulted on the helper's side, or the helper gone. */
  predicate StopsPolling(c: Controller, e: Event) {
    match e
    case LeaveEvent => true
    case SnapshotPush(pushed) => pushed.state == Idle || pushed.state == Faulted
    case StatusAnswerEvent(reply) => reply.Replied? && reply.value.state == Faulted
    case ExitEvent(_) => c.snapshot.state != Idle && c.snapshot.state != Leaving
    case _ => false
  }

  lemma StepPollsExactly(c: Controller, e: Event)
    requires CanHappen(c, e)
    ensures Next(c, e).isPolling <==> StartsPolling(c, e) || (c.isPolling && !StopsPolling(c, e))
  {
    if !IsRequest(e) && !IsAnswer(e) {
      PushesPollExactly(c, e);
    } else if IsAnswer(e) {
      AnswersPollExactly(c, e);
    }
  }

  lemma PushesPollExactly(c: Controller, e: Event)
    requires !IsRequest(e) && !IsAnswer(e)
    ensures Next(c, e).isPolling <==> StartsPolling(c, e) || (c.isPolling && !StopsPolling(c, e))
  {
  }

  lemma AnswersPollExactly(c: Controller, e: Event)
    requires CanHappen(c, e) && IsAnswer(e)
    ensures Next(c, e).isPolling <==> StartsPolling(c, e) || (c.isPolling && !StopsPolling(c, e))
  {
  }

  ghost predicate PollsSince(cs: seq<Controller>, es: seq<Event>, i: nat, j: nat)
    requires i < j <= |es| && |es| < |cs|
  {
    StartsPolling(cs[i], es[i]) && forall k :: i < k < j ==> !StopsPolling(cs[k], es[k])
  }

  lemma PolledLonger(cs: seq<Controller>, es: seq<Event>, i: nat, j: nat)
    requires i < j < |es| && |es| < |cs|
    ensures PollsSince(cs, es, i, j + 1) <==> PollsSince(cs, es, i, j) && !StopsPolling(cs[j], es[j])
  {
  }

  /** On every run the status is polled exactly from an event that starts it up to the next that stops it. */
  lemma {:induction false} PollsExactly(cs: seq<Controller>, es: seq<Event>, j: nat)
    requires IsControllerRun(cs, es) && j < |cs|
    ensures cs[j].isPolling <==> exists i: nat :: i < j && PollsSince(cs, es, i, j)
  {
    if j > 0 {
      var n := j - 1;
      PollsExactly(cs, es, n);
      StepPollsExactly(cs[n], es[n]);
      assert PollsSince(cs, es, n, j) <==> StartsPolling(cs[n], es[n]);
      if cs[j].isPolling && !StartsPolling(cs[n], es[n]) {
        var i: nat :| i < n && PollsSince(cs, es, i, n);
        PolledLonger(cs, es, i, n);
      }
      if i: nat :| i < n && PollsSince(cs, es, i, j) {
        PolledLonger(cs, es, i, n);
      }
    }
  }
}
