/** When the plugin's state machine and its published snapshot agree: Application/TerracottaController.cs. */
module ControllerRuns {
  import opened ControllerSpec
  import opened RoomStateMachine
  import opened Wrappers

  /** The two copies show the same state, connected and reconnecting not told apart. */
  predicate Agrees(c: Controller) {
    c.machine == c.snapshot.state || (IsLive(c.machine) && IsLive(c.snapshot.state))
  }

  lemma FaultsAlwaysAgree(c: Controller, code: string)
    ensures MayMove(c.machine, Faulted)
    ensures Agrees(Fault(c, code))
  {
  }

  /**
   * The steps that keep the copies together: all but the publication of a live room that the machine cannot
   * follow, and of a crash that it cannot follow and that nothing turns into a fault.
   */
  predicate IsHarmless(c: Controller, e: Event) {
    match e
    case StatusAnswerEvent(reply) => reply.Replied? && IsLive(reply.value.state) ==> IsInRoom(c.machine)
    case SnapshotPush(pushed) =>
      IsLive(pushed.state) ==> IsInRoom(c.machine) || c.machine == Creating || c.machine == Joining
    case ExitEvent(willAutoRestart) =>
      || c.snapshot.state == Idle || c.snapshot.state == Leaving
      || IsInRoom(c.machine)
      || !(willAutoRestart && c.recovery.Some?)
    case _ => true
  }

  predicate IsRequest(e: Event) {
    || e.CreateEvent? || e.JoinRefusedEvent? || e.JoinEvent? || e.LeaveEvent? || e.StatusEvent? || e.DiagnoseEvent?
    || e.RecoverEvent?
  }

  predicate IsAnswer(e: Event) {
    || e.EntryEvent? || e.LeftEvent? || e.ConclusionEvent? || e.StatusAnswerEvent? || e.DiagnosisEvent?
    || e.RecoverStoppedEvent? || e.RecoveredEvent?
  }

  lemma RequestsAgree(c: Controller, e: Event)
    requires Agrees(c) && CanHappen(c, e) && IsRequest(e)
    ensures Agrees(Next(c, e))
  {
    if e.CreateEvent? {
      CreationsAgree(c, e.requested, e.selection);
    }
  }

  lemma CreationsAgree(c: Controller, requested: Option<string>, selection: Selection)
    ensures Agrees(CreateAsked(c, requested, selection))
  {
  }

  lemma AnswersAgreeExactlyWhenHarmless(c: Controller, e: Event)
    requires Agrees(c) && CanHappen(c, e) && IsAnswer(e)
    ensures Agrees(Next(c, e)) <==> IsHarmless(c, e)
  {
    match e
    case EntryEvent(reply) => EntriesAgree(c, c.ongoing.value.intent, reply);
    case DiagnosisEvent(reply) => DiagnosesAgree(c, c.ongoing.value.previous, reply);
    case _ =>
  }

  lemma EntriesAgree(c: Controller, intent: RecoveryIntent, reply: Reply<Snapshot>)
    ensures Agrees(c) || !reply.Canceled? ==> Agrees(EntryAnswered(c, intent, reply))
  {
  }

  lemma DiagnosesAgree(c: Controller, previous: PluginState, reply: Reply<bool>)
    ensures Agrees(c) || !reply.Canceled? ==> Agrees(DiagnoseAnswered(c, previous, reply))
  {
  }

  lemma EventsAgreeExactlyWhenHarmless(c: Controller, e: Event)
    requires Agrees(c) && !IsRequest(e) && !IsAnswer(e)
    ensures Agrees(Next(c, e)) <==> IsHarmless(c, e)
  {
  }

  /** From agreement, a step keeps it exactly when it is harmless. */
  lemma StepAgreesExactlyWhenHarmless(c: Controller, e: Event)
    requires Agrees(c) && CanHappen(c, e)
    ensures Agrees(Next(c, e)) <==> IsHarmless(c, e)
  {
    if IsRequest(e) {
      RequestsAgree(c, e);
    } else if IsAnswer(e) {
      AnswersAgreeExactlyWhenHarmless(c, e);
    } else {
      EventsAgreeExactlyWhenHarmless(c, e);
    }
  }

  /** An operation that was neither a status request nor cancelled has ended. */
  predicate IsOutcome(c: Controller, e: Event) {
    match e
    case EntryEvent(reply) => !reply.Canceled?
    case LeftEvent(reply) => !reply.Canceled?
    case DiagnosisEvent(reply) => !reply.Canceled?
    case RecoveredEvent(reply) => !reply.Canceled?
    case ConclusionEvent(reply) => reply.Threw?
    case RecoverStoppedEvent(reply) => reply.Threw?
    case CreateEvent(_, _) => true
    case JoinEvent(_, _) => true
    case _ => false
  }

  /** Such an outcome puts the copies together whatever has happened to them meanwhile. */
  lemma OutcomesRestoreAgreement(c: Controller, e: Event)
    requires CanHappen(c, e) && IsOutcome(c, e)
    ensures Agrees(Next(c, e))
  {
    match e
    case CreateEvent(requested, selection) => CreationsAgree(c, requested, selection);
    case EntryEvent(reply) => EntriesAgree(c, c.ongoing.value.intent, reply);
    case DiagnosisEvent(reply) => DiagnosesAgree(c, c.ongoing.value.previous, reply);
    case _ =>
  }

  ghost predicate IsControllerRun(cs: seq<Controller>, es: seq<Event>) {
    && |cs| == |es| + 1
    && cs[0] == STARTED
    && forall i :: 0 <= i < |es| ==> CanHappen(cs[i], es[i]) && cs[i + 1] == Next(cs[i], es[i])
  }

  /** On every run of harmless steps the copies agree throughout. */
  lemma {:induction false} AgreementOnEveryRun(cs: seq<Controller>, es: seq<Event>, i: nat)
    requires IsControllerRun(cs, es) && i < |cs|
    requires forall k :: 0 <= k < i ==> IsHarmless(cs[k], es[k])
    ensures Agrees(cs[i])
  {
    if i > 0 {
      AgreementOnEveryRun(cs, es, i - 1);
      StepAgreesExactlyWhenHarmless(cs[i - 1], es[i - 1]);
    }
  }

  /** Since the last outcome only harmless steps: then the copies agree, however far they had drifted before. */
  lemma {:induction false} AgreementSinceOutcome(cs: seq<Controller>, es: seq<Event>, i: nat, j: nat)
    requires IsControllerRun(cs, es) && i < j < |cs| && IsOutcome(cs[i], es[i])
    requires forall k :: i < k < j ==> IsHarmless(cs[k], es[k])
    ensures Agrees(cs[j])
    decreases j
  {
    if j == i + 1 {
      OutcomesRestoreAgreement(cs[i], es[i]);
    } else {
      AgreementSinceOutcome(cs, es, i, j - 1);
      StepAgreesExactlyWhenHarmless(cs[j - 1], es[j - 1]);
    }
  }

  /** Persisting fails after a room was entered, the fault is left, and the helper still pushes before it is stopped. */
  function LatePush(session: string, lan: string, connected: Snapshot, code: string, pushed: Snapshot): seq<Event> {
    [
      CreateEvent(None, Ready(session, lan)), EntryEvent(Replied(connected)), ConclusionEvent(Threw(code)),
      LeaveEvent, SnapshotPush(pushed), ConclusionEvent(Replied(())), LeaveEvent
    ]
  }

  /** A live snapshot pushed after the room was left is published, and leaving again does not take it back. */
  lemma LatePushesOutliveLeaving(session: string, lan: string, connected: Snapshot, code: string, pushed: Snapshot)
    returns (cs: seq<Controller>)
    requires IsLive(pushed.state)
    ensures IsControllerRun(cs, LatePush(session, lan, connected, code, pushed))
    ensures cs[4].machine == Idle && cs[4].snapshot == IDLE
    ensures !IsHarmless(cs[4], SnapshotPush(pushed))
    ensures cs[7].ongoing.None? && cs[7].machine == Idle && cs[7].snapshot == pushed && !Agrees(cs[7])
  {
    var c1, c2, c3 := FailedPersistFaults(session, lan, connected, code);
    var c4, c5, c6, c7 := LeftThenPushed(c3, pushed);
    cs := [STARTED, c1, c2, c3, c4, c5, c6, c7];
  }

  predicate Steps(c: Controller, e: Event, c': Controller) {
    CanHappen(c, e) && c' == Next(c, e)
  }

  lemma FailedPersistFaults(session: string, lan: string, connected: Snapshot, code: string)
    returns (c1: Controller, c2: Controller, c3: Controller)
    ensures Steps(STARTED, CreateEvent(None, Ready(session, lan)), c1)
    ensures Steps(c1, EntryEvent(Replied(connected)), c2) && Steps(c2, ConclusionEvent(Threw(code)), c3)
    ensures c3.machine == Faulted && c3.ongoing.None?
  {
    c1 := CreateAsked(STARTED, None, Ready(session, lan));
    c2 := EntryAnswered(c1, c1.ongoing.value.intent, Replied(connected));
    c3 := Concluded(c2, Threw(code));
  }

  lemma LeftThenPushed(c3: Controller, pushed: Snapshot)
    returns (c4: Controller, c5: Controller, c6: Controller, c7: Controller)
    requires c3.machine == Faulted && c3.ongoing.None? && IsLive(pushed.state)
    ensures Steps(c3, LeaveEvent, c4) && Steps(c4, SnapshotPush(pushed), c5)
    ensures Steps(c5, ConclusionEvent(Replied(())), c6) && Steps(c6, LeaveEvent, c7)
    ensures c4.machine == Idle && c4.snapshot == IDLE
    ensures c7.ongoing.None? && c7.machine == Idle && c7.snapshot == pushed
  {
    c4 := LeaveAsked(c3);
    c5 := SnapshotPushed(c4, pushed);
    c6 := Concluded(c5, Replied(()));
    c7 := LeaveAsked(c6);
  }

  /** A room left is never recovered: no crash after it starts a recovery until another room is entered. */
  lemma LeavingForgetsTheRoom(cs: seq<Controller>, es: seq<Event>, i: nat, j: nat)
    requires IsControllerRun(cs, es) && i < j < |cs| && es[i].LeaveEvent?
    requires forall k :: i < k < j ==> !es[k].EntryEvent?
    ensures cs[j].recovery.None?
    decreases j
  {
    if j > i + 1 {
      LeavingForgetsTheRoom(cs, es, i, j - 1);
    }
  }

  // ----- What recovery goes by -----

  /** An intent names what re-entering a room in its role takes. */
  predicate IsUsable(intent: RecoveryIntent) {
    match intent.role
    case Host => intent.gameSessionId.Some? && intent.lanAddress.Some?
    case Member => intent.roomCode.Some?
    case NoRole => false
  }

  /** The intent of an entry under way and the one remembered are usable. */
  predicate RemembersUsably(c: Controller) {
    && (c.recovery.Some? ==> IsUsable(c.recovery.value))
    && (c.ongoing.Some? && c.ongoing.value.CreateCall? ==>
          IsUsable(c.ongoing.value.intent) && c.ongoing.value.intent.role == Host)
    && (c.ongoing.Some? && c.ongoing.value.JoinCall? ==>
          IsUsable(c.ongoing.value.intent) && c.ongoing.value.intent.role == Member)
  }

  lemma StepRemembersUsably(c: Controller, e: Event)
    requires RemembersUsably(c) && CanHappen(c, e)
    ensures RemembersUsably(Next(c, e))
  {
    if IsRequest(e) {
      RequestRemembersUsably(c, e);
    } else if IsAnswer(e) {
      AnswerRemembersUsably(c, e);
    }
  }

  lemma RequestRemembersUsably(c: Controller, e: Event)
    requires RemembersUsably(c) && CanHappen(c, e) && IsRequest(e)
    ensures RemembersUsably(Next(c, e))
  {
  }

  lemma AnswerRemembersUsably(c: Controller, e: Event)
    requires RemembersUsably(c) && CanHappen(c, e) && IsAnswer(e)
    ensures RemembersUsably(Next(c, e))
  {
  }

  /** Whatever the helper answered, a remembered room can be asked for again: a host's port, a member's code. */
  lemma {:induction false} RecoveryIsUsableOnEveryRun(cs: seq<Controller>, es: seq<Event>, i: nat)
    requires IsControllerRun(cs, es) && i < |cs|
    ensures RemembersUsably(cs[i])
  {
    if i > 0 {
      RecoveryIsUsableOnEveryRun(cs, es, i - 1);
      StepRemembersUsably(cs[i - 1], es[i - 1]);
    }
  }

  /**
   * On every run a room entered is remembered as what was entered: the helper's code where it gave one, else the
   * requested one; a host's session and address as they were asked for, and a member's as the helper gave them.
   */
  lemma EntryIsRemembered(cs: seq<Controller>, es: seq<Event>, i: nat, connected: Snapshot)
    requires IsControllerRun(cs, es) && i < |es| && es[i] == EntryEvent(Replied(connected))
    requires MayMove(cs[i].machine, Connected)
    ensures cs[i].ongoing.Some? && (cs[i].ongoing.value.CreateCall? || cs[i].ongoing.value.JoinCall?)
    ensures var intent, recovery := cs[i].ongoing.value.intent, cs[i + 1].recovery;
      && recovery.Some? && IsUsable(recovery.value) && recovery.value.role == intent.role
      && (connected.roomCode.Some? ==> recovery.value.roomCode == connected.roomCode)
      && (recovery.value.role == Host ==>
            && cs[i].ongoing.value.CreateCall?
            && recovery.value.gameSessionId == intent.gameSessionId
            && recovery.value.lanAddress == intent.lanAddress)
      && (recovery.value.role == Member && connected.roomCode.None? ==> recovery.value.roomCode == intent.roomCode)
      && (recovery.value.role == Member ==>
            && recovery.value.lanAddress == connected.localAddress
            && (connected.gameSessionId.Some? ==> recovery.value.gameSessionId == connected.gameSessionId)
            && (connected.gameSessionId.None? ==> recovery.value.gameSessionId == intent.gameSessionId))
  {
    RecoveryIsUsableOnEveryRun(cs, es, i);
    RecoveryIsUsableOnEveryRun(cs, es, i + 1);
  }

  /** The texts that recovery goes by are not blank. */
  predicate CarriesText(e: Event) {
    match e
    case CreateEvent(_, Ready(session, lan)) => !IsBlank(Some(session)) && !IsBlank(Some(lan))
    case JoinEvent(code, _) => !IsBlank(Some(code))
    case EntryEvent(Replied(connected)) => connected.roomCode.Some? ==> !IsBlank(connected.roomCode)
    case _ => true
  }

  /** A recovery takes up an intent that was remembered when it was queued. */
  ghost predicate TakesUpRemembered(cs: seq<Controller>, es: seq<Event>, k: nat)
    requires k < |es| && k < |cs|
  {
    es[k].RecoverEvent? ==> exists j :: 0 <= j <= k && cs[j].recovery == Some(es[k].intent)
  }

  /** What is remembered, and what is being entered or recovered, is complete. */
  predicate IsRecoverable(c: Controller) {
    && (c.recovery.Some? ==> IsComplete(c.recovery.value))
    && match c.ongoing
       case Some(CreateCall(intent)) => IsComplete(intent) && intent.role == Host
       case Some(JoinCall(intent)) => IsComplete(intent) && intent.role == Member
       case Some(RecoverStopCall(intent)) => IsComplete(intent)
       case _ => true
  }

  lemma RememberedIsComplete(intent: RecoveryIntent, connected: Snapshot)
    requires IsComplete(intent) && (intent.role == Host || intent.role == Member)
    requires connected.roomCode.Some? ==> !IsBlank(connected.roomCode)
    ensures IsComplete(Remembered(intent, connected))
  {
  }

  lemma StepKeepsRecoverable(c: Controller, e: Event)
    requires IsRecoverable(c) && CanHappen(c, e) && CarriesText(e)
    requires e.RecoverEvent? ==> IsComplete(e.intent)
    ensures IsRecoverable(Next(c, e))
  {
    if IsRequest(e) {
      RequestKeepsRecoverable(c, e);
    } else if IsAnswer(e) {
      AnswerKeepsRecoverable(c, e);
    }
  }

  lemma RequestKeepsRecoverable(c: Controller, e: Event)
    requires IsRecoverable(c) && CanHappen(c, e) && CarriesText(e) && IsRequest(e)
    requires e.RecoverEvent? ==> IsComplete(e.intent)
    ensures IsRecoverable(Next(c, e))
  {
  }

  lemma AnswerKeepsRecoverable(c: Controller, e: Event)
    requires IsRecoverable(c) && CanHappen(c, e) && CarriesText(e) && IsAnswer(e)
    ensures IsRecoverable(Next(c, e))
  {
    if e.EntryEvent? && e.entered.Replied? {
      RememberedIsComplete(c.ongoing.value.intent, e.entered.value);
    }
  }

  lemma {:induction false} RecoverableOnEveryRun(cs: seq<Controller>, es: seq<Event>, i: nat)
    requires IsControllerRun(cs, es) && i < |cs|
    requires forall k :: 0 <= k < i ==> CarriesText(es[k]) && TakesUpRemembered(cs, es, k)
    ensures IsRecoverable(cs[i])
  {
    if i > 0 {
      RecoverableOnEveryRun(cs, es, i - 1);
      if es[i - 1].RecoverEvent? {
        var j :| 0 <= j <= i - 1 && cs[j].recovery == Some(es[i - 1].intent);
        RecoverableOnEveryRun(cs, es, j);
      }
      StepKeepsRecoverable(cs[i - 1], es[i - 1]);
    }
  }

  /** With texts that are not blank, no recovery fails because its intent is incomplete: it always gets to its call. */
  lemma RecoveriesReachTheHelper(cs: seq<Controller>, es: seq<Event>, i: nat)
    requires IsControllerRun(cs, es) && i < |es| && es[i] == RecoverStoppedEvent(Replied(()))
    requires forall k :: 0 <= k < i ==> CarriesText(es[k]) && TakesUpRemembered(cs, es, k)
    ensures cs[i + 1] == cs[i].(ongoing := Some(RecoverCall))
  {
    RecoverableOnEveryRun(cs, es, i);
  }
}
