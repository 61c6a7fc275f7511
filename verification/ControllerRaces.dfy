/**
 * Pushed snapshots with their transition and their publication apart, as the controller's ungated handler runs on
 * the event pump beside the gated operations and the exit handler: Application/TerracottaController.cs.
 */
module ControllerRaces {
  import opened ControllerRuns
  import opened ControllerSpec
  import opened RoomStateMachine
  import opened Wrappers

  // ----- The two halves of a push -----

  predicate IsPublished(pushed: Snapshot) {
    pushed.state == Idle || pushed.state == Faulted || IsLive(pushed.state)
  }

  /** Up to the publication: polling is stopped where the room is over, and the machine moves as far as it may. */
  function PushMoved(c: Controller, pushed: Snapshot): Controller {
    if pushed.state == Idle then c.(isPolling := false, machine := Idle)
    else if pushed.state == Faulted then c.(isPolling := false, machine := Faulted)
    else if IsLive(pushed.state) && MayMove(c.machine, pushed.state) then c.(machine := pushed.state)
    else c
  }

  /** The publication, which looks at the machine as it then is. */
  function PushPublished(c: Controller, pushed: Snapshot): Controller {
    if pushed.state == Idle then c.(snapshot := IDLE)
    else if pushed.state == Faulted then c.(snapshot := pushed)
    else if IsLive(pushed.state) then
      c.(snapshot := pushed.(state := if c.machine == Diagnosing then Diagnosing else pushed.state), isPolling := true)
    else c
  }

  /** With nothing in between the halves are the whole handler. */
  lemma HalvesMakeAPush(c: Controller, pushed: Snapshot)
    ensures PushPublished(PushMoved(c, pushed), pushed) == SnapshotPushed(c, pushed)
  {
  }

  /** The machine stands where the publication of the snapshot leaves it in agreement. */
  predicate AwaitsPublication(machine: PluginState, pushed: Snapshot) {
    if pushed.state == Idle || pushed.state == Faulted then machine == pushed.state else IsInRoom(machine)
  }

  /** Whatever happened since the transition, a publication leaves the copies agreeing exactly then. */
  lemma PublicationAgreesExactly(c: Controller, pushed: Snapshot)
    requires IsPublished(pushed)
    ensures Agrees(PushPublished(c, pushed)) <==> AwaitsPublication(c.machine, pushed)
  {
  }

  // ----- Runs with a push under way -----

  /** One event pump delivers the pushes, so at most one is between its halves. */
  datatype Racing = Racing(controller: Controller, pending: Option<Snapshot>)

  datatype RaceEvent =
    | PushBegins(pushed: Snapshot)
    | PushEnds
    | Meanwhile(event: Event)

  const QUIET := Racing(STARTED, None)

  /** The pump's own handlers wait for the push under way; everything else may come in between. */
  predicate IsOfPump(e: Event) {
    e.SnapshotPush? || e.NetworkPush?
  }

  predicate RaceStep(r: Racing, e: RaceEvent, r': Racing) {
    match e
    case PushBegins(pushed) =>
      r.pending.None? && IsPublished(pushed) && r' == Racing(PushMoved(r.controller, pushed), Some(pushed))
    case PushEnds =>
      r.pending.Some? && r' == Racing(PushPublished(r.controller, r.pending.value), None)
    case Meanwhile(event) =>
      && CanHappen(r.controller, event) && (r.pending.Some? ==> !IsOfPump(event))
      && r' == r.(controller := Next(r.controller, event))
  }

  ghost predicate IsRace(rs: seq<Racing>, es: seq<RaceEvent>) {
    && |rs| == |es| + 1
    && rs[0] == QUIET
    && forall i :: 0 <= i < |es| ==> RaceStep(rs[i], es[i], rs[i + 1])
  }

  /** A publication finds the machine where it belongs; any other step outside a push is harmless. */
  predicate IsHarmlessRace(r: Racing, e: RaceEvent) {
    match e
    case PushBegins(_) => true
    case PushEnds => r.pending.Some? ==> AwaitsPublication(r.controller.machine, r.pending.value)
    case Meanwhile(event) => r.pending.None? ==> IsHarmless(r.controller, event)
  }

  /** Between pushes the copies agree. */
  predicate AgreesWhenQuiet(r: Racing) {
    && (r.pending.None? ==> Agrees(r.controller))
    && (r.pending.Some? ==> IsPublished(r.pending.value))
  }

  lemma RaceStepAgreesExactly(r: Racing, e: RaceEvent, r': Racing)
    requires AgreesWhenQuiet(r) && RaceStep(r, e, r')
    ensures AgreesWhenQuiet(r') <==> IsHarmlessRace(r, e)
  {
    match e
    case PushBegins(_) =>
    case PushEnds => PublicationAgreesExactly(r.controller, r.pending.value);
    case Meanwhile(event) =>
      if r.pending.None? {
        StepAgreesExactlyWhenHarmless(r.controller, event);
      }
  }

  /**
   * However operations, exits and restarts come between the halves of pushes, the copies agree whenever no push is
   * under way, as long as every publication finds the machine where it belongs.
   */
  lemma {:induction false} AgreementOnEveryRace(rs: seq<Racing>, es: seq<RaceEvent>, i: nat)
    requires IsRace(rs, es) && i < |rs|
    requires forall k :: 0 <= k < i ==> IsHarmlessRace(rs[k], es[k])
    ensures AgreesWhenQuiet(rs[i])
  {
    if i > 0 {
      AgreementOnEveryRace(rs, es, i - 1);
      RaceStepAgreesExactly(rs[i - 1], es[i - 1], rs[i]);
    }
  }

  /** A push that nothing comes between finds the machine where it belongs exactly when it is harmless as a whole. */
  lemma UndisturbedPushesAreHarmlessExactly(c: Controller, pushed: Snapshot)
    requires IsPublished(pushed)
    ensures AwaitsPublication(PushMoved(c, pushed).machine, pushed) <==> IsHarmless(c, SnapshotPush(pushed))
  {
  }

  /** A pushed fault that a leave overtakes: the publication comes after the room was left. */
  lemma OvertakenPushesDisagree(r: Racing, pushed: Snapshot, left: Racing)
    requires r.pending == Some(pushed) && pushed.state == Faulted && r.controller.machine == Faulted
    requires RaceStep(r, Meanwhile(LeaveEvent), left)
    ensures left.controller.machine == Idle && !IsHarmlessRace(left, PushEnds)
    ensures !Agrees(PushPublished(left.controller, pushed))
  {
  }
}
