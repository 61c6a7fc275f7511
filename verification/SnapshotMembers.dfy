/**
 * The snapshot of room/service.rs beside what its subscribers have been told: the members it lists, and the network
 * and lifecycle state it shows.
 */
module SnapshotMembers {
  import opened EventReplay
  import opened RoomSpec
  import opened RoomTypes
  import opened Wrappers

  // ----- Members -----

  /** The snapshot lists the members that the service holds known. */
  predicate ListsKnown(s: Service) {
    MapOf(s.state.members) == s.known
  }

  predicate BringsMembers(answer: Result<BackendRefresh, RoomError>) {
    answer.Success? && answer.value.members.Some?
  }

  /** A room is entered or left, or a poll of a live room brings a member list. */
  predicate Relists(s: Service, op: Op, s': Service) {
    match op
    case CreateOp(_, _) | JoinOp(_, _) => s.state.state == Idle && s'.state.state == Connected
    case PollOp(answer) => IsActive(s.state.state) && BringsMembers(answer)
    case LanOp(address, changed, refresh) => MayChangeLan(s, address) && changed.Success? && BringsMembers(refresh)
    case DiagnoseOp(_, _) => false
    case LeaveOp(_) => s'.state.state == Idle
  }

  /**
   * A diagnosis may list other members than the last poll without telling anybody, and a room that faults lists
   * nobody.
   */
  predicate KeepsList(s: Service, op: Op) {
    match op
    case DiagnoseOp(sampled, fallback) =>
      s.state.state == Connected || s.state.state == Reconnecting ==>
        if sampled.Success? && sampled.value.network.Some? then
          BringsMembers(sampled) ==> MapOf(sampled.value.members.value) == s.known
        else fallback.Failure? ==> s.known == map[]
    case LeaveOp(left) => left.Failure? && s.state.state != Idle && s.state.state != Leaving ==> s.known == map[]
    case _ => true
  }

  lemma PollsRelist(s: Service, answer: Result<BackendRefresh, RoomError>, s': Service)
    requires Polled(s, answer, s') && IsActive(s.state.state)
    ensures BringsMembers(answer) ==> s'.state.members == answer.value.members.value && ListsKnown(s')
    ensures !BringsMembers(answer) ==> s'.state.members == s.state.members && s'.known == s.known
  {
  }

  lemma RelistingLists(s: Service, op: Op, s': Service)
    requires ServiceInvariant(s) && Step(s, op, s') && Relists(s, op, s')
    ensures ListsKnown(s')
  {
    match op
    case PollOp(answer) => PollsRelist(s, answer, s');
    case LanOp(_, _, refresh) => PollsRelist(s, refresh, s');
    case _ =>
  }

  /** From a snapshot that lists the known members, an operation leads to one exactly when it keeps the list. */
  lemma StepListsExactly(s: Service, op: Op, s': Service)
    requires ServiceInvariant(s) && ListsKnown(s) && Step(s, op, s')
    ensures ListsKnown(s') <==> KeepsList(s, op)
  {
    match op
    case PollOp(answer) =>
      if IsActive(s.state.state) {
        PollsRelist(s, answer, s');
      }
    case LanOp(address, changed, refresh) =>
      if MayChangeLan(s, address) && changed.Success? {
        PollsRelist(s, refresh, s');
      }
    case _ =>
  }

  lemma NextOperationLists(states: seq<Service>, ops: seq<Op>, i: nat)
    requires IsRun(states, ops) && i < |ops|
    ensures Relists(states[i], ops[i], states[i + 1]) ==> ListsKnown(states[i + 1])
    ensures ListsKnown(states[i]) && KeepsList(states[i], ops[i]) ==> ListsKnown(states[i + 1])
  {
    InvariantOnEveryRun(states, ops, i);
    assert Step(states[i], ops[i], states[i + 1]);
    if Relists(states[i], ops[i], states[i + 1]) {
      RelistingLists(states[i], ops[i], states[i + 1]);
    } else if ListsKnown(states[i]) {
      StepListsExactly(states[i], ops[i], states[i + 1]);
    }
  }

  /**
   * On every run, from the start or the last entry, departure or poll with a member list on, the snapshot lists the
   * known members as long as every operation keeps the list.
   */
  lemma SnapshotsListTheKnown(states: seq<Service>, ops: seq<Op>, i: nat, j: nat)
    requires IsRun(states, ops) && i <= j < |states|
    requires i > 0 ==> Relists(states[i - 1], ops[i - 1], states[i])
    requires forall k :: i <= k < j ==> KeepsList(states[k], ops[k])
    ensures MapOf(states[j].state.members) == states[j].known
  {
    if i > 0 {
      NextOperationLists(states, ops, i - 1);
    }
    forall k | i <= k < j && ListsKnown(states[k])
      ensures ListsKnown(states[k + 1])
    {
      NextOperationLists(states, ops, k);
    }
    ListedThroughout(states, i, j);
  }

  lemma {:induction false} ListedThroughout(states: seq<Service>, i: nat, j: nat)
    requires i <= j < |states| && ListsKnown(states[i])
    requires forall k :: i <= k < j && ListsKnown(states[k]) ==> ListsKnown(states[k + 1])
    ensures ListsKnown(states[j])
    decreases j
  {
    if i < j {
      ListedThroughout(states, i, j - 1);
      assert ListsKnown(states[j - 1 + 1]);
    }
  }

  /** With safe lists, what the event log replays to is then what the snapshot lists. */
  lemma SnapshotsListTheReplayed(states: seq<Service>, ops: seq<Op>, i: nat, j: nat)
    requires IsRun(states, ops) && i <= j < |states|
    requires i > 0 ==> Relists(states[i - 1], ops[i - 1], states[i])
    requires forall k :: i <= k < j ==> KeepsList(states[k], ops[k])
    requires forall k :: 0 <= k < j ==> IsSafeStep(states[k], ops[k])
    ensures MapOf(states[j].state.members) == Replay(NOBODY, states[j].log).members
  {
    SnapshotsListTheKnown(states, ops, i, j);
    ReplayOnEveryRun(states, ops, j);
  }

  // ----- Network and lifecycle -----

  /** What an operation published. */
  function News(s: Service, s': Service): seq<RoomEvent>
    requires |s.log| <= |s'.log|
  {
    s'.log[|s.log|..]
  }

  /** The events say what has changed of the network and the state, and all of it, by showing the new values. */
  ghost predicate TellTheChanges(news: seq<RoomEvent>, before: RoomSnapshot, after: RoomSnapshot) {
    && (forall e :: e in news && e.NetworkUpdated? ==>
          after.network == Some(e.network) && before.network != after.network)
    && (before.network != after.network ==>
          after.network.Some? && NetworkUpdated(after.network.value) in news)
    && (forall e :: e in news && e.StateChanged? ==>
          && before.state != after.state
          && e.snapshot == after.(members := before.members, localAddress := before.localAddress))
    && (before.state != after.state ==> exists e :: e in news && e.StateChanged?)
  }

  lemma TailTellsTheChanges(state: RoomSnapshot, refresh: BackendRefresh)
    ensures TellTheChanges(PollTail(state, refresh), state, AfterRefresh(state, refresh))
  {
    var tail := PollTail(state, refresh);
    if StateNews(state, refresh) != [] {
      assert StateNews(state, refresh)[0] in tail;
    }
  }

  lemma PeersTellNothingElse(
      peers: seq<RoomEvent>, tail: seq<RoomEvent>, before: RoomSnapshot, after: RoomSnapshot)
    requires TellTheChanges(tail, before, after)
    requires forall e :: e in peers ==> PeerId(e).Some?
    ensures TellTheChanges(peers + tail, before, after)
  {
    forall e | e in peers
      ensures !e.NetworkUpdated? && !e.StateChanged?
    {
      assert PeerId(e).Some?;
    }
    assert forall e :: e in peers + tail <==> e in peers || e in tail;
  }

  lemma PollsTellTheChanges(s: Service, answer: Result<BackendRefresh, RoomError>, s': Service)
    requires Polled(s, answer, s')
    ensures |s.log| <= |s'.log| && TellTheChanges(News(s, s'), s.state, s'.state)
  {
    if answer.Success? && IsActive(s.state.state) {
      var peers := PeersOfPoll(s, answer.value, s');
      if answer.value.members.Some? {
        DiffEventsArePeerEvents(s.known, answer.value.members.value, peers);
      }
      TailTellsTheChanges(s.state, answer.value);
      PeersTellNothingElse(peers, PollTail(s.state, answer.value), s.state, s'.state);
      NewsOfParts(s, s', peers, PollTail(s.state, answer.value));
    }
  }

  lemma NewsOfParts(s: Service, s': Service, peers: seq<RoomEvent>, tail: seq<RoomEvent>)
    requires s'.log == s.log + peers + tail
    ensures News(s, s') == peers + tail
  {
  }

  /**
   * Every operation of a run but a diagnosis tells the changes: a poll as above, an entry or departure by publishing
   * the new snapshot whole. A diagnosis, a refusal and a room that faults publish nothing.
   */
  lemma StepsTellTheChanges(states: seq<Service>, ops: seq<Op>, i: nat)
    requires IsRun(states, ops) && i < |ops|
    ensures |states[i].log| <= |states[i + 1].log|
    ensures var s, s' := states[i], states[i + 1];
      match ops[i]
      case PollOp(_) | LanOp(_, _, _) => TellTheChanges(News(s, s'), s.state, s'.state)
      case DiagnoseOp(_, _) => News(s, s') == []
      case _ =>
        News(s, s')
        == if s'.state.state != s.state.state && s'.state.state != Faulted then [StateChanged(s'.state)] else []
  {
    var s, s' := states[i], states[i + 1];
    InvariantOnEveryRun(states, ops, i);
    assert Step(s, ops[i], s');
    match ops[i]
    case PollOp(answer) => PollsTellTheChanges(s, answer, s');
    case LanOp(address, changed, refresh) =>
      if MayChangeLan(s, address) && changed.Success? {
        PollsTellTheChanges(s, refresh, s');
      }
    case _ =>
  }
}
