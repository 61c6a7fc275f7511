/**
 * The plugin's controller at the receiving end of the helper's events and replies:
 * Application/TerracottaController.cs on room/service.rs.
 */
module PluginFollowsHelper {
  import opened ControllerSpec
  import opened RoomStateMachine
  import opened Wrappers
  import EventReplay
  import HelperRuns
  import HelperSpec
  import RoomSpec
  import RoomTypes
  import SessionReplies
  import SessionRuns
  import SessionSpec
  import SnapshotMembers

  // ----- What the plugin reads -----

  /** Both sides name the states alike. */
  function Seen(state: RoomTypes.RoomState): PluginState {
    match state
    case Idle => Idle
    case Creating => Creating
    case Joining => Joining
    case Connected => Connected
    case Reconnecting => Reconnecting
    case Leaving => Leaving
    case Faulted => Faulted
    case Diagnosing => Diagnosing
  }

  /** How addresses and error codes are written. */
  datatype Wording = Wording(address: RoomTypes.AddressText -> string, code: RoomTypes.ErrorCode -> string)

  function Ids(members: seq<RoomTypes.RoomMember>): (ids: seq<string>)
    ensures |ids| == |members|
  {
    seq(|members|, i requires 0 <= i < |members| => members[i].id)
  }

  /** The helper's snapshot as the plugin deserialises it. */
  function Shown(snapshot: RoomTypes.RoomSnapshot, w: Wording): Snapshot {
    Snapshot(
      Seen(snapshot.state),
      match snapshot.role { case NoRole => NoRole case HostRole => Host case MemberRole => Member },
      snapshot.roomCode,
      if snapshot.localAddress.Some? then Some(w.address(snapshot.localAddress.value)) else None,
      snapshot.gameSessionId,
      if snapshot.network.Some? then Some(snapshot.network.value.isHealthy) else None,
      Ids(snapshot.members),
      if snapshot.errorCode.Some? then Some(w.code(snapshot.errorCode.value)) else None)
  }

  /** A push and what the controller does on it; peer events only have it ask for the status. */
  function Told(c: Controller, e: RoomTypes.RoomEvent, w: Wording): Controller {
    match e
    case NetworkUpdated(network) => Next(c, NetworkPush(network.isHealthy))
    case StateChanged(snapshot) => Next(c, SnapshotPush(Shown(snapshot, w)))
    case _ => c
  }

  function Follow(c: Controller, events: seq<RoomTypes.RoomEvent>, w: Wording): Controller {
    if events == [] then c else Told(Follow(c, events[..|events| - 1], w), events[|events| - 1], w)
  }

  lemma {:induction false} FollowInParts(
      c: Controller, a: seq<RoomTypes.RoomEvent>, b: seq<RoomTypes.RoomEvent>, w: Wording)
    ensures Follow(c, a + b, w) == Follow(Follow(c, a, w), b, w)
  {
    if b == [] {
      assert a + b == a;
    } else {
      assert (a + b)[..|a + b| - 1] == a + b[..|b| - 1];
      FollowInParts(c, a, b[..|b| - 1], w);
    }
  }

  lemma {:induction false} PeersChangeNothing(c: Controller, peers: seq<RoomTypes.RoomEvent>, w: Wording)
    requires forall e :: e in peers ==> EventReplay.PeerId(e).Some?
    ensures Follow(c, peers, w) == c
  {
    if peers != [] {
      assert peers[|peers| - 1] in peers;
      PeersChangeNothing(c, peers[..|peers| - 1], w);
    }
  }

  lemma FollowOne(c: Controller, e: RoomTypes.RoomEvent, w: Wording)
    ensures Follow(c, [e], w) == Told(c, e, w)
  {
    assert [e][..0] == [];
  }

  // ----- One push -----

  predicate IsInLiveRoom(c: Controller) {
    (c.machine == Connected || c.machine == Reconnecting)
    && (c.snapshot.state == Connected || c.snapshot.state == Reconnecting || c.snapshot.state == Diagnosing)
  }

  lemma LiveRoomsTakeThePush(c: Controller, isHealthy: bool)
    requires IsInLiveRoom(c)
    ensures var c' := Next(c, NetworkPush(isHealthy));
      && c'.machine == (if isHealthy then Connected else Reconnecting)
      && c' == c.(machine := c'.machine, snapshot := c.snapshot.(state := c'.machine, isHealthy := Some(isHealthy)))
  {
  }

  lemma PublishedNetworksDecide(
      states: seq<RoomSpec.Service>, ops: seq<RoomSpec.Op>, i: nat, network: RoomTypes.NetworkStatus)
    requires RoomSpec.IsRun(states, ops) && i < |ops| && ops[i].PollOp?
    requires |states[i].log| <= |states[i + 1].log|
    requires RoomTypes.NetworkUpdated(network) in SnapshotMembers.News(states[i], states[i + 1])
    ensures states[i + 1].state.network == Some(network)
    ensures states[i + 1].state.state == if network.isHealthy then RoomTypes.Connected else RoomTypes.Reconnecting
  {
    SnapshotMembers.StepsTellTheChanges(states, ops, i);
    assert RoomSpec.Step(states[i], ops[i], states[i + 1]);
    EventReplay.StateFollowsHealth(states, ops, i);
  }

  /**
   * When a poll publishes the network it sampled, a plugin in a live room that applies the push stands where the
   * helper then stands, with machine and snapshot alike: connected exactly when the sample was healthy.
   */
  lemma NetworkPushesAreFollowed(
      states: seq<RoomSpec.Service>, ops: seq<RoomSpec.Op>, i: nat, network: RoomTypes.NetworkStatus, c: Controller)
    requires RoomSpec.IsRun(states, ops) && i < |ops| && ops[i].PollOp?
    requires |states[i].log| <= |states[i + 1].log|
    requires RoomTypes.NetworkUpdated(network) in SnapshotMembers.News(states[i], states[i + 1])
    requires IsInLiveRoom(c)
    ensures var c' := Next(c, NetworkPush(network.isHealthy));
      && c'.machine == Seen(states[i + 1].state.state) && c'.snapshot.state == c'.machine
      && c'.machine == (if network.isHealthy then Connected else Reconnecting)
      && c'.snapshot.isHealthy == Some(network.isHealthy)
      && c'.snapshot == c.snapshot.(state := c'.machine, isHealthy := Some(network.isHealthy))
  {
    PublishedNetworksDecide(states, ops, i, network);
    LiveRoomsTakeThePush(c, network.isHealthy);
  }

  // ----- A whole room -----

  /** The plugin is where the helper is, if that is in a room or out of one. */
  predicate Follows(c: Controller, state: RoomTypes.RoomState) {
    match state
    case Connected => c.machine == Connected && c.snapshot.state == Connected
    case Reconnecting => c.machine == Reconnecting && c.snapshot.state == Reconnecting
    case Idle => c.machine == Idle && c.snapshot == IDLE && !c.isPolling
    case _ => true
  }

  predicate StandsAt(c: Controller, state: PluginState) {
    c.machine == state && c.snapshot.state == state
  }

  lemma NetworkIsTold(c: Controller, network: RoomTypes.NetworkStatus, w: Wording)
    requires StandsAt(c, Connected) || StandsAt(c, Reconnecting)
    ensures StandsAt(
              Told(c, RoomTypes.NetworkUpdated(network), w), if network.isHealthy then Connected else Reconnecting)
  {
  }

  lemma LiveSnapshotIsTold(c: Controller, snapshot: RoomTypes.RoomSnapshot, w: Wording)
    requires StandsAt(c, Connected) || StandsAt(c, Reconnecting)
    requires snapshot.state == RoomTypes.Connected || snapshot.state == RoomTypes.Reconnecting
    ensures StandsAt(Told(c, RoomTypes.StateChanged(snapshot), w), Seen(snapshot.state))
  {
  }

  lemma LiveStatesAreFollowedAt(c: Controller, state: RoomTypes.RoomState)
    requires state == RoomTypes.Connected || state == RoomTypes.Reconnecting
    ensures Follows(c, state) <==> StandsAt(c, Seen(state))
  {
  }

  lemma NetworkNewsIsFollowed(
      c: Controller, state: RoomTypes.RoomSnapshot, refresh: RoomTypes.BackendRefresh, w: Wording)
    requires state.state == RoomTypes.Connected || state.state == RoomTypes.Reconnecting
    requires StandsAt(c, Seen(state.state))
    ensures var news := RoomSpec.NetworkNews(state, refresh);
      StandsAt(
        Follow(c, news, w),
        Seen(if news == [] then state.state else RoomSpec.AfterSample(state, refresh).state))
  {
    if RoomSpec.NetworkNews(state, refresh) != [] {
      FollowOne(c, RoomTypes.NetworkUpdated(refresh.network.value), w);
      NetworkIsTold(c, refresh.network.value, w);
    }
  }

  lemma StateNewsIsFollowed(
      c: Controller, state: RoomTypes.RoomSnapshot, refresh: RoomTypes.BackendRefresh, w: Wording)
    requires state.state == RoomTypes.Connected || state.state == RoomTypes.Reconnecting
    requires StandsAt(c, Seen(state.state)) || StandsAt(c, Seen(RoomSpec.AfterSample(state, refresh).state))
    ensures StandsAt(
              Follow(c, RoomSpec.StateNews(state, refresh), w), Seen(RoomSpec.AfterSample(state, refresh).state))
  {
    var sampled := RoomSpec.AfterSample(state, refresh);
    if RoomSpec.StateNews(state, refresh) != [] {
      FollowOne(c, RoomTypes.StateChanged(sampled), w);
      LiveSnapshotIsTold(c, sampled, w);
    }
  }

  lemma TailIsFollowed(
      c: Controller, state: RoomTypes.RoomSnapshot, refresh: RoomTypes.BackendRefresh, w: Wording)
    requires state.state in {RoomTypes.Connected, RoomTypes.Reconnecting} && Follows(c, state.state)
    ensures Follows(Follow(c, RoomSpec.PollTail(state, refresh), w), RoomSpec.AfterRefresh(state, refresh).state)
  {
    var first, second := RoomSpec.NetworkNews(state, refresh), RoomSpec.StateNews(state, refresh);
    LiveStatesAreFollowedAt(c, state.state);
    NetworkNewsIsFollowed(c, state, refresh, w);
    StateNewsIsFollowed(Follow(c, first, w), state, refresh, w);
    FollowInParts(c, first, second, w);
    LiveStatesAreFollowedAt(Follow(c, first + second, w), RoomSpec.AfterSample(state, refresh).state);
  }

  lemma PollIsFollowed(
      c: Controller, s: RoomSpec.Service, refresh: RoomTypes.BackendRefresh, s': RoomSpec.Service, w: Wording)
    requires RoomSpec.Polled(s, Success(refresh), s')
    requires s.state.state in {RoomTypes.Connected, RoomTypes.Reconnecting} && Follows(c, s.state.state)
    ensures |s.log| <= |s'.log| && Follows(Follow(c, SnapshotMembers.News(s, s'), w), s'.state.state)
  {
    var peers := EventReplay.PeersOfPoll(s, refresh, s');
    var tail := RoomSpec.PollTail(s.state, refresh);
    if refresh.members.Some? {
      EventReplay.DiffEventsArePeerEvents(s.known, refresh.members.value, peers);
    }
    SnapshotMembers.NewsOfParts(s, s', peers, tail);
    FollowInParts(c, peers, tail, w);
    PeersChangeNothing(c, peers, w);
    TailIsFollowed(c, s.state, refresh, w);
  }

  lemma PollOrNothingIsFollowed(
      c: Controller, s: RoomSpec.Service, answer: Result<RoomTypes.BackendRefresh, RoomTypes.RoomError>,
      s': RoomSpec.Service, w: Wording)
    requires EventReplay.ServiceInvariant(s) && RoomSpec.Polled(s, answer, s') && Follows(c, s.state.state)
    ensures |s.log| <= |s'.log| && Follows(Follow(c, SnapshotMembers.News(s, s'), w), s'.state.state)
  {
    if answer.Success? && RoomSpec.IsActive(s.state.state) {
      PollIsFollowed(c, s, answer.value, s', w);
    }
  }

  lemma LeaveIsFollowed(
      c: Controller, s: RoomSpec.Service, answer: Result<(), RoomTypes.RoomError>, w: Wording)
    requires Follows(c, s.state.state) && s.state.state != RoomTypes.Leaving
    ensures var s' := RoomSpec.AfterLeave(s, answer).0;
      |s.log| <= |s'.log| && Follows(Follow(c, SnapshotMembers.News(s, s'), w), s'.state.state)
  {
    var s' := RoomSpec.AfterLeave(s, answer).0;
    if s'.log != s.log {
      assert SnapshotMembers.News(s, s') == [RoomTypes.StateChanged(RoomSpec.IDLE)];
      FollowOne(c, RoomTypes.StateChanged(RoomSpec.IDLE), w);
    }
  }

  /** Any operation but an entry keeps a plugin that applies its news with the helper. */
  lemma StepIsFollowed(c: Controller, s: RoomSpec.Service, op: RoomSpec.Op, s': RoomSpec.Service, w: Wording)
    requires EventReplay.ServiceInvariant(s) && RoomSpec.Step(s, op, s') && Follows(c, s.state.state)
    requires !(s.state.state == RoomTypes.Idle && s'.state.state == RoomTypes.Connected)
    ensures |s.log| <= |s'.log| && Follows(Follow(c, SnapshotMembers.News(s, s'), w), s'.state.state)
  {
    match op
    case PollOp(answer) => PollOrNothingIsFollowed(c, s, answer, s', w);
    case LanOp(address, changed, refresh) =>
      if RoomSpec.MayChangeLan(s, address) && changed.Success? {
        PollOrNothingIsFollowed(c, s, refresh, s', w);
      }
    case LeaveOp(answer) => LeaveIsFollowed(c, s, answer, w);
    case _ =>
  }

  /** The states from which the controller follows the helper into a room. */
  predicate AwaitsRoom(c: Controller) {
    c.machine in {Creating, Joining, Connected, Reconnecting}
  }

  /** An entry shows the plugin the whole room. */
  lemma EntryIsFollowed(c: Controller, s: RoomSpec.Service, op: RoomSpec.Op, s': RoomSpec.Service, w: Wording)
    requires AwaitsRoom(c) && RoomSpec.Step(s, op, s')
    requires s.state.state == RoomTypes.Idle && s'.state.state == RoomTypes.Connected
    ensures |s.log| <= |s'.log|
    ensures var c' := Follow(c, SnapshotMembers.News(s, s'), w);
      Follows(c', s'.state.state) && c'.snapshot == Shown(s'.state, w) && c'.isPolling
  {
    EntriesPublishTheRoom(s, op, s');
    FollowOne(c, RoomTypes.StateChanged(s'.state), w);
    PushesAreShown(c, Shown(s'.state, w));
  }

  lemma EntriesPublishTheRoom(s: RoomSpec.Service, op: RoomSpec.Op, s': RoomSpec.Service)
    requires RoomSpec.Step(s, op, s')
    requires s.state.state == RoomTypes.Idle && s'.state.state == RoomTypes.Connected
    ensures |s.log| <= |s'.log| && SnapshotMembers.News(s, s') == [RoomTypes.StateChanged(s'.state)]
  {
  }

  /** A pushed snapshot is shown whole, and polling goes on exactly in a live room. */
  lemma PushesAreShown(c: Controller, pushed: Snapshot)
    requires AwaitsRoom(c) && (pushed.state == Idle || pushed.state == Faulted || IsLive(pushed.state))
    ensures var c' := Next(c, SnapshotPush(pushed));
      && c'.machine == pushed.state && c'.snapshot == (if pushed.state == Idle then IDLE else pushed)
      && (c'.isPolling <==> pushed.state == Connected || pushed.state == Reconnecting)
      && c'.recovery == c.recovery && c'.ongoing == c.ongoing
  {
  }

  // ----- Sessions -----

  /** The service enters a room in turn `i`, and none in the turns up to `j`. */
  ghost predicate IsOneRoom(ss: seq<SessionSpec.Session>, i: nat, j: nat)
    requires i < j < |ss|
  {
    && ss[i].helper.service.state.state == RoomTypes.Idle && ss[i + 1].helper.service.state.state == RoomTypes.Connected
    && forall k :: i < k < j ==>
         !(ss[k].helper.service.state.state == RoomTypes.Idle
           && ss[k + 1].helper.service.state.state == RoomTypes.Connected)
  }

  function LogAt(ss: seq<SessionSpec.Session>, i: nat): seq<RoomTypes.RoomEvent>
    requires i < |ss|
  {
    ss[i].helper.service.log
  }

  lemma TurnIsFollowed(
      c: Controller, s: SessionSpec.Session, e: SessionSpec.Happening, config: SessionSpec.Config,
      s': SessionSpec.Session, w: Wording)
    requires SessionRuns.GateInvariant(s, config) && SessionSpec.SessionStep(s, e, config, s')
    ensures |s.helper.service.log| <= |s'.helper.service.log|
    ensures var (before, after) := (s.helper.service, s'.helper.service);
      var c' := Follow(c, SnapshotMembers.News(before, after), w);
      if before.state.state == RoomTypes.Idle && after.state.state == RoomTypes.Connected
      then AwaitsRoom(c) ==> Follows(c', after.state.state)
      else Follows(c, before.state.state) ==> Follows(c', after.state.state)
  {
    SessionRuns.TurnsAreCalls(s, e, config, s');
    SessionRuns.TurnsGrowLog(s, e, config, s');
    var before, after := s.helper.service, s'.helper.service;
    if SessionRuns.CallOf(e).Some? {
      var call := SessionRuns.CallOf(e).value;
      HelperRuns.CallsAreOperations(s.helper, call, config.hash, s'.helper);
      match HelperRuns.OpOf(s.helper, call, s'.helper) {
        case Some(op) => OperationIsFollowed(c, before, op, after, w);
        case None =>
      }
    }
  }

  lemma OperationIsFollowed(c: Controller, s: RoomSpec.Service, op: RoomSpec.Op, s': RoomSpec.Service, w: Wording)
    requires EventReplay.ServiceInvariant(s) && RoomSpec.Step(s, op, s') && |s.log| <= |s'.log|
    ensures var c' := Follow(c, SnapshotMembers.News(s, s'), w);
      if s.state.state == RoomTypes.Idle && s'.state.state == RoomTypes.Connected
      then AwaitsRoom(c) ==> Follows(c', s'.state.state)
      else Follows(c, s.state.state) ==> Follows(c', s'.state.state)
  {
    if s.state.state == RoomTypes.Idle && s'.state.state == RoomTypes.Connected {
      if AwaitsRoom(c) {
        EntryIsFollowed(c, s, op, s', w);
      }
    } else if Follows(c, s.state.state) {
      StepIsFollowed(c, s, op, s', w);
    }
  }

  lemma NextTurnIsFollowed(
      c: Controller, ss: seq<SessionSpec.Session>, es: seq<SessionSpec.Happening>, hello: SessionSpec.Request,
      config: SessionSpec.Config, k: nat, w: Wording)
    requires SessionSpec.IsSessionRun(ss, es, hello, config) && k < |es|
    ensures |LogAt(ss, k)| <= |LogAt(ss, k + 1)|
    ensures var (before, after) := (ss[k].helper.service, ss[k + 1].helper.service);
      var c' := Follow(c, SnapshotMembers.News(before, after), w);
      if before.state.state == RoomTypes.Idle && after.state.state == RoomTypes.Connected
      then AwaitsRoom(c) ==> Follows(c', after.state.state)
      else Follows(c, before.state.state) ==> Follows(c', after.state.state)
  {
    SessionRuns.GateOnEveryRun(ss, es, hello, config, k);
    TurnIsFollowed(c, ss[k], es[k], config, ss[k + 1], w);
  }

  /** The log up to turn `j` leads to where the helper then stands. */
  ghost predicate IsFollowedTo(c: Controller, ss: seq<SessionSpec.Session>, i: nat, j: nat, w: Wording)
    requires i < |ss| && j < |ss|
  {
    && |LogAt(ss, i)| <= |LogAt(ss, j)|
    && Follows(Follow(c, LogAt(ss, j)[|LogAt(ss, i)|..], w), ss[j].helper.service.state.state)
  }

  lemma LongerLogIsFollowed(
      c: Controller, ss: seq<SessionSpec.Session>, es: seq<SessionSpec.Happening>, hello: SessionSpec.Request,
      config: SessionSpec.Config, i: nat, j: nat, w: Wording)
    requires SessionSpec.IsSessionRun(ss, es, hello, config) && i < j < |es| && IsFollowedTo(c, ss, i, j, w)
    requires !(ss[j].helper.service.state.state == RoomTypes.Idle
               && ss[j + 1].helper.service.state.state == RoomTypes.Connected)
    ensures IsFollowedTo(c, ss, i, j + 1, w)
  {
    SessionReplies.LogsExtend(ss, es, hello, config, j, j + 1);
    var start, before, after := |LogAt(ss, i)|, LogAt(ss, j), LogAt(ss, j + 1);
    var c' := Follow(c, before[start..], w);
    NextTurnIsFollowed(c', ss, es, hello, config, j, w);
    LongerSuffix(before, after, start);
    FollowInParts(c, before[start..], after[|before|..], w);
  }

  lemma LongerSuffix(before: seq<RoomTypes.RoomEvent>, after: seq<RoomTypes.RoomEvent>, start: nat)
    requires start <= |before| && SessionRuns.Extends(after, before)
    ensures after[start..] == before[start..] + after[|before|..]
  {
  }

  lemma LogIsFollowed(
      c: Controller, ss: seq<SessionSpec.Session>, es: seq<SessionSpec.Happening>, hello: SessionSpec.Request,
      config: SessionSpec.Config, i: nat, j: nat, w: Wording)
    requires SessionSpec.IsSessionRun(ss, es, hello, config) && i < j < |ss| && IsOneRoom(ss, i, j)
    requires AwaitsRoom(c)
    ensures IsFollowedTo(c, ss, i, j, w)
  {
    NextTurnIsFollowed(c, ss, es, hello, config, i, w);
    forall k | i < k < j && IsFollowedTo(c, ss, i, k, w)
      ensures IsFollowedTo(c, ss, i, k + 1, w)
    {
      LongerLogIsFollowed(c, ss, es, hello, config, i, k, w);
    }
    FollowedByInduction(c, ss, i, j, w);
  }

  lemma {:induction false} FollowedByInduction(
      c: Controller, ss: seq<SessionSpec.Session>, i: nat, j: nat, w: Wording)
    requires i < j < |ss| && IsFollowedTo(c, ss, i, i + 1, w)
    requires forall k :: i < k < j && IsFollowedTo(c, ss, i, k, w) ==> IsFollowedTo(c, ss, i, k + 1, w)
    ensures IsFollowedTo(c, ss, i, j, w)
    decreases j
  {
    if j > i + 1 {
      FollowedByInduction(c, ss, i, j - 1, w);
      assert IsFollowedTo(c, ss, i, j - 1, w);
    }
  }

  /**
   * A plugin on its way into a room that applies the events pushed from the entry on stands where the helper stands
   * whenever it has received them all and missed none: connected, reconnecting, or out of the room again.
   */
  lemma PluginFollowsTheRoom(
      c: Controller, ss: seq<SessionSpec.Session>, es: seq<SessionSpec.Happening>, hello: SessionSpec.Request,
      config: SessionSpec.Config, i: nat, j: nat, w: Wording)
    requires SessionSpec.IsSessionRun(ss, es, hello, config) && i < j < |ss| && IsOneRoom(ss, i, j)
    requires AwaitsRoom(c)
    requires ss[j].missed == 0 && ss[j].outcome != Some(SessionSpec.Broken) && ss[j].cursor == |LogAt(ss, j)|
    ensures |LogAt(ss, i)| <= |SessionRuns.PushedEvents(ss[j].written)|
    ensures var pushed := SessionRuns.PushedEvents(ss[j].written)[|LogAt(ss, i)|..];
      Follows(Follow(c, pushed, w), ss[j].helper.service.state.state)
  {
    LogIsFollowed(c, ss, es, hello, config, i, j, w);
    SessionRuns.FeedOnEveryRun(ss, es, hello, config, j);
    assert SessionRuns.PushedEvents(ss[j].written) == LogAt(ss, j);
  }

  // ----- Replies -----

  lemma IdsAreTheKeys(members: seq<RoomTypes.RoomMember>)
    ensures (set id | id in Ids(members)) == RoomSpec.MapOf(members).Keys
  {
    EventReplay.MapOfKeys(members);
    forall id | id in RoomSpec.MapOf(members)
      ensures id in Ids(members)
    {
      var k :| 0 <= k < |members| && members[k] == RoomSpec.MapOf(members)[id];
      assert Ids(members)[k] == id;
    }
    forall id | id in Ids(members)
      ensures id in RoomSpec.MapOf(members)
    {
      var k :| 0 <= k < |members| && Ids(members)[k] == id;
      assert members[k] in members;
    }
  }

  lemma SnapshotIsShown(c: Controller, state: RoomTypes.RoomSnapshot, w: Wording)
    requires EventReplay.IsSettled(state.state) && c.ongoing == Some(StatusCall) && c.machine != Diagnosing
    ensures var c' := Next(c, StatusAnswerEvent(Replied(Shown(state, w))));
      && c'.ongoing.None?
      && (state.state == RoomTypes.Idle ==> c' == c.(ongoing := None))
      && (state.state != RoomTypes.Idle ==> c'.snapshot == Shown(state, w))
      && (state.state == RoomTypes.Faulted ==> c'.machine == Faulted && !c'.isPolling)
      && (state.state != RoomTypes.Faulted ==> c'.machine == c.machine && c'.isPolling == c.isPolling)
  {
  }

  lemma EnteredRoomIsShown(c: Controller, state: RoomTypes.RoomSnapshot, w: Wording)
    requires state.state == RoomTypes.Connected && state.roomCode.Some?
    requires c.ongoing.Some? && (c.ongoing.value.CreateCall? || c.ongoing.value.JoinCall?) && AwaitsRoom(c)
    ensures var c' := Next(c, EntryEvent(Replied(Shown(state, w))));
      && c'.machine == Connected && c'.snapshot == Shown(state, w) && c'.isPolling
      && c'.recovery.Some? && c'.recovery.value.roomCode == state.roomCode
  {
  }

  /** A snapshot that a reply of the session carries is the service's, which is settled and fits its state. */
  lemma CarriedSnapshotsFit(
      ss: seq<SessionSpec.Session>, es: seq<SessionSpec.Happening>, hello: SessionSpec.Request,
      config: SessionSpec.Config, i: nat, snapshot: RoomTypes.RoomSnapshot)
    requires SessionSpec.IsSessionRun(ss, es, hello, config) && i < |es|
    requires es[i].Arrives? && SessionReplies.SnapshotOf(es[i].reply) == Some(snapshot)
    ensures snapshot == ss[i + 1].helper.service.state
    ensures EventReplay.IsSettled(snapshot.state) && EventReplay.SnapshotFits(snapshot)
    ensures es[i].reply.RoomCreated? ==> snapshot.state == RoomTypes.Connected && snapshot.role == RoomTypes.HostRole
    ensures es[i].reply.RoomJoined? ==> snapshot.state == RoomTypes.Connected && snapshot.role == RoomTypes.MemberRole
  {
    SessionReplies.RepliesShowTheRoom(ss, es, hello, config, i);
    SessionRuns.GateOnEveryRun(ss, es, hello, config, i + 1);
  }

  /**
   * A plugin in a live room that gets the answer to its status request shows the room as the helper then has it, and
   * where the helper's snapshot lists the known members, exactly those.
   */
  lemma StatusRepliesAreShown(
      c: Controller, ss: seq<SessionSpec.Session>, es: seq<SessionSpec.Happening>, hello: SessionSpec.Request,
      config: SessionSpec.Config, i: nat, w: Wording)
    requires SessionSpec.IsSessionRun(ss, es, hello, config) && i < |es|
    requires es[i].Arrives? && es[i].reply.StatusResult?
    requires c.ongoing == Some(StatusCall) && c.machine != Diagnosing
    ensures var snapshot, service := es[i].reply.snapshot, ss[i + 1].helper.service;
      var c' := Next(c, StatusAnswerEvent(Replied(Shown(snapshot, w))));
      && snapshot == service.state && c'.ongoing.None?
      && (snapshot.state == RoomTypes.Idle ==> c' == c.(ongoing := None))
      && (snapshot.state != RoomTypes.Idle ==> c'.snapshot == Shown(snapshot, w))
      && (snapshot.state == RoomTypes.Faulted ==> c'.machine == Faulted && !c'.isPolling)
      && (snapshot.state != RoomTypes.Faulted ==> c'.machine == c.machine && c'.isPolling == c.isPolling)
      && (snapshot.state != RoomTypes.Idle && SnapshotMembers.ListsKnown(service) ==>
            (set id | id in c'.snapshot.members) == service.known.Keys)
  {
    var snapshot := es[i].reply.snapshot;
    CarriedSnapshotsFit(ss, es, hello, config, i, snapshot);
    SnapshotIsShown(c, snapshot, w);
    IdsAreTheKeys(snapshot.members);
  }

  /** A plugin that awaits its entry shows the room entered, and remembers its code for a recovery. */
  lemma EntryRepliesAreShown(
      c: Controller, ss: seq<SessionSpec.Session>, es: seq<SessionSpec.Happening>, hello: SessionSpec.Request,
      config: SessionSpec.Config, i: nat, w: Wording)
    requires SessionSpec.IsSessionRun(ss, es, hello, config) && i < |es|
    requires es[i].Arrives? && (es[i].reply.RoomCreated? || es[i].reply.RoomJoined?)
    requires c.ongoing.Some? && (c.ongoing.value.CreateCall? || c.ongoing.value.JoinCall?) && AwaitsRoom(c)
    ensures var snapshot := es[i].reply.snapshot;
      var c' := Next(c, EntryEvent(Replied(Shown(snapshot, w))));
      && snapshot == ss[i + 1].helper.service.state
      && c'.machine == Connected && c'.snapshot == Shown(snapshot, w) && c'.isPolling
      && c'.snapshot.role == (if es[i].reply.RoomCreated? then Host else Member)
      && c'.recovery.Some? && snapshot.roomCode.Some? && c'.recovery.value.roomCode == snapshot.roomCode
  {
    var snapshot := es[i].reply.snapshot;
    CarriedSnapshotsFit(ss, es, hello, config, i, snapshot);
    EnteredRoomIsShown(c, snapshot, w);
  }
}
