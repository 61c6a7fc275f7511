/** What a lossless subscriber of room/events.rs can reconstruct from the events that room/service.rs publishes. */
module EventReplay {
  import opened RoomSpec
  import opened RoomTypes
  import opened Wrappers
  import Credentials

  /**
   * Takes the members from the snapshot that enters a room, forgets them when the room is left, and folds
   * the peer events in between. Snapshots published inside a room are no membership source.
   */
  datatype Subscriber = Subscriber(inRoom: bool, members: map<string, RoomMember>)

  const NOBODY := Subscriber(false, map[])

  function Observe(sub: Subscriber, e: RoomEvent): Subscriber {
    match e
    case PeerJoined(member) => sub.(members := sub.members[member.id := member])
    case PeerUpdated(member) => sub.(members := sub.members[member.id := member])
    case PeerLeft(id) => sub.(members := sub.members - {id})
    case NetworkUpdated(_) => sub
    case StateChanged(snapshot) =>
      if snapshot.state == Idle then NOBODY
      else if !sub.inRoom && snapshot.state == Connected then Subscriber(true, MapOf(snapshot.members))
      else sub
  }

  function Replay(sub: Subscriber, events: seq<RoomEvent>): Subscriber {
    if events == [] then sub
    else Observe(Replay(sub, events[..|events| - 1]), events[|events| - 1])
  }

  lemma {:induction false} ReplayOfConcatenation(sub: Subscriber, a: seq<RoomEvent>, b: seq<RoomEvent>)
    ensures Replay(sub, a + b) == Replay(Replay(sub, a), b)
  {
    if b == [] {
      assert a + b == a;
    } else {
      assert (a + b)[..|a + b| - 1] == a + b[..|b| - 1];
      ReplayOfConcatenation(sub, a, b[..|b| - 1]);
    }
  }

  // ----- One poll -----

  ghost predicate NamesMembersOnce(members: seq<RoomMember>) {
    forall i, j :: 0 <= i < |members| && 0 <= j < |members| && members[i].id == members[j].id ==> i == j
  }

  /** Where the list ends up with the member already known, it says so at every mention of that member. */
  ghost predicate IsReplaySafe(known: map<string, RoomMember>, members: seq<RoomMember>) {
    forall id :: id in MapOf(members) && id in known && MapOf(members)[id] == known[id] ==>
      AlwaysListedAs(members, known[id])
  }

  ghost predicate AlwaysListedAs(members: seq<RoomMember>, member: RoomMember) {
    forall i :: 0 <= i < |members| && members[i].id == member.id ==> members[i] == member
  }

  lemma {:induction false} MapOfKeys(members: seq<RoomMember>)
    ensures forall id :: id in MapOf(members) ==> MapOf(members)[id] in members && MapOf(members)[id].id == id
    ensures forall m :: m in members ==> m.id in MapOf(members)
  {
    if members != [] {
      MapOfKeys(members[..|members| - 1]);
      assert members == members[..|members| - 1] + [members[|members| - 1]];
    }
  }

  lemma {:induction false} ArrivalsKeepRoom(known: map<string, RoomMember>, members: seq<RoomMember>, sub: Subscriber)
    ensures Replay(sub, Arrivals(known, members)).inRoom == sub.inRoom
  {
    if members != [] {
      var front := members[..|members| - 1];
      ArrivalsKeepRoom(known, front, sub);
      ReplayOfOneArrival(known, front, members[|members| - 1], sub);
    }
  }

  lemma ReplayOfOneArrival(
      known: map<string, RoomMember>, front: seq<RoomMember>, member: RoomMember, sub: Subscriber)
    ensures var before := Replay(sub, Arrivals(known, front));
      Replay(sub, Arrivals(known, front) + Arrival(known, member))
      == if member.id in known && known[member.id] == member then before
         else before.(members := before.members[member.id := member])
  {
    var a := Arrival(known, member);
    ReplayOfConcatenation(sub, Arrivals(known, front), a);
    if a != [] {
      assert a[..|a| - 1] == [];
    }
  }

  /** An id holds its last listing, or the known member if no listing differed from it. */
  ghost predicate HasArrived(
      known: map<string, RoomMember>, members: seq<RoomMember>, id: string, m: map<string, RoomMember>)
  {
    && (id in m <==> id in known || id in MapOf(members))
    && (id in known && id !in MapOf(members) ==> m[id] == known[id])
    && (id in MapOf(members) && (id !in known || known[id] != MapOf(members)[id]) ==> m[id] == MapOf(members)[id])
    && (id in known && known[id].id == id ==> (m[id] == known[id] <==> AlwaysListedAs(members, known[id])))
  }

  /** After the arrivals every id has arrived. */
  lemma {:induction false} ReplayOfArrivals(
      known: map<string, RoomMember>, members: seq<RoomMember>, inRoom: bool, id: string)
    ensures HasArrived(known, members, id, Replay(Subscriber(inRoom, known), Arrivals(known, members)).members)
  {
    if members != [] {
      var front, last := members[..|members| - 1], members[|members| - 1];
      ReplayOfArrivals(known, front, inRoom, id);
      ReplayOfOneArrival(known, front, last, Subscriber(inRoom, known));
      OneMoreArrives(known, front, last, id, Replay(Subscriber(inRoom, known), Arrivals(known, front)).members);
      assert members == front + [last];
    }
  }

  lemma OneMoreArrives(
      known: map<string, RoomMember>, front: seq<RoomMember>, last: RoomMember, id: string, m: map<string, RoomMember>)
    requires HasArrived(known, front, id, m)
    ensures HasArrived(
              known, front + [last], id, if last.id in known && known[last.id] == last then m else m[last.id := last])
  {
    assert (front + [last])[..|front|] == front;
    if id in known {
      AlwaysListedSnoc(front, last, known[id]);
    }
  }

  lemma AlwaysListedSnoc(front: seq<RoomMember>, last: RoomMember, member: RoomMember)
    ensures AlwaysListedAs(front + [last], member)
       <==> AlwaysListedAs(front, member) && (last.id == member.id ==> last == member)
  {
    var members := front + [last];
    if AlwaysListedAs(members, member) {
      assert forall i :: 0 <= i < |front| ==> front[i] == members[i];
      assert members[|front|] == last;
    }
  }

  lemma {:induction false} ReplayOfDepartures(events: seq<RoomEvent>, sub: Subscriber)
    requires forall e :: e in events ==> e.PeerLeft?
    ensures Replay(sub, events).inRoom == sub.inRoom
    ensures Replay(sub, events).members == sub.members - (set e | e in events :: e.id)
  {
    if events != [] {
      var front, last := events[..|events| - 1], events[|events| - 1];
      assert events == front + [last];
      assert last in events;
      ReplayOfDepartures(front, sub);
      assert (set e | e in events :: e.id) == (set e | e in front :: e.id) + {last.id};
    } else {
      assert sub.members - {} == sub.members;
    }
  }

  /** Keys and their ids agree, as they do in a map built from members. */
  predicate IsKeyedById(known: map<string, RoomMember>) {
    forall id :: id in known ==> known[id].id == id
  }

  /**
   * A subscriber that held the known members holds the polled ones afterwards exactly when the list was
   * replay-safe, in whatever order departures are published.
   */
  lemma PollReplaysExactlyWhenSafe(
      known: map<string, RoomMember>, members: seq<RoomMember>, events: seq<RoomEvent>, inRoom: bool)
    requires IsKeyedById(known)
    requires AreDiffEvents(known, members, events)
    ensures Replay(Subscriber(inRoom, known), events).inRoom == inRoom
    ensures Replay(Subscriber(inRoom, known), events).members == MapOf(members) <==> IsReplaySafe(known, members)
  {
    var start := Subscriber(inRoom, known);
    var next := MapOf(members);
    var arrivals := Arrivals(known, members);
    var departures := events[|arrivals|..];
    assert events == arrivals + departures;
    var middle := Replay(start, arrivals);
    ReplayOfConcatenation(start, arrivals, departures);
    ArrivalsKeepRoom(known, members, start);
    ReplayOfDepartures(departures, middle);
    DepartedIds(departures, known.Keys - next.Keys);
    var m := Replay(start, events).members;
    assert m == middle.members - (known.Keys - next.Keys);
    forall id
      ensures id in m <==> id in next
      ensures id in next ==> (m[id] == next[id] <==>
                (id in known && known[id] == next[id] ==> AlwaysListedAs(members, known[id])))
    {
      ReplayOfArrivals(known, members, inRoom, id);
    }
  }

  lemma DepartedIds(events: seq<RoomEvent>, ids: set<string>)
    requires AreDepartures(events, ids)
    ensures (set e | e in events :: e.id) == ids
  {
    forall id | id in ids
      ensures id in set e | e in events :: e.id
    {
      assert PeerLeft(id) in events;
    }
  }

  lemma DistinctMembersAreMapped(members: seq<RoomMember>)
    requires NamesMembersOnce(members)
    ensures forall m :: m in members ==> m.id in MapOf(members) && MapOf(members)[m.id] == m
  {
    MapOfKeys(members);
  }

  lemma DistinctIdsAreReplaySafe(known: map<string, RoomMember>, members: seq<RoomMember>)
    requires NamesMembersOnce(members)
    ensures IsReplaySafe(known, members)
  {
    DistinctMembersAreMapped(members);
    MapOfKeys(members);
    forall id | id in MapOf(members)
      ensures AlwaysListedAs(members, MapOf(members)[id])
    {
      forall i | 0 <= i < |members| && members[i].id == id
        ensures members[i] == MapOf(members)[id]
      {
        assert members[i] in members;
      }
    }
  }

  /** A member listed twice, the second time as already known, leaves the subscriber with the first listing. */
  lemma DuplicateIdsBreakReplay(first: RoomMember, second: RoomMember)
    requires first.id == second.id && first != second
    ensures var known := map[second.id := second];
      && AreDiffEvents(known, [first, second], [PeerUpdated(first)])
      && MapOf([first, second]) == known
      && Replay(Subscriber(true, known), [PeerUpdated(first)]).members == map[second.id := first]
  {
    var known := map[second.id := second];
    var members := [first, second];
    assert members[..1] == [first] && [first][..0] == [];
    assert MapOf([first]) == map[first.id := first];
    assert MapOf(members) == known;
    assert Arrivals(known, [first]) == [PeerUpdated(first)];
    assert Arrivals(known, members) == [PeerUpdated(first)];
    assert [PeerUpdated(first)][..0] == [];
  }

  // ----- How many events, and for whom -----

  function PeerId(e: RoomEvent): Option<string> {
    match e
    case PeerJoined(member) => Some(member.id)
    case PeerUpdated(member) => Some(member.id)
    case PeerLeft(id) => Some(id)
    case _ => None
  }

  function Lookup(members: map<string, RoomMember>, id: string): Option<RoomMember> {
    if id in members then Some(members[id]) else None
  }

  /** The one event that announces a change of an id from one map to the next. */
  function Announcement(known: map<string, RoomMember>, next: map<string, RoomMember>, id: string): Option<RoomEvent> {
    if Lookup(known, id) == Lookup(next, id) then None
    else if id !in next then Some(PeerLeft(id))
    else if id !in known then Some(PeerJoined(next[id]))
    else Some(PeerUpdated(next[id]))
  }

  ghost predicate NamesEachIdOnce(events: seq<RoomEvent>) {
    forall i, j :: 0 <= i < j < |events| ==> PeerId(events[i]) != PeerId(events[j])
  }

  lemma {:induction false} ArrivalsMembers(known: map<string, RoomMember>, members: seq<RoomMember>)
    ensures forall e :: e in Arrivals(known, members) <==> exists m :: m in members && e in Arrival(known, m)
  {
    if members != [] {
      var front, last := members[..|members| - 1], members[|members| - 1];
      ArrivalsMembers(known, front);
      assert forall m :: m in members <==> m in front || m == last;
    }
  }

  lemma {:induction false} ArrivalsNameEachMemberOnce(known: map<string, RoomMember>, members: seq<RoomMember>)
    requires NamesMembersOnce(members)
    ensures NamesEachIdOnce(Arrivals(known, members))
  {
    if members != [] {
      var front, last := members[..|members| - 1], members[|members| - 1];
      ArrivalsNameEachMemberOnce(known, front);
      ArrivalsMembers(known, front);
      var before := Arrivals(known, front);
      forall e | e in before
        ensures PeerId(e) != Some(last.id)
      {
        var m :| m in front && e in Arrival(known, m);
        var i :| 0 <= i < |front| && front[i] == m;
        assert members[i] == m;
      }
      var a := Arrivals(known, members);
      assert a == before + Arrival(known, last);
      forall i, j | 0 <= i < j < |a|
        ensures PeerId(a[i]) != PeerId(a[j])
      {
        if j == |before| {
          assert a[i] == before[i] && before[i] in before;
          assert PeerId(a[j]) == Some(last.id);
        } else {
          assert a[i] == before[i] && a[j] == before[j];
        }
      }
    }
  }

  /** An arrival is of a listed member. */
  lemma ArrivalIsOfMember(known: map<string, RoomMember>, members: seq<RoomMember>, e: RoomEvent)
    returns (m: RoomMember)
    requires e in Arrivals(known, members)
    ensures m in members && e in Arrival(known, m)
  {
    ArrivalsMembers(known, members);
    m :| m in members && e in Arrival(known, m);
  }

  lemma ArrivalAnnouncesChange(
      known: map<string, RoomMember>, next: map<string, RoomMember>, member: RoomMember, e: RoomEvent)
    requires IsKeyedById(known) && member.id in next && next[member.id] == member && e in Arrival(known, member)
    ensures PeerId(e) == Some(member.id) && Announcement(known, next, member.id) == Some(e)
  {
  }

  lemma DepartureAnnouncesChange(known: map<string, RoomMember>, next: map<string, RoomMember>, e: RoomEvent)
    requires e.PeerLeft? && e.id in known && e.id !in next
    ensures PeerId(e) == Some(e.id) && Announcement(known, next, e.id) == Some(e)
  {
  }

  lemma EventAnnouncesChange(
      known: map<string, RoomMember>, members: seq<RoomMember>, events: seq<RoomEvent>, e: RoomEvent)
    requires IsKeyedById(known) && NamesMembersOnce(members) && AreDiffEvents(known, members, events) && e in events
    ensures PeerId(e).Some? && Announcement(known, MapOf(members), PeerId(e).value) == Some(e)
  {
    var arrivals := Arrivals(known, members);
    assert events == arrivals + events[|arrivals|..];
    if e in arrivals {
      var m := ArrivalIsOfMember(known, members, e);
      DistinctMembersAreMapped(members);
      ArrivalAnnouncesChange(known, MapOf(members), m, e);
    } else {
      assert e in events[|arrivals|..];
      DepartureAnnouncesChange(known, MapOf(members), e);
    }
  }

  lemma ChangeIsAnnounced(
      known: map<string, RoomMember>, members: seq<RoomMember>, events: seq<RoomEvent>, id: string)
    requires AreDiffEvents(known, members, events) && Announcement(known, MapOf(members), id).Some?
    ensures Announcement(known, MapOf(members), id).value in events
  {
    var next := MapOf(members);
    var arrivals := Arrivals(known, members);
    assert events == arrivals + events[|arrivals|..];
    if id in next {
      ArrivalsMembers(known, members);
      MapOfKeys(members);
      assert Announcement(known, next, id).value in Arrival(known, next[id]);
    } else {
      assert PeerLeft(id) in events[|arrivals|..];
    }
  }

  /** With distinct ids every peer event announces a change and every change is announced. */
  lemma EventsAreTheChanges(known: map<string, RoomMember>, members: seq<RoomMember>, events: seq<RoomEvent>)
    requires IsKeyedById(known) && NamesMembersOnce(members) && AreDiffEvents(known, members, events)
    ensures forall e :: e in events ==>
              PeerId(e).Some? && Announcement(known, MapOf(members), PeerId(e).value) == Some(e)
    ensures forall id :: Announcement(known, MapOf(members), id).Some? ==>
              Announcement(known, MapOf(members), id).value in events
  {
    forall e | e in events
      ensures PeerId(e).Some? && Announcement(known, MapOf(members), PeerId(e).value) == Some(e)
    {
      EventAnnouncesChange(known, members, events, e);
    }
    forall id | Announcement(known, MapOf(members), id).Some?
      ensures Announcement(known, MapOf(members), id).value in events
    {
      ChangeIsAnnounced(known, members, events, id);
    }
  }

  /** With distinct ids a poll publishes at most one peer event for each. */
  lemma OneEventPerId(known: map<string, RoomMember>, members: seq<RoomMember>, events: seq<RoomEvent>)
    requires NamesMembersOnce(members) && AreDiffEvents(known, members, events)
    ensures NamesEachIdOnce(events)
  {
    var arrivals := Arrivals(known, members);
    var departures := events[|arrivals|..];
    assert events == arrivals + departures;
    ArrivalsNameEachMemberOnce(known, members);
    ArrivalsAreOfListed(known, members);
    DeparturesNameOthersOnce(departures, known.Keys, MapOf(members).Keys);
    SeparateEventsNameIdsOnce(arrivals, departures, MapOf(members).Keys);
  }

  lemma ArrivalsAreOfListed(known: map<string, RoomMember>, members: seq<RoomMember>)
    ensures forall e :: e in Arrivals(known, members) ==> PeerId(e).Some? && PeerId(e).value in MapOf(members).Keys
  {
    MapOfKeys(members);
    forall e | e in Arrivals(known, members)
      ensures PeerId(e).Some? && PeerId(e).value in MapOf(members)
    {
      var m := ArrivalIsOfMember(known, members, e);
    }
  }

  lemma DeparturesNameOthersOnce(departures: seq<RoomEvent>, known: set<string>, listed: set<string>)
    requires AreDepartures(departures, known - listed)
    ensures NamesEachIdOnce(departures)
    ensures forall e :: e in departures ==> PeerId(e).Some? && PeerId(e).value !in listed
  {
    forall i, j | 0 <= i < j < |departures|
      ensures PeerId(departures[i]) != PeerId(departures[j])
    {
      assert departures[i] in departures && departures[j] in departures;
      assert departures[i] != departures[j];
    }
  }

  /** Events about ids of a set, then events about other ids. */
  lemma SeparateEventsNameIdsOnce(first: seq<RoomEvent>, second: seq<RoomEvent>, ids: set<string>)
    requires NamesEachIdOnce(first) && NamesEachIdOnce(second)
    requires forall e :: e in first ==> PeerId(e).Some? && PeerId(e).value in ids
    requires forall e :: e in second ==> PeerId(e).Some? && PeerId(e).value !in ids
    ensures NamesEachIdOnce(first + second)
  {
    var events := first + second;
    forall i, j | 0 <= i < j < |events|
      ensures PeerId(events[i]) != PeerId(events[j])
    {
      if i < |first| <= j {
        assert events[i] in first && events[j] in second;
      }
    }
  }

  // ----- Whole runs -----

  /** The published lifecycle, oldest first. */
  function Lifecycle(log: seq<RoomEvent>): seq<RoomState> {
    if log == [] then []
    else
      Lifecycle(log[..|log| - 1])
      + (if log[|log| - 1].StateChanged? then [log[|log| - 1].snapshot.state] else [])
  }

  /** Which state may be published after which: rooms are entered connected, flap, and end idle. */
  predicate MayFollow(previous: Option<RoomState>, next: RoomState) {
    match next
    case Connected => previous == None || previous == Some(Idle) || previous == Some(Reconnecting)
    case Reconnecting => previous == Some(Connected)
    case Idle => true
    case _ => false
  }

  /** The prefixes of ((Connected (Reconnecting Connected)* Reconnecting?)? Idle)*. */
  predicate IsLifecycle(states: seq<RoomState>) {
    states == []
    || (IsLifecycle(states[..|states| - 1]) && MayFollow(Last(states[..|states| - 1]), states[|states| - 1]))
  }

  function Last(states: seq<RoomState>): Option<RoomState> {
    if states == [] then None else Some(states[|states| - 1])
  }

  lemma {:induction false} LifecycleOfConcatenation(a: seq<RoomEvent>, b: seq<RoomEvent>)
    ensures Lifecycle(a + b) == Lifecycle(a) + Lifecycle(b)
  {
    if b == [] {
      assert a + b == a;
    } else {
      assert (a + b)[..|a + b| - 1] == a + b[..|b| - 1];
      LifecycleOfConcatenation(a, b[..|b| - 1]);
    }
  }

  lemma LifecycleExtends(states: seq<RoomState>, next: RoomState)
    requires IsLifecycle(states) && MayFollow(Last(states), next)
    ensures IsLifecycle(states + [next])
  {
    assert (states + [next])[..|states|] == states;
  }

  lemma {:induction false} PeerEventsHaveNoLifecycle(events: seq<RoomEvent>)
    requires forall e :: e in events ==> !e.StateChanged?
    ensures Lifecycle(events) == []
  {
    if events != [] {
      assert events[|events| - 1] in events;
      PeerEventsHaveNoLifecycle(events[..|events| - 1]);
    }
  }

  lemma DiffEventsArePeerEvents(known: map<string, RoomMember>, members: seq<RoomMember>, events: seq<RoomEvent>)
    requires AreDiffEvents(known, members, events)
    ensures forall e :: e in events ==> PeerId(e).Some?
  {
    ArrivalsArePeerEvents(known, members);
    var arrivals := Arrivals(known, members);
    assert events == arrivals + events[|arrivals|..];
  }

  lemma {:induction false} ArrivalsArePeerEvents(known: map<string, RoomMember>, members: seq<RoomMember>)
    ensures forall e :: e in Arrivals(known, members) ==> PeerId(e).Some?
  {
    if members != [] {
      ArrivalsArePeerEvents(known, members[..|members| - 1]);
    }
  }

  // ----- The service invariant -----

  predicate IsSettled(state: RoomState) {
    state == Idle || state == Connected || state == Reconnecting || state == Faulted
  }

  /** The snapshot's fields are those its lifecycle state calls for. */
  predicate SnapshotFits(snapshot: RoomSnapshot) {
    match snapshot.state
    case Idle => snapshot == IDLE
    case Faulted =>
      && snapshot.errorCode.Some? && snapshot.role != NoRole && snapshot.roomCode.None?
      && snapshot.network.None? && snapshot.members == []
    case _ =>
      && snapshot.errorCode.None? && snapshot.role != NoRole && snapshot.network.Some?
      && snapshot.roomCode.Some? && Credentials.IsNormalForm(snapshot.roomCode.value)
      && (snapshot.role == HostRole ==> snapshot.gameSessionId.Some?)
      && (snapshot.role == MemberRole ==> snapshot.localAddress.Some?)
  }

  /** Between operations: a settled state, fitting fields, and the lifecycle published up to that state. */
  ghost predicate ServiceInvariant(s: Service) {
    && IsSettled(s.state.state)
    && SnapshotFits(s.state)
    && IsKeyedById(s.known)
    && (s.state.state == Idle ==> s.known == map[])
    && LifecycleReaches(s.log, s.state.state)
  }

  /** The published lifecycle has got to the state, as far as the state says so. */
  ghost predicate LifecycleReaches(log: seq<RoomEvent>, state: RoomState) {
    && IsLifecycle(Lifecycle(log))
    && (state == Idle ==> Last(Lifecycle(log)) in {None, Some(Idle)})
    && (state == Connected || state == Reconnecting ==> Last(Lifecycle(log)) == Some(state))
  }

  lemma MapOfIsKeyedById(members: seq<RoomMember>)
    ensures IsKeyedById(MapOf(members))
  {
    MapOfKeys(members);
  }

  lemma LifecycleOfOne(e: RoomEvent)
    ensures Lifecycle([e]) == if e.StateChanged? then [e.snapshot.state] else []
  {
    assert [e][..0] == [];
  }

  lemma LifecycleOfThree(a: seq<RoomEvent>, b: seq<RoomEvent>, c: seq<RoomEvent>)
    ensures Lifecycle(a + b + c) == Lifecycle(a) + Lifecycle(b) + Lifecycle(c)
  {
    LifecycleOfConcatenation(a + b, c);
    LifecycleOfConcatenation(a, b);
  }

  /** The peer events of a poll of an active room, between the old log and the tail. */
  lemma PeersOfPoll(s: Service, refresh: BackendRefresh, s': Service) returns (peers: seq<RoomEvent>)
    requires Polled(s, Success(refresh), s') && IsActive(s.state.state)
    ensures s'.log == s.log + peers + PollTail(s.state, refresh) && s'.state == AfterRefresh(s.state, refresh)
    ensures if refresh.members.Some? then AreDiffEvents(s.known, refresh.members.value, peers) else peers == []
  {
    peers := s'.log[|s.log|..|s'.log| - |PollTail(s.state, refresh)|];
  }

  /** What a poll adds to the lifecycle: the flip, if there was one. */
  lemma LifecycleOfPoll(s: Service, refresh: BackendRefresh, s': Service)
    requires Polled(s, Success(refresh), s') && IsActive(s.state.state)
    ensures s'.state.state == s.state.state ==> Lifecycle(s'.log) == Lifecycle(s.log)
    ensures s'.state.state != s.state.state ==> Lifecycle(s'.log) == Lifecycle(s.log) + [s'.state.state]
  {
    var peers := PeersOfPoll(s, refresh, s');
    if refresh.members.Some? {
      DiffsHaveNoLifecycle(s.known, refresh.members.value, peers);
    }
    LifecycleOfParts(s.state, refresh, s.log, peers);
  }

  lemma LifecycleOfParts(state: RoomSnapshot, refresh: BackendRefresh, log: seq<RoomEvent>, peers: seq<RoomEvent>)
    requires Lifecycle(peers) == []
    ensures var flipped := AfterRefresh(state, refresh).state;
      Lifecycle(log + peers + PollTail(state, refresh))
      == if flipped == state.state then Lifecycle(log) else Lifecycle(log) + [flipped]
  {
    LifecycleAround(log, peers, PollTail(state, refresh));
    LifecycleOfTail(state, refresh);
    assert Lifecycle(log) + [] == Lifecycle(log);
  }

  lemma DiffsHaveNoLifecycle(known: map<string, RoomMember>, members: seq<RoomMember>, events: seq<RoomEvent>)
    requires AreDiffEvents(known, members, events)
    ensures Lifecycle(events) == []
  {
    DiffEventsArePeerEvents(known, members, events);
    PeerEventsHaveNoLifecycle(events);
  }

  lemma LifecycleAround(log: seq<RoomEvent>, peers: seq<RoomEvent>, tail: seq<RoomEvent>)
    requires Lifecycle(peers) == []
    ensures Lifecycle(log + peers + tail) == Lifecycle(log) + Lifecycle(tail)
  {
    LifecycleOfThree(log, peers, tail);
    assert Lifecycle(log) + [] == Lifecycle(log);
  }

  lemma LifecycleOfTail(state: RoomSnapshot, refresh: BackendRefresh)
    ensures Lifecycle(PollTail(state, refresh))
         == if AfterSample(state, refresh).state != state.state then [AfterSample(state, refresh).state] else []
  {
    LifecycleOfConcatenation(NetworkNews(state, refresh), StateNews(state, refresh));
    PeerEventsHaveNoLifecycle(NetworkNews(state, refresh));
    if StateNews(state, refresh) != [] {
      LifecycleOfOne(StateNews(state, refresh)[0]);
    }
  }

  lemma PollReachesState(s: Service, refresh: BackendRefresh, s': Service)
    requires Polled(s, Success(refresh), s') && (s.state.state == Connected || s.state.state == Reconnecting)
    requires LifecycleReaches(s.log, s.state.state)
    ensures LifecycleReaches(s'.log, s'.state.state)
  {
    LifecycleOfPoll(s, refresh, s');
    if s'.state.state != s.state.state {
      LifecycleExtends(Lifecycle(s.log), s'.state.state);
    }
  }

  lemma PollKeepsInvariant(s: Service, answer: Result<BackendRefresh, RoomError>, s': Service)
    requires ServiceInvariant(s) && Polled(s, answer, s')
    ensures ServiceInvariant(s')
  {
    if answer.Success? && IsActive(s.state.state) {
      var refresh := answer.value;
      PollReachesState(s, refresh, s');
      if refresh.members.Some? {
        MapOfIsKeyedById(refresh.members.value);
      }
    }
  }

  lemma OneMorePublished(log: seq<RoomEvent>, snapshot: RoomSnapshot)
    requires IsLifecycle(Lifecycle(log)) && MayFollow(Last(Lifecycle(log)), snapshot.state)
    ensures IsLifecycle(Lifecycle(log + [StateChanged(snapshot)]))
    ensures Last(Lifecycle(log + [StateChanged(snapshot)])) == Some(snapshot.state)
  {
    LifecycleOfConcatenation(log, [StateChanged(snapshot)]);
    LifecycleOfOne(StateChanged(snapshot));
    LifecycleExtends(Lifecycle(log), snapshot.state);
  }

  lemma EnteredSnapshotFits(
      s: Service, role: RoomRole, gameSessionId: Option<string>, answer: Result<BackendRoom, RoomError>)
    requires role != NoRole && (role == HostRole ==> gameSessionId.Some?)
    ensures SnapshotFits(Entered(s, role, gameSessionId, answer).0.state)
    ensures Entered(s, role, gameSessionId, answer).0.state.state in {Connected, Faulted}
  {
    if answer.Success? && NormalizeRoomCode(answer.value.roomCode).Some? {
      NormalisersAgree(answer.value.roomCode);
      Credentials.NormalFormsAreTheFixedPoints(answer.value.roomCode);
    }
  }

  lemma EntryKeepsInvariant(
      s: Service, role: RoomRole, gameSessionId: Option<string>, answer: Result<BackendRoom, RoomError>)
    requires ServiceInvariant(s) && s.state.state == Idle && role != NoRole
    requires role == HostRole ==> gameSessionId.Some?
    ensures ServiceInvariant(Entered(s, role, gameSessionId, answer).0)
  {
    EnteredSnapshotFits(s, role, gameSessionId, answer);
    var entered := Entered(s, role, gameSessionId, answer).0;
    if entered.state.state == Connected {
      MapOfIsKeyedById(entered.state.members);
      OneMorePublished(s.log, entered.state);
    }
  }

  lemma LeaveKeepsInvariant(s: Service, answer: Result<(), RoomError>)
    requires ServiceInvariant(s)
    ensures ServiceInvariant(AfterLeave(s, answer).0)
  {
    if s.state.state != Idle && answer.Success? {
      OneMorePublished(s.log, IDLE);
    }
  }

  lemma StepKeepsInvariant(s: Service, op: Op, s': Service)
    requires ServiceInvariant(s) && Step(s, op, s')
    ensures ServiceInvariant(s')
  {
    match op
    case CreateOp(request, answer) =>
      if CheckedCreate(request).Success? && s.state.state == Idle {
        EntryKeepsInvariant(s, HostRole, Some(CheckedCreate(request).value.gameSessionId), answer);
      }
    case JoinOp(request, answer) =>
      if CheckedJoin(request).Success? && s.state.state == Idle {
        EntryKeepsInvariant(s, MemberRole, CheckedJoin(request).value.gameSessionId, answer);
      }
    case PollOp(answer) =>
      PollKeepsInvariant(s, answer, s');
    case LanOp(address, answer, refresh) =>
      if MayChangeLan(s, address) && answer.Success? {
        PollKeepsInvariant(s, refresh, s');
      }
    case DiagnoseOp(answer, fallback) =>
    case LeaveOp(answer) =>
      LeaveKeepsInvariant(s, answer);
  }

  /** On every run: settled states with fitting snapshots, and a lifecycle in the published language. */
  lemma {:induction false} InvariantOnEveryRun(states: seq<Service>, ops: seq<Op>, i: nat)
    requires IsRun(states, ops) && i < |states|
    ensures ServiceInvariant(states[i])
  {
    if i > 0 {
      InvariantOnEveryRun(states, ops, i - 1);
      StepKeepsInvariant(states[i - 1], ops[i - 1], states[i]);
    }
  }

  /** After a poll of a live room that brings a network sample, the state is connected exactly when it is healthy. */
  lemma StateFollowsHealth(states: seq<Service>, ops: seq<Op>, i: nat)
    requires IsRun(states, ops) && i < |ops|
    requires ops[i].PollOp? && ops[i].polled.Success? && ops[i].polled.value.network.Some?
    requires IsActive(states[i].state.state)
    ensures states[i + 1].state.network == ops[i].polled.value.network
    ensures states[i + 1].state.state == if ops[i].polled.value.network.value.isHealthy then Connected else Reconnecting
  {
    InvariantOnEveryRun(states, ops, i);
  }

  // ----- Replay on whole runs -----

  /** The subscriber is in the room whenever the service is, and holds exactly the known members. */
  ghost predicate IsReplayed(s: Service) {
    var sub := Replay(NOBODY, s.log);
    && sub.members == s.known
    && (s.state.state == Idle ==> !sub.inRoom)
    && (s.state.state == Connected || s.state.state == Reconnecting ==> sub.inRoom)
  }

  ghost predicate IsSafePoll(s: Service, answer: Result<BackendRefresh, RoomError>) {
    answer.Success? && IsActive(s.state.state) && answer.value.members.Some? ==>
      IsReplaySafe(s.known, answer.value.members.value)
  }

  /** The member list that an operation folds into the known members, if any, is replay-safe. */
  ghost predicate IsSafeStep(s: Service, op: Op) {
    match op
    case PollOp(answer) => IsSafePoll(s, answer)
    case LanOp(address, answer, refresh) => MayChangeLan(s, address) && answer.Success? ==> IsSafePoll(s, refresh)
    case _ => true
  }

  lemma TailIsIgnoredInRoom(sub: Subscriber, state: RoomSnapshot, refresh: BackendRefresh)
    requires sub.inRoom && (state.state == Connected || state.state == Reconnecting)
    ensures Replay(sub, PollTail(state, refresh)) == sub
  {
    var tail := PollTail(state, refresh);
    forall e | e in tail
      ensures Observe(sub, e) == sub
    {
    }
    IgnoredEvents(sub, tail);
  }

  lemma {:induction false} IgnoredEvents(sub: Subscriber, events: seq<RoomEvent>)
    requires forall e :: e in events ==> Observe(sub, e) == sub
    ensures Replay(sub, events) == sub
  {
    if events != [] {
      var front := events[..|events| - 1];
      assert events == front + [events[|events| - 1]];
      assert events[|events| - 1] in events;
      IgnoredEvents(sub, front);
    }
  }

  /** The peer events, then the tail, which the subscriber ignores. */
  lemma ReplayOfPoll(s: Service, peers: seq<RoomEvent>, refresh: BackendRefresh)
    requires IsReplayed(s) && (s.state.state == Connected || s.state.state == Reconnecting)
    requires Replay(Subscriber(true, s.known), peers).inRoom
    ensures Replay(NOBODY, s.log + peers + PollTail(s.state, refresh)) == Replay(Subscriber(true, s.known), peers)
  {
    var sub := Replay(NOBODY, s.log);
    assert sub == Subscriber(true, s.known);
    ReplayOfConcatenation(NOBODY, s.log + peers, PollTail(s.state, refresh));
    ReplayOfConcatenation(NOBODY, s.log, peers);
    TailIsIgnoredInRoom(Replay(sub, peers), s.state, refresh);
  }

  lemma PollReplay(s: Service, answer: Result<BackendRefresh, RoomError>, s': Service)
    requires ServiceInvariant(s) && IsReplayed(s) && Polled(s, answer, s')
    ensures IsReplayed(s') <==> IsSafePoll(s, answer)
  {
    if answer.Success? && IsActive(s.state.state) {
      var refresh := answer.value;
      var peers := s'.log[|s.log|..|s'.log| - |PollTail(s.state, refresh)|];
      if refresh.members.Some? {
        PollReplaysExactlyWhenSafe(s.known, refresh.members.value, peers, true);
      }
      ReplayOfPoll(s, peers, refresh);
    }
  }

  lemma ReplayOfOneMore(log: seq<RoomEvent>, e: RoomEvent)
    ensures Replay(NOBODY, log + [e]) == Observe(Replay(NOBODY, log), e)
  {
    assert (log + [e])[..|log|] == log;
  }

  /** A room entered is a snapshot published. */
  lemma PublishedEntryIsReplayed(s: Service, s': Service)
    requires IsReplayed(s) && s.state.state == Idle && s'.state.state == Connected
    requires s' == Service(s'.state, MapOf(s'.state.members), s.log + [StateChanged(s'.state)])
    ensures IsReplayed(s')
  {
    ReplayOfOneMore(s.log, StateChanged(s'.state));
  }

  lemma EntryReplay(
      s: Service, role: RoomRole, gameSessionId: Option<string>, answer: Result<BackendRoom, RoomError>)
    requires IsReplayed(s) && s.state.state == Idle
    ensures IsReplayed(Entered(s, role, gameSessionId, answer).0)
  {
    var entered := Entered(s, role, gameSessionId, answer).0;
    if entered.state.state == Connected {
      PublishedEntryIsReplayed(s, entered);
    }
  }

  lemma LeaveReplay(s: Service, answer: Result<(), RoomError>)
    requires ServiceInvariant(s) && IsReplayed(s)
    ensures IsReplayed(AfterLeave(s, answer).0)
  {
    ReplayOfOneMore(s.log, StateChanged(IDLE));
  }

  /** An operation keeps subscriber and service together exactly when the list it folds in is replay-safe. */
  lemma StepReplaysExactlyWhenSafe(s: Service, op: Op, s': Service)
    requires ServiceInvariant(s) && IsReplayed(s) && Step(s, op, s')
    ensures IsReplayed(s') <==> IsSafeStep(s, op)
  {
    match op
    case CreateOp(request, answer) =>
      if CheckedCreate(request).Success? && s.state.state == Idle {
        EntryReplay(s, HostRole, Some(CheckedCreate(request).value.gameSessionId), answer);
      }
    case JoinOp(request, answer) =>
      if CheckedJoin(request).Success? && s.state.state == Idle {
        EntryReplay(s, MemberRole, CheckedJoin(request).value.gameSessionId, answer);
      }
    case PollOp(answer) =>
      PollReplay(s, answer, s');
    case LanOp(address, answer, refresh) =>
      if MayChangeLan(s, address) && answer.Success? {
        PollReplay(s, refresh, s');
      }
    case DiagnoseOp(answer, fallback) =>
    case LeaveOp(answer) =>
      LeaveReplay(s, answer);
  }

  /** On every run of safe operations the event stream replays to exactly the known members. */
  lemma {:induction false} ReplayOnEveryRun(states: seq<Service>, ops: seq<Op>, i: nat)
    requires IsRun(states, ops) && i < |states|
    requires forall k :: 0 <= k < i ==> IsSafeStep(states[k], ops[k])
    ensures IsReplayed(states[i])
  {
    if i > 0 {
      ReplayOnEveryRun(states, ops, i - 1);
      InvariantOnEveryRun(states, ops, i - 1);
      StepReplaysExactlyWhenSafe(states[i - 1], ops[i - 1], states[i]);
    }
  }

  /** Every refreshed member list of the run names each member once. */
  ghost predicate ListsMembersOnce(op: Op) {
    match op
    case PollOp(answer) =>
      answer.Success? && answer.value.members.Some? ==> NamesMembersOnce(answer.value.members.value)
    case LanOp(_, _, refresh) =>
      refresh.Success? && refresh.value.members.Some? ==> NamesMembersOnce(refresh.value.members.value)
    case _ => true
  }

  /** Distinct ids in the refreshed lists are all it takes. */
  lemma {:induction false} DistinctIdsReplayOnEveryRun(states: seq<Service>, ops: seq<Op>, i: nat)
    requires IsRun(states, ops) && i < |states|
    requires forall k :: 0 <= k < i ==> ListsMembersOnce(ops[k])
    ensures Replay(NOBODY, states[i].log).members == states[i].known
  {
    forall k | 0 <= k < i
      ensures IsSafeStep(states[k], ops[k])
    {
      assert ListsMembersOnce(ops[k]);
      DistinctListsAreSafe(states[k], ops[k]);
    }
    ReplayOnEveryRun(states, ops, i);
  }

  lemma DistinctListsAreSafe(s: Service, op: Op)
    requires ListsMembersOnce(op)
    ensures IsSafeStep(s, op)
  {
    match op
    case PollOp(answer) =>
      if answer.Success? && answer.value.members.Some? {
        DistinctIdsAreReplaySafe(s.known, answer.value.members.value);
      }
    case LanOp(_, _, refresh) =>
      if refresh.Success? && refresh.value.members.Some? {
        DistinctIdsAreReplaySafe(s.known, refresh.value.members.value);
      }
    case _ =>
  }
}
