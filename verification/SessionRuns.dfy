/** What every run of an IPC session guarantees to the client at the other end: ipc/session.rs. */
module SessionRuns {
  import opened BackendSpec
  import opened HelperSpec
  import opened RoomTypes
  import opened SessionSpec
  import opened Wrappers
  import EventReplay
  import HelperRuns
  import Mesh
  import RoomSpec

  // ----- The trace -----

  function Ids(requests: seq<Request>): seq<string> {
    seq(|requests|, i requires 0 <= i < |requests| => requests[i].id)
  }

  /** The ids of the replies, in the order they were written. */
  function ReplyIds(frames: seq<Frame>): seq<string> {
    if frames == [] then []
    else
      var last := frames[|frames| - 1];
      ReplyIds(frames[..|frames| - 1]) + if last.body.Push? then [] else [last.id]
  }

  /** The pushed frames, in the order they were written. */
  function Pushes(frames: seq<Frame>): seq<Frame> {
    if frames == [] then []
    else
      var last := frames[|frames| - 1];
      Pushes(frames[..|frames| - 1]) + if last.body.Push? then [last] else []
  }

  function PushedEvents(frames: seq<Frame>): seq<RoomEvent> {
    if frames == [] then []
    else
      var last := frames[|frames| - 1];
      PushedEvents(frames[..|frames| - 1]) + if last.body.Push? then [last.body.event] else []
  }

  /** Pushes are numbered from one, modulo 2^64. */
  ghost predicate AreNumbered(pushes: seq<Frame>) {
    forall k :: 0 <= k < |pushes| ==> HasNumber(pushes[k], k)
  }

  /** The frame is the push after `k` others. */
  predicate HasNumber(frame: Frame, k: nat) {
    frame.id == EventId((k + 1) % TWO_TO_THE_64)
  }

  /** Every request read has been answered, save the last one when its answer could not be written. */
  predicate IsAnswered(s: Session) {
    || ReplyIds(s.written) == Ids(s.read)
    || (s.outcome == Some(Broken) && s.read != [] && ReplyIds(s.written) == Ids(s.read[..|s.read| - 1]))
  }

  predicate OpensOnce(frames: seq<Frame>, hello: Request) {
    && frames != [] && frames[0] == Frame(hello.id, HelloAccepted)
    && forall k :: 0 < k < |frames| ==> !frames[k].body.HelloAccepted?
  }

  ghost predicate IsDistinct(ids: seq<string>) {
    forall i, j :: 0 <= i < j < |ids| ==> ids[i] != ids[j]
  }

  ghost predicate TraceInvariant(s: Session, hello: Request) {
    && s.read != [] && s.read[0] == hello
    && IsAnswered(s)
    && OpensOnce(s.written, hello)
    && AreNumbered(Pushes(s.written))
    && (s.outcome.None? ==> s.sequence == |Pushes(s.written)| % TWO_TO_THE_64)
  }

  lemma SentOnTrace(frames: seq<Frame>, frame: Frame)
    ensures ReplyIds(frames + [frame]) == ReplyIds(frames) + if frame.body.Push? then [] else [frame.id]
    ensures Pushes(frames + [frame]) == Pushes(frames) + if frame.body.Push? then [frame] else []
    ensures PushedEvents(frames + [frame]) == PushedEvents(frames) + if frame.body.Push? then [frame.body.event] else []
  {
    assert (frames + [frame])[..|frames|] == frames;
  }

  /** A step as the trace sees it, whatever the service made of the request. */
  ghost predicate TraceStep(s: Session, e: Happening, s': Session) {
    && s.outcome.None?
    && match e
       case Arrives(request, _, reply, delivered) =>
         && !reply.Push? && !reply.HelloAccepted?
         && s'.read == s.read + [request]
         && s'.written == (if delivered then s.written + [Frame(request.id, reply)] else s.written)
         && (s'.outcome == Some(Broken) <==> !delivered)
         && s'.sequence == s.sequence && s'.cursor == s.cursor && s'.missed == s.missed
       case Announces(delivered) => s.cursor < |s.helper.service.log| && s' == AfterAnnouncement(s, delivered)
       case _ => s' == s.(helper := s'.helper, outcome := s'.outcome)
  }

  lemma RepliesArePlain(h: Helper, action: Action, call: Call, config: Config, h': Helper, body: Body)
    requires IsReplyTo(h, action, call, config, h', body)
    ensures !body.Push? && !body.HelloAccepted?
  {
  }

  lemma ArrivalsAreTraced(
      s: Session, request: Request, call: Option<Call>, reply: Body, delivered: bool, config: Config, s': Session)
    requires s.outcome.None? && Arrived(s, request, call, reply, delivered, config, s')
    ensures TraceStep(s, Arrives(request, call, reply, delivered), s')
  {
    if call.Some? {
      RepliesArePlain(s.helper, ActionOf(s.identity.Some?, request), call.value, config, s'.helper, reply);
    }
  }

  lemma StepsAreTraced(s: Session, e: Happening, config: Config, s': Session)
    requires SessionStep(s, e, config, s')
    ensures TraceStep(s, e, s')
  {
    if e.Arrives? {
      ArrivalsAreTraced(s, e.request, e.call, e.reply, e.delivered, config, s');
    }
  }

  lemma ReplyExtends(read: seq<Request>, written: seq<Frame>, request: Request, frame: Frame)
    requires ReplyIds(written) == Ids(read) && frame.id == request.id && !frame.body.Push?
    ensures ReplyIds(written + [frame]) == Ids(read + [request])
  {
    SentOnTrace(written, frame);
    assert Ids(read + [request]) == Ids(read) + [request.id];
  }

  lemma OpeningStays(written: seq<Frame>, frame: Frame, hello: Request)
    requires OpensOnce(written, hello) && !frame.body.HelloAccepted?
    ensures OpensOnce(written + [frame], hello)
  {
  }

  lemma StepKeepsReplies(s: Session, e: Happening, s': Session, hello: Request)
    requires s.read != [] && s.read[0] == hello && IsAnswered(s) && OpensOnce(s.written, hello)
    requires TraceStep(s, e, s')
    ensures s'.read != [] && s'.read[0] == hello && IsAnswered(s') && OpensOnce(s'.written, hello)
  {
    match e
    case Arrives(request, call, reply, delivered) =>
      var frame := Frame(request.id, reply);
      ReplyExtends(s.read, s.written, request, frame);
      OpeningStays(s.written, frame, hello);
      assert (s.read + [request])[..|s.read|] == s.read;
    case Announces(delivered) =>
      if s'.written != s.written {
        SentOnTrace(s.written, s'.written[|s.written|]);
        OpeningStays(s.written, s'.written[|s.written|], hello);
      }
    case _ =>
  }

  lemma StepKeepsNumbering(s: Session, e: Happening, s': Session)
    requires AreNumbered(Pushes(s.written)) && s.sequence == |Pushes(s.written)| % TWO_TO_THE_64
    requires TraceStep(s, e, s')
    ensures AreNumbered(Pushes(s'.written))
    ensures s'.outcome.None? ==> s'.sequence == |Pushes(s'.written)| % TWO_TO_THE_64
  {
    match e
    case Arrives(request, call, reply, delivered) =>
      SentOnTrace(s.written, Frame(request.id, reply));
    case Announces(delivered) =>
      AnnouncementsNumber(s, delivered);
    case _ =>
  }

  lemma AnnouncementsNumber(s: Session, delivered: bool)
    requires AreNumbered(Pushes(s.written)) && s.sequence == |Pushes(s.written)| % TWO_TO_THE_64
    requires s.cursor < |s.helper.service.log|
    ensures var s' := AfterAnnouncement(s, delivered);
      && AreNumbered(Pushes(s'.written))
      && (s'.outcome == s.outcome ==> s.outcome.Some? || s'.sequence == |Pushes(s'.written)| % TWO_TO_THE_64)
  {
    var s' := AfterAnnouncement(s, delivered);
    var n := |Pushes(s.written)|;
    if s'.written != s.written {
      var frame := s'.written[|s.written|];
      SentOnTrace(s.written, frame);
      IsNextPush(n, s.sequence, frame);
      NumberingExtends(Pushes(s.written), frame);
    }
  }

  lemma IsNextPush(n: nat, sequence: nat, frame: Frame)
    requires sequence == n % TWO_TO_THE_64 && frame.id == EventId((sequence + 1) % TWO_TO_THE_64)
    ensures HasNumber(frame, n) && (sequence + 1) % TWO_TO_THE_64 == (n + 1) % TWO_TO_THE_64
  {
    NextNumber(n);
  }

  lemma NextNumber(n: nat)
    ensures (n % TWO_TO_THE_64 + 1) % TWO_TO_THE_64 == (n + 1) % TWO_TO_THE_64
  {
  }

  lemma NumberingExtends(pushes: seq<Frame>, frame: Frame)
    requires AreNumbered(pushes) && HasNumber(frame, |pushes|)
    ensures AreNumbered(pushes + [frame])
  {
    forall k | 0 <= k < |pushes + [frame]|
      ensures HasNumber((pushes + [frame])[k], k)
    {
      if k < |pushes| {
        assert (pushes + [frame])[k] == pushes[k];
      }
    }
  }

  lemma StepKeepsTrace(s: Session, e: Happening, s': Session, hello: Request)
    requires TraceInvariant(s, hello) && TraceStep(s, e, s')
    ensures TraceInvariant(s', hello)
  {
    StepKeepsReplies(s, e, s', hello);
    StepKeepsNumbering(s, e, s');
  }

  /** Replies answer the requests one for one and in order; pushes come after the acceptance, consecutively numbered. */
  lemma {:induction false} TraceOnEveryRun(ss: seq<Session>, es: seq<Happening>, hello: Request, config: Config, i: nat)
    requires IsSessionRun(ss, es, hello, config) && i < |ss|
    ensures TraceInvariant(ss[i], hello)
  {
    if i > 0 {
      TraceOnEveryRun(ss, es, hello, config, i - 1);
      StepsAreTraced(ss[i - 1], es[i - 1], config, ss[i]);
      StepKeepsTrace(ss[i - 1], es[i - 1], ss[i], hello);
    } else {
      SentOnTrace([], Frame(hello.id, HelloAccepted));
      assert [] + [Frame(hello.id, HelloAccepted)] == ss[0].written;
      assert Ids(ss[0].read) == [hello.id];
    }
  }

  // ----- Request ids -----

  ghost predicate IdsInvariant(s: Session, hello: Request) {
    && IsDistinct([hello.id] + s.admitted)
    && s.ids == (set id | id in [hello.id] + s.admitted)
    && |s.ids| == |s.admitted| + 1
    && |s.ids| <= MAX_REQUEST_IDS
  }

  /** A step as the record of ids sees it. */
  ghost predicate IdsStep(s: Session, e: Happening, s': Session) {
    (s'.ids, s'.admitted)
    == if e.Arrives? && Refusal(s.ids, e.request).None?
       then (s.ids + {e.request.id}, s.admitted + [e.request.id])
       else (s.ids, s.admitted)
  }

  lemma StepsAdmit(s: Session, e: Happening, config: Config, s': Session)
    requires SessionStep(s, e, config, s')
    ensures IdsStep(s, e, s')
  {
  }

  lemma StepKeepsIds(s: Session, e: Happening, s': Session, hello: Request)
    requires IdsInvariant(s, hello) && IdsStep(s, e, s')
    ensures IdsInvariant(s', hello)
  {
    if e.Arrives? && Refusal(s.ids, e.request).None? {
      var before := [hello.id] + s.admitted;
      var after := [hello.id] + s'.admitted;
      assert after == before + [e.request.id];
      assert e.request.id !in before;
    }
  }

  /** No id is admitted twice, the record never exceeds 4096 ids, and at most 4095 requests are acted upon. */
  lemma {:induction false} IdsOnEveryRun(ss: seq<Session>, es: seq<Happening>, hello: Request, config: Config, i: nat)
    requires IsSessionRun(ss, es, hello, config) && i < |ss|
    ensures IdsInvariant(ss[i], hello)
    ensures |ss[i].admitted| <= 4095
  {
    if i > 0 {
      IdsOnEveryRun(ss, es, hello, config, i - 1);
      StepsAdmit(ss[i - 1], es[i - 1], config, ss[i]);
      StepKeepsIds(ss[i - 1], es[i - 1], ss[i], hello);
    } else {
      assert ss[0].ids == (set id | id in [hello.id] + ss[0].admitted);
    }
  }

  /** The service is called for a request only when its id is new, and then the id is recorded. */
  lemma CallsAreAdmitted(ss: seq<Session>, es: seq<Happening>, hello: Request, config: Config, i: nat)
    requires IsSessionRun(ss, es, hello, config) && i < |es| && es[i].Arrives? && es[i].call.Some?
    ensures es[i].request.id !in ss[i].ids && es[i].request.id in ss[i + 1].ids
    ensures ss[i + 1].admitted == ss[i].admitted + [es[i].request.id]
  {
    assert SessionStep(ss[i], es[i], config, ss[i + 1]);
  }

  // ----- Reply types -----

  /** `Envelope::response` names the type of each body. */
  function MessageType(body: Body): string {
    match body
    case HelloAccepted => "hello.accepted"
    case Refused(_) => "error"
    case RoomRefused(_) => "error"
    case IdentityInitialized => "identity.initialized"
    case StatusResult(_) => "room.status.result"
    case RoomLeft(_) => "room.left"
    case RoomCreated(_) => "room.created"
    case RoomJoined(_) => "room.joined"
    case RoomStateChanged(_) => "room.state-changed"
    case DiagnosticUpdated(_) => "diagnostic.updated"
    case ShutdownAccepted => "shutdown.accepted"
    case Push(PeerJoined(_)) => "peer.joined"
    case Push(PeerLeft(_)) => "peer.left"
    case Push(PeerUpdated(_)) => "peer.updated"
    case Push(NetworkUpdated(_)) => "network.updated"
    case Push(StateChanged(_)) => "room.state-changed"
  }

  /** The reply type that the plugin expects to each request that it sends. */
  function ExpectedType(messageType: string): Option<string> {
    if messageType == "identity.initialize" then Some("identity.initialized")
    else if messageType == "room.status" then Some("room.status.result")
    else if messageType == "room.leave" then Some("room.left")
    else if messageType == "room.create" then Some("room.created")
    else if messageType == "room.join" then Some("room.joined")
    else if messageType == "room.set-lan-address" then Some("room.state-changed")
    else if messageType == "network.diagnose" then Some("diagnostic.updated")
    else if messageType == "shutdown" then Some("shutdown.accepted")
    else None
  }

  /** The reply type of an action that succeeds. */
  function SuccessType(action: Action): Option<string> {
    match action
    case Refuse(_) => None
    case Initialize(_) => Some("identity.initialized")
    case AskStatus => Some("room.status.result")
    case AskLeave => Some("room.left")
    case AskCreate(_) => Some("room.created")
    case AskJoin(_) => Some("room.joined")
    case AskLan(_) => Some("room.state-changed")
    case AskDiagnosis => Some("diagnostic.updated")
    case Shutdown => Some("shutdown.accepted")
  }

  lemma ActionsFitTypes(isInitialized: bool, request: Request)
    ensures var action := ActionOf(isInitialized, request);
      action.Refuse? || SuccessType(action) == ExpectedType(request.messageType)
  {
  }

  lemma RepliesFitActions(h: Helper, action: Action, call: Option<Call>, config: Config, h': Helper, body: Body)
    requires Handled(h, action, call, config, h', body)
    ensures action.Refuse? ==> MessageType(body) == "error"
    ensures MessageType(body) == "error" || Some(MessageType(body)) == SuccessType(action)
  {
    if call.Some? {
      CallRepliesFitActions(h, action, call.value, config, h', body);
    }
  }

  lemma CallRepliesFitActions(h: Helper, action: Action, call: Call, config: Config, h': Helper, body: Body)
    requires IsReplyTo(h, action, call, config, h', body)
    ensures !action.Refuse?
    ensures MessageType(body) == "error" || Some(MessageType(body)) == SuccessType(action)
  {
  }

  /** The plugin never meets an unexpected reply type: it gets the one it expects, or an error. */
  lemma RepliesHaveTheExpectedType(
      s: Session, request: Request, call: Option<Call>, reply: Body, delivered: bool, config: Config, s': Session)
    requires Arrived(s, request, call, reply, delivered, config, s')
    ensures MessageType(reply) == "error" || Some(MessageType(reply)) == ExpectedType(request.messageType)
  {
    if Refusal(s.ids, request).None? {
      var action := ActionOf(s.identity.Some?, request);
      ActionsFitTypes(s.identity.Some?, request);
      RepliesFitActions(s.helper, action, call, config, s'.helper, reply);
    }
  }

  // ----- The helper behind the session -----

  /** The gate's identity is the one the backend was given. */
  ghost predicate GateInvariant(s: Session, config: Config) {
    && HelperRuns.HelperInvariant(s.helper, config.hash)
    && (s.identity.Some? ==> s.helper.backend.identity == Some(config.naming(s.identity.value)))
    && s.cursor <= |s.helper.service.log|
  }

  /** What a turn of the loop is to the helper, if it concerns it at all. */
  function CallOf(e: Happening): Option<Call> {
    match e
    case Arrives(_, call, _, _) => call
    case Ticks(polling) => Some(PollCall(polling))
    case GuestActs(happening) => Some(GuestCall(happening))
    case ResourceEnds(resource) => Some(EndsCall(resource))
    case _ => None
  }

  /** The session refines the helper: every turn is a helper step or leaves the helper be. */
  lemma TurnsAreCalls(s: Session, e: Happening, config: Config, s': Session)
    requires SessionStep(s, e, config, s')
    ensures match CallOf(e)
      case Some(call) => HelperStep(s.helper, call, config.hash, s'.helper)
      case None => s'.helper == s.helper
  {
  }

  predicate Extends(longer: seq<RoomEvent>, log: seq<RoomEvent>) {
    |log| <= |longer| && longer[..|log|] == log
  }

  lemma LogOnlyGrows(s: RoomSpec.Service, op: RoomSpec.Op, s': RoomSpec.Service)
    requires RoomSpec.Step(s, op, s')
    ensures Extends(s'.log, s.log)
  {
  }

  lemma CallsGrowLog(h: Helper, call: Call, hash: Mesh.Hash, h': Helper)
    requires HelperStep(h, call, hash, h')
    ensures Extends(h'.service.log, h.service.log)
  {
    HelperRuns.CallsAreOperations(h, call, hash, h');
    match HelperRuns.OpOf(h, call, h') {
      case Some(op) => LogOnlyGrows(h.service, op, h'.service);
      case None =>
    }
  }

  lemma CallsKeepIdentity(h: Helper, call: Call, hash: Mesh.Hash, h': Helper)
    requires HelperRuns.HelperInvariant(h, hash) && HelperStep(h, call, hash, h') && !call.SetIdentityCall?
    ensures h'.backend.identity == h.backend.identity
  {
    match call
    case LanCall(address, env, answer, polling) =>
      HelperRuns.LanKeepsInvariant(h, address, env, answer, polling, hash, h');
    case _ =>
  }

  lemma StepKeepsGate(s: Session, e: Happening, config: Config, s': Session)
    requires GateInvariant(s, config) && SessionStep(s, e, config, s')
    ensures GateInvariant(s', config)
  {
    TurnsAreCalls(s, e, config, s');
    if CallOf(e).Some? {
      HelperRuns.HelperStepKeepsInvariant(s.helper, CallOf(e).value, config.hash, s'.helper);
      CallsGrowLog(s.helper, CallOf(e).value, config.hash, s'.helper);
      if !CallOf(e).value.SetIdentityCall? {
        CallsKeepIdentity(s.helper, CallOf(e).value, config.hash, s'.helper);
      }
    }
  }

  lemma {:induction false} GateOnEveryRun(ss: seq<Session>, es: seq<Happening>, hello: Request, config: Config, i: nat)
    requires IsSessionRun(ss, es, hello, config) && i < |ss|
    ensures GateInvariant(ss[i], config)
  {
    if i > 0 {
      GateOnEveryRun(ss, es, hello, config, i - 1);
      StepKeepsGate(ss[i - 1], es[i - 1], config, ss[i]);
    }
  }

  /** Create and join reach the service only behind an initialised identity, so the backend never misses one. */
  lemma RoomsAreEnteredWithIdentity(ss: seq<Session>, es: seq<Happening>, hello: Request, config: Config, i: nat)
    requires IsSessionRun(ss, es, hello, config) && i < |es|
    requires CallOf(es[i]).Some? && (CallOf(es[i]).value.CreateCall? || CallOf(es[i]).value.JoinCall?)
    ensures ss[i].identity.Some?
    ensures ss[i].helper.backend.identity == Some(config.naming(ss[i].identity.value))
  {
    GateOnEveryRun(ss, es, hello, config, i);
    EntriesAreGated(ss[i], es[i], config, ss[i + 1]);
  }

  lemma EntriesAreGated(s: Session, e: Happening, config: Config, s': Session)
    requires SessionStep(s, e, config, s')
    requires CallOf(e).Some? && (CallOf(e).value.CreateCall? || CallOf(e).value.JoinCall?)
    ensures s.identity.Some?
  {
    var action := ActionOf(s.identity.Some?, e.request);
    EntriesAreAskedFor(s.helper, action, e.call.value, config, s'.helper, e.reply);
  }

  lemma EntriesAreAskedFor(h: Helper, action: Action, call: Call, config: Config, h': Helper, body: Body)
    requires IsReplyTo(h, action, call, config, h', body) && (call.CreateCall? || call.JoinCall?)
    ensures action.AskCreate? || action.AskJoin?
  {
  }

  /** A step as the gate sees it. */
  ghost predicate GateStep(s: Session, e: Happening, s': Session) {
    s'.identity
    == if e.Arrives? && Refusal(s.ids, e.request).None? && ActionOf(s.identity.Some?, e.request).Initialize?
       then Some(ActionOf(s.identity.Some?, e.request).key) else s.identity
  }

  lemma StepsPassTheGate(s: Session, e: Happening, config: Config, s': Session)
    requires SessionStep(s, e, config, s')
    ensures GateStep(s, e, s')
  {
  }

  /** Only a request that carries a key changes the gate's identity, and to that key. */
  lemma IdentityChangesByRequest(s: Session, e: Happening, s': Session)
    requires GateStep(s, e, s') && s'.identity != s.identity
    ensures e.Arrives? && e.request.messageType == "identity.initialize" && e.request.payload.privateKey.Some?
    ensures DecodedKey(e.request.payload.privateKey.value) == s'.identity
  {
  }

  /** An identity present has come from an earlier request of this session that carried it. */
  lemma {:induction false} IdentityWasInitialized(
      ss: seq<Session>, es: seq<Happening>, hello: Request, config: Config, i: nat) returns (k: nat)
    requires IsSessionRun(ss, es, hello, config) && i < |ss| && ss[i].identity.Some?
    ensures k < i && es[k].Arrives? && es[k].request.messageType == "identity.initialize"
    ensures es[k].request.payload.privateKey.Some?
    ensures DecodedKey(es[k].request.payload.privateKey.value) == ss[i].identity
  {
    if ss[i - 1].identity == ss[i].identity {
      k := IdentityWasInitialized(ss, es, hello, config, i - 1);
    } else {
      k := i - 1;
      StepsPassTheGate(ss[k], es[k], config, ss[i]);
      IdentityChangesByRequest(ss[k], es[k], ss[i]);
    }
  }

  // ----- The client's copy of the membership -----

  /** While nothing was missed, the pushes are the log up to the cursor. */
  ghost predicate FeedInvariant(s: Session) {
    s.missed == 0 && s.outcome != Some(Broken) ==>
      s.cursor <= |s.helper.service.log| && PushedEvents(s.written) == s.helper.service.log[..s.cursor]
  }

  lemma TurnsGrowLog(s: Session, e: Happening, config: Config, s': Session)
    requires SessionStep(s, e, config, s')
    ensures Extends(s'.helper.service.log, s.helper.service.log)
  {
    TurnsAreCalls(s, e, config, s');
    if CallOf(e).Some? {
      CallsGrowLog(s.helper, CallOf(e).value, config.hash, s'.helper);
    }
  }

  lemma LongerLogsKeepTheFeed(log: seq<RoomEvent>, longer: seq<RoomEvent>, cursor: nat)
    requires cursor <= |log| && Extends(longer, log)
    ensures longer[..cursor] == log[..cursor]
  {
  }

  lemma AnnouncementsFeed(s: Session, delivered: bool)
    requires FeedInvariant(s) && s.outcome.None? && s.cursor < |s.helper.service.log|
    ensures FeedInvariant(AfterAnnouncement(s, delivered))
  {
    var log := s.helper.service.log;
    var s' := AfterAnnouncement(s, delivered);
    if s'.written != s.written {
      SentOnTrace(s.written, s'.written[|s.written|]);
      assert log[..s.cursor + 1] == log[..s.cursor] + [log[s.cursor]];
    }
  }

  lemma StepKeepsFeed(s: Session, e: Happening, s': Session)
    requires FeedInvariant(s) && TraceStep(s, e, s') && Extends(s'.helper.service.log, s.helper.service.log)
    ensures FeedInvariant(s') && s.missed <= s'.missed
  {
    if s.cursor <= |s.helper.service.log| {
      LongerLogsKeepTheFeed(s.helper.service.log, s'.helper.service.log, s.cursor);
    }
    match e
    case Arrives(request, call, reply, delivered) =>
      SentOnTrace(s.written, Frame(request.id, reply));
    case Announces(delivered) =>
      AnnouncementsFeed(s, delivered);
    case _ =>
  }

  lemma {:induction false} FeedOnEveryRun(ss: seq<Session>, es: seq<Happening>, hello: Request, config: Config, i: nat)
    requires IsSessionRun(ss, es, hello, config) && i < |ss|
    ensures FeedInvariant(ss[i])
  {
    if i > 0 {
      FeedOnEveryRun(ss, es, hello, config, i - 1);
      GateOnEveryRun(ss, es, hello, config, i - 1);
      TurnsGrowLog(ss[i - 1], es[i - 1], config, ss[i]);
      StepsAreTraced(ss[i - 1], es[i - 1], config, ss[i]);
      StepKeepsFeed(ss[i - 1], es[i - 1], ss[i]);
    }
  }

  /** Every poll of the run is of a hosted room, or hears of every player once. */
  ghost predicate IsSafeTurn(s: Session, e: Happening) {
    CallOf(e).Some? ==> IsHost(s.helper.backend.session) || HelperRuns.HearsPlayersOnce(CallOf(e).value)
  }

  lemma {:induction false} ReplayOnEverySession(
      ss: seq<Session>, es: seq<Happening>, hello: Request, config: Config, i: nat)
    requires IsSessionRun(ss, es, hello, config) && i < |ss|
    requires forall k :: 0 <= k < i ==> IsSafeTurn(ss[k], es[k])
    ensures EventReplay.IsReplayed(ss[i].helper.service)
  {
    if i > 0 {
      ReplayOnEverySession(ss, es, hello, config, i - 1);
      GateOnEveryRun(ss, es, hello, config, i - 1);
      TurnsAreCalls(ss[i - 1], es[i - 1], config, ss[i]);
      if CallOf(es[i - 1]).Some? {
        assert IsSafeTurn(ss[i - 1], es[i - 1]);
        HelperRuns.HelperStepIsReplayed(ss[i - 1].helper, CallOf(es[i - 1]).value, config.hash, ss[i].helper);
      }
    }
  }

  /** A client that has missed nothing and is up to date holds exactly the members the helper knows. */
  lemma ClientHoldsTheMembers(ss: seq<Session>, es: seq<Happening>, hello: Request, config: Config, i: nat)
    requires IsSessionRun(ss, es, hello, config) && i < |ss|
    requires forall k :: 0 <= k < i ==> IsSafeTurn(ss[k], es[k])
    requires ss[i].missed == 0 && ss[i].outcome != Some(Broken)
    requires ss[i].cursor == |ss[i].helper.service.log|
    ensures EventReplay.Replay(EventReplay.NOBODY, PushedEvents(ss[i].written)).members == ss[i].helper.service.known
  {
    ReplayOnEverySession(ss, es, hello, config, i);
    FeedOnEveryRun(ss, es, hello, config, i);
    assert ss[i].helper.service.log[..ss[i].cursor] == ss[i].helper.service.log;
  }
}
