/** The plugin's IPC client and the helper's session at the two ends of one connection. */
module Demultiplexing {
  import opened HelperIpcClient
  import opened SessionSpec
  import opened Wrappers
  import SessionRuns

  // ----- Identifiers -----

  /** `Guid.NewGuid().ToString("N")`: 32 hexadecimal digits. */
  predicate IsGuid(id: string) {
    |id| == 32 && forall i :: 0 <= i < 32 ==> '0' <= id[i] <= '9' || 'a' <= id[i] <= 'f'
  }

  lemma EventIdsAreNoGuids(sequence: nat)
    ensures !IsGuid(EventId(sequence))
  {
    assert EventId(sequence)[1] == 'v';
  }

  lemma {:induction false} DecimalIsInjective(m: nat, n: nat)
    requires Decimal(m) == Decimal(n)
    ensures m == n
  {
    if m < 10 && n < 10 {
      assert Decimal(m)[0] == Decimal(n)[0];
    } else if m >= 10 && n >= 10 {
      var s, t := Decimal(m), Decimal(n);
      assert s[..|s| - 1] == Decimal(m / 10) && t[..|t| - 1] == Decimal(n / 10);
      assert s[|s| - 1] == t[|t| - 1];
      DecimalIsInjective(m / 10, n / 10);
    }
  }

  lemma EventIdsAreInjective(m: nat, n: nat)
    requires EventId(m) == EventId(n)
    ensures m == n
  {
    assert EventId(m)[4..] == Decimal(m) && EventId(n)[4..] == Decimal(n);
    DecimalIsInjective(m, n);
  }

  lemma EarlyPushesAreNumbered(pushes: seq<Frame>, k: nat)
    requires SessionRuns.AreNumbered(pushes) && k < |pushes| < TWO_TO_THE_64
    ensures pushes[k].id == EventId(k + 1)
  {
    assert SessionRuns.HasNumber(pushes[k], k);
    assert (k + 1) % TWO_TO_THE_64 == k + 1;
  }

  /** Within 2^64 events no two pushes of a session carry the same id. */
  lemma PushIdsAreDistinct(pushes: seq<Frame>, j: nat, k: nat)
    requires SessionRuns.AreNumbered(pushes) && j < k < |pushes| < TWO_TO_THE_64
    ensures pushes[j].id != pushes[k].id
  {
    EarlyPushesAreNumbered(pushes, j);
    EarlyPushesAreNumbered(pushes, k);
    if pushes[j].id == pushes[k].id {
      EventIdsAreInjective(j + 1, k + 1);
    }
  }

  // ----- Both ends -----

  /** `delivered` counts the frames of the session that the client's reader has taken. */
  datatype Link = Link(client: Client, session: Session, delivered: nat)

  datatype Event =
    | Begins(request: Request)
    | Writes(call: nat)
    | Cancels(call: nat)
    | Finishes(call: nat)
    | Delivers
    | ReaderFails
    | ReaderIsCancelled
    | Disposes
    | Turns(turn: Happening)

  /** The hello has been called and accepted; its answer is on the way. */
  function Greeted(hello: Request): Link {
    Link(Client([hello], [Waiting], map[hello.id := 0], [0], [], true), Opened(hello), 0)
  }

  /** Callers, the reader and the session act in any order; ids are drawn afresh for every call. */
  ghost predicate LinkStep(l: Link, e: Event, config: Config, l': Link) {
    match e
    case Begins(request) =>
      && IsGuid(request.id) && (forall k :: 0 <= k < |l.client.calls| ==> l.client.calls[k].id != request.id)
      && l' == l.(client := Begun(l.client, request))
    case Writes(call) =>
      && call < |l.client.calls| && call !in l.client.sent
      && l' == l.(client := l.client.(sent := l.client.sent + [call]))
    case Cancels(call) => call < |l.client.completions| && l' == l.(client := AfterCancel(l.client, call))
    case Finishes(call) => call < |l.client.calls| && l' == l.(client := AfterCall(l.client, call))
    case Delivers =>
      && IsConsistent(l.client) && l.client.isReading && l.delivered < |l.session.written|
      && l' == l.(client := Received(l.client, l.session.written[l.delivered]), delivered := l.delivered + 1)
    case ReaderFails => l' == l.(client := AfterReadFailure(l.client))
    case ReaderIsCancelled => l' == l.(client := AfterReadCancelled(l.client))
    case Disposes => l' == l.(client := AfterDispose(l.client))
    case Turns(turn) =>
      && SessionStep(l.session, turn, config, l'.session)
      && l' == l.(session := l'.session)
      && (turn.Arrives? ==>
            && |l.session.read| < |l.client.sent| && l.client.sent[|l.session.read|] < |l.client.calls|
            && turn.request == l.client.calls[l.client.sent[|l.session.read|]])
  }

  ghost predicate IsLinkRun(ls: seq<Link>, es: seq<Event>, hello: Request, config: Config) {
    && |ls| == |es| + 1
    && IsGuid(hello.id) && ls[0] == Greeted(hello)
    && forall i :: 0 <= i < |es| ==> LinkStep(ls[i], es[i], config, ls[i + 1])
  }

  // ----- Invariants -----

  ghost predicate HasDistinctGuids(calls: seq<Request>) {
    && (forall k :: 0 <= k < |calls| ==> IsGuid(calls[k].id))
    && forall j, k :: 0 <= j < k < |calls| ==> calls[j].id != calls[k].id
  }

  /** An answered call holds a frame that has been delivered and carries its id. */
  ghost predicate AreOwnFrames(c: Client, written: seq<Frame>, delivered: nat)
    requires delivered <= |written| && |c.completions| == |c.calls|
  {
    forall n :: 0 <= n < |c.calls| && c.completions[n].Answered? ==>
      && c.completions[n].frame in written[..delivered]
      && c.completions[n].frame.id == c.calls[n].id
  }

  ghost predicate LinkInvariant(l: Link) {
    && IsConsistent(l.client)
    && HasDistinctGuids(l.client.calls)
    && l.delivered <= |l.session.written|
    && AreOwnFrames(l.client, l.session.written, l.delivered)
  }

  lemma DeliveryKeepsOwnFrames(l: Link)
    requires LinkInvariant(l) && l.delivered < |l.session.written|
    ensures AreOwnFrames(
              Received(l.client, l.session.written[l.delivered]), l.session.written, l.delivered + 1)
  {
    var written, d := l.session.written, l.delivered;
    assert written[..d + 1] == written[..d] + [written[d]];
  }

  lemma TurnsKeepWritten(s: Session, e: Happening, config: Config, s': Session)
    requires SessionStep(s, e, config, s')
    ensures |s.written| <= |s'.written| && s'.written[..|s.written|] == s.written
  {
    SessionRuns.StepsAreTraced(s, e, config, s');
  }

  lemma TurnKeepsInvariant(l: Link, session: Session)
    requires LinkInvariant(l)
    requires |l.session.written| <= |session.written|
    requires session.written[..|l.session.written|] == l.session.written
    ensures LinkInvariant(l.(session := session))
  {
    assert session.written[..l.delivered] == l.session.written[..l.delivered];
  }

  /** Operations that at most complete calls otherwise than by an answer, or forget ids. */
  lemma UnansweredKeepsInvariant(l: Link, client: Client)
    requires LinkInvariant(l) && IsConsistent(client) && client.calls == l.client.calls
    requires forall n :: 0 <= n < |client.completions| && client.completions[n].Answered? ==>
               client.completions[n] == l.client.completions[n]
    ensures LinkInvariant(l.(client := client))
  {
  }

  lemma BeginKeepsInvariant(l: Link, request: Request)
    requires LinkInvariant(l) && IsGuid(request.id)
    requires forall k :: 0 <= k < |l.client.calls| ==> l.client.calls[k].id != request.id
    ensures LinkInvariant(l.(client := Begun(l.client, request)))
  {
  }

  /** What the client does by itself. */
  lemma ClientKeepsInvariant(l: Link, e: Event, config: Config, l': Link)
    requires LinkInvariant(l) && !e.Turns? && LinkStep(l, e, config, l')
    ensures LinkInvariant(l')
  {
    match e
    case Begins(request) => BeginKeepsInvariant(l, request);
    case Delivers => DeliveryKeepsOwnFrames(l);
    case _ => UnansweredKeepsInvariant(l, l'.client);
  }

  lemma LinkStepKeepsInvariant(l: Link, e: Event, config: Config, l': Link)
    requires LinkInvariant(l) && LinkStep(l, e, config, l')
    ensures LinkInvariant(l')
  {
    if e.Turns? {
      TurnsKeepWritten(l.session, e.turn, config, l'.session);
      TurnKeepsInvariant(l, l'.session);
    } else {
      ClientKeepsInvariant(l, e, config, l');
    }
  }

  lemma {:induction false} LinkInvariantOnEveryRun(
      ls: seq<Link>, es: seq<Event>, hello: Request, config: Config, i: nat)
    requires IsLinkRun(ls, es, hello, config) && i < |ls|
    ensures LinkInvariant(ls[i])
  {
    if i > 0 {
      LinkInvariantOnEveryRun(ls, es, hello, config, i - 1);
      LinkStepKeepsInvariant(ls[i - 1], es[i - 1], config, ls[i]);
    }
  }

  // ----- Where frames come from -----

  /** The frame is the reply that the session gave in this event. */
  predicate IsReplyOf(frame: Frame, e: Event) {
    e.Turns? && e.turn.Arrives? && frame == Frame(e.turn.request.id, e.turn.reply)
  }

  /** Calls are never renumbered. */
  lemma {:induction false} CallsStay(ls: seq<Link>, es: seq<Event>, hello: Request, config: Config, i: nat, j: nat)
    requires IsLinkRun(ls, es, hello, config) && i <= j < |ls|
    ensures |ls[i].client.calls| <= |ls[j].client.calls|
    ensures ls[j].client.calls[..|ls[i].client.calls|] == ls[i].client.calls
    decreases j
  {
    if i < j {
      CallsStay(ls, es, hello, config, i, j - 1);
      assert LinkStep(ls[j - 1], es[j - 1], config, ls[j]);
      var front := ls[j - 1].client.calls;
      assert ls[j].client.calls[..|front|] == front;
    }
  }

  /** Every frame written is the acceptance, a numbered push, or the reply of an earlier turn. */
  lemma {:induction false} FramesHaveOrigins(
      ls: seq<Link>, es: seq<Event>, hello: Request, config: Config, i: nat, frame: Frame) returns (j: nat)
    requires IsLinkRun(ls, es, hello, config) && i < |ls| && frame in ls[i].session.written
    ensures || frame == Frame(hello.id, HelloAccepted)
            || (frame.body.Push? && exists n: nat :: frame.id == EventId(n))
            || (j < i && IsReplyOf(frame, es[j]))
  {
    j := 0;
    if i > 0 {
      var e := es[i - 1];
      assert LinkStep(ls[i - 1], e, config, ls[i]);
      if frame in ls[i - 1].session.written {
        j := FramesHaveOrigins(ls, es, hello, config, i - 1, frame);
      } else {
        j := i - 1;
        SessionRuns.StepsAreTraced(ls[i - 1].session, e.turn, config, ls[i].session);
      }
    }
  }

  // ----- The theorems -----

  /**
   * However callers, cancellations and pushes interleave, an answered call holds the reply that the session
   * gave on handling that very call; the hello holds its acceptance.
   */
  lemma AnswersBelongToTheirCallers(
      ls: seq<Link>, es: seq<Event>, hello: Request, config: Config, i: nat, n: nat) returns (j: nat)
    requires IsLinkRun(ls, es, hello, config) && i < |ls|
    requires n < |ls[i].client.completions| && ls[i].client.completions[n].Answered?
    ensures n < |ls[i].client.calls|
    ensures var frame := ls[i].client.completions[n].frame;
      || (n == 0 && frame == Frame(hello.id, HelloAccepted))
      || (j < i && IsReplyOf(frame, es[j]) && es[j].turn.request == ls[i].client.calls[n])
  {
    LinkInvariantOnEveryRun(ls, es, hello, config, i);
    var client := ls[i].client;
    var frame := client.completions[n].frame;
    j := FramesHaveOrigins(ls, es, hello, config, i, frame);
    CallsStay(ls, es, hello, config, 0, i);
    assert client.calls[0] == hello;
    if frame.body.Push? && exists k: nat :: frame.id == EventId(k) {
      var k: nat :| frame.id == EventId(k);
      EventIdsAreNoGuids(k);
    } else if j < i && IsReplyOf(frame, es[j]) {
      CallsStay(ls, es, hello, config, j, i);
      assert LinkStep(ls[j], es[j], config, ls[j + 1]);
      var m := ls[j].client.sent[|ls[j].session.read|];
      assert client.calls[m] == ls[j].client.calls[m];
      assert client.calls[m].id == client.calls[n].id;
      assert m == n;
    }
  }

  /** The call was completed before, and is the same after. */
  predicate StaysCompleted(before: Client, after: Client, n: nat) {
    n < |before.completions| && !before.completions[n].Waiting? ==>
      n < |after.completions| && after.completions[n] == before.completions[n]
  }

  /** A call that is no longer waiting never changes again: none completes twice. */
  lemma CompletionsAreFinal(
      ls: seq<Link>, es: seq<Event>, hello: Request, config: Config, i: nat, k: nat, n: nat)
    requires IsLinkRun(ls, es, hello, config) && i <= k < |ls|
    requires n < |ls[i].client.completions| && !ls[i].client.completions[n].Waiting?
    ensures n < |ls[k].client.completions| && ls[k].client.completions[n] == ls[i].client.completions[n]
  {
    forall j | 0 <= j < |es|
      ensures StaysCompleted(ls[j].client, ls[j + 1].client, n)
    {
      NextStateKeepsCompletion(ls, es, hello, config, j, n);
    }
    StaysCompletedThroughout(ls, i, k, n);
  }

  lemma {:induction false} StaysCompletedThroughout(ls: seq<Link>, i: nat, k: nat, n: nat)
    requires i <= k < |ls|
    requires forall j :: 0 <= j < |ls| - 1 ==> StaysCompleted(ls[j].client, ls[j + 1].client, n)
    ensures StaysCompleted(ls[i].client, ls[k].client, n)
    decreases k
  {
    if i < k {
      StaysCompletedThroughout(ls, i, k - 1, n);
      assert StaysCompleted(ls[k - 1].client, ls[k - 1 + 1].client, n);
    }
  }

  lemma NextStateKeepsCompletion(
      ls: seq<Link>, es: seq<Event>, hello: Request, config: Config, k: nat, n: nat)
    requires IsLinkRun(ls, es, hello, config) && k < |es|
    ensures StaysCompleted(ls[k].client, ls[k + 1].client, n)
  {
    LinkInvariantOnEveryRun(ls, es, hello, config, k);
    StepKeepsCompletion(ls[k], es[k], config, ls[k + 1], n);
  }

  lemma StepKeepsCompletion(l: Link, e: Event, config: Config, l': Link, n: nat)
    requires IsConsistent(l.client) && LinkStep(l, e, config, l')
    ensures StaysCompleted(l.client, l'.client, n)
  {
  }

  /** Delivering a push, or a reply whose caller has gone, completes no call and queues the frame as an event. */
  lemma OtherFramesBecomeEvents(ls: seq<Link>, es: seq<Event>, hello: Request, config: Config, i: nat)
    requires IsLinkRun(ls, es, hello, config) && i < |es| && es[i].Delivers?
    requires ls[i].delivered < |ls[i].session.written|
    ensures var frame := ls[i].session.written[ls[i].delivered];
      frame.body.Push? || frame.id !in ls[i].client.pending ==>
        && ls[i + 1].client.completions == ls[i].client.completions
        && ls[i + 1].client.pending == ls[i].client.pending
        && ls[i + 1].client.events != []
        && ls[i + 1].client.events[|ls[i + 1].client.events| - 1] == frame
  {
    LinkInvariantOnEveryRun(ls, es, hello, config, i);
    assert LinkStep(ls[i], es[i], config, ls[i + 1]);
    var frame := ls[i].session.written[ls[i].delivered];
    if frame.body.Push? {
      var j := FramesHaveOrigins(ls, es, hello, config, i, frame);
      PushesAreNoReplies(ls, es, hello, config, i, frame, j);
      var k: nat :| frame.id == EventId(k);
      EventIdsAreNoGuids(k);
    }
  }

  /** Call `n` has that id, which is no longer pending. */
  predicate IsForgotten(c: Client, n: nat, id: string) {
    n < |c.calls| && c.calls[n].id == id && id !in c.pending
  }

  lemma StepKeepsForgotten(l: Link, e: Event, config: Config, l': Link, n: nat, id: string)
    requires LinkStep(l, e, config, l') && IsForgotten(l.client, n, id)
    ensures IsForgotten(l'.client, n, id)
  {
  }

  lemma {:induction false} ForgottenThroughout(ls: seq<Link>, i: nat, k: nat, n: nat, id: string)
    requires i <= k < |ls| && IsForgotten(ls[i].client, n, id)
    requires forall j :: 0 <= j < |ls| - 1 && IsForgotten(ls[j].client, n, id) ==> IsForgotten(ls[j + 1].client, n, id)
    ensures IsForgotten(ls[k].client, n, id)
    decreases k
  {
    if i < k {
      ForgottenThroughout(ls, i, k - 1, n, id);
      assert IsForgotten(ls[k - 1 + 1].client, n, id);
    }
  }

  /** Once its caller has gone, no call's id is ever pending again, so a late reply to it can only become an event. */
  lemma FinishedCallsStayForgotten(
      ls: seq<Link>, es: seq<Event>, hello: Request, config: Config, i: nat, k: nat, n: nat)
    requires IsLinkRun(ls, es, hello, config) && i < k < |ls|
    requires n < |ls[i].client.calls| && es[i] == Finishes(n)
    ensures ls[i].client.calls[n].id !in ls[k].client.pending
  {
    var id := ls[i].client.calls[n].id;
    assert LinkStep(ls[i], es[i], config, ls[i + 1]);
    forall j | 0 <= j < |es| && IsForgotten(ls[j].client, n, id)
      ensures IsForgotten(ls[j + 1].client, n, id)
    {
      StepKeepsForgotten(ls[j], es[j], config, ls[j + 1], n, id);
    }
    ForgottenThroughout(ls, i + 1, k, n, id);
  }

  lemma PushesAreNoReplies(
      ls: seq<Link>, es: seq<Event>, hello: Request, config: Config, i: nat, frame: Frame, j: nat)
    requires IsLinkRun(ls, es, hello, config) && i < |ls| && frame.body.Push?
    ensures !(j < i && IsReplyOf(frame, es[j]))
  {
    if j < i && IsReplyOf(frame, es[j]) {
      assert LinkStep(ls[j], es[j], config, ls[j + 1]);
      SessionRuns.StepsAreTraced(ls[j].session, es[j].turn, config, ls[j + 1].session);
    }
  }

  /** A pending call is answered by the frame that carries its id, if it is still waiting. */
  lemma PendingCallsAreAnswered(ls: seq<Link>, es: seq<Event>, hello: Request, config: Config, i: nat)
    requires IsLinkRun(ls, es, hello, config) && i < |es| && es[i].Delivers?
    requires ls[i].delivered < |ls[i].session.written|
    ensures var frame := ls[i].session.written[ls[i].delivered];
      frame.id in ls[i].client.pending ==>
        var n := ls[i].client.pending[frame.id];
        && n < |ls[i].client.calls| && ls[i].client.calls[n].id == frame.id
        && n < |ls[i + 1].client.completions|
        && ls[i + 1].client.completions[n] == Completed(ls[i].client.completions[n], Answered(frame))
        && ls[i + 1].client.events == ls[i].client.events
  {
    LinkInvariantOnEveryRun(ls, es, hello, config, i);
    assert LinkStep(ls[i], es[i], config, ls[i + 1]);
  }

  // ----- The end of the connection -----

  /**
   * A reader that fails fails every pending call that still waits, for good, and completes no other: nobody who
   * waited for an answer is left waiting.
   */
  lemma ReaderFailuresReachEveryCaller(
      ls: seq<Link>, es: seq<Event>, hello: Request, config: Config, i: nat, k: nat)
    requires IsLinkRun(ls, es, hello, config) && i < k < |ls| && es[i].ReaderFails?
    ensures EndsWaiting(ls[i].client, ls[i + 1].client, Failed)
    ensures forall id :: id in ls[i].client.pending ==>
              var n := ls[i].client.pending[id];
              && n < |ls[i].client.completions|
              && (ls[i].client.completions[n].Waiting? ==> HasEnded(ls[k].client, n, Failed))
    ensures !ls[i + 1].client.isReading
  {
    assert LinkStep(ls[i], es[i], config, ls[i + 1]);
    EndedCallsStayEnded(ls, es, hello, config, i, k, Failed);
  }

  /** A client disposed of cancels them instead, and forgets every id. */
  lemma DisposalReachesEveryCaller(
      ls: seq<Link>, es: seq<Event>, hello: Request, config: Config, i: nat, k: nat)
    requires IsLinkRun(ls, es, hello, config) && i < k < |ls| && es[i].Disposes?
    ensures EndsWaiting(ls[i].client, ls[i + 1].client, Cancelled)
    ensures forall id :: id in ls[i].client.pending ==>
              var n := ls[i].client.pending[id];
              && n < |ls[i].client.completions|
              && (ls[i].client.completions[n].Waiting? ==> HasEnded(ls[k].client, n, Cancelled))
    ensures ls[i + 1].client.pending == map[] && !ls[i + 1].client.isReading
  {
    assert LinkStep(ls[i], es[i], config, ls[i + 1]);
    EndedCallsStayEnded(ls, es, hello, config, i, k, Cancelled);
  }

  /** Pending calls that wait get the one completion; all the others keep theirs. */
  ghost predicate EndsWaiting(before: Client, after: Client, end: Completion) {
    && |after.completions| == |before.completions|
    && forall n :: 0 <= n < |before.completions| ==>
         after.completions[n]
         == if before.completions[n].Waiting? && n in before.pending.Values then end else before.completions[n]
  }

  lemma EndedCallsStayEnded(
      ls: seq<Link>, es: seq<Event>, hello: Request, config: Config, i: nat, k: nat, end: Completion)
    requires IsLinkRun(ls, es, hello, config) && i < k < |ls| && !end.Waiting?
    requires EndsWaiting(ls[i].client, ls[i + 1].client, end)
    ensures forall id :: id in ls[i].client.pending ==>
              var n := ls[i].client.pending[id];
              && n < |ls[i].client.completions|
              && (ls[i].client.completions[n].Waiting? ==> HasEnded(ls[k].client, n, end))
  {
    LinkInvariantOnEveryRun(ls, es, hello, config, i);
    forall id | id in ls[i].client.pending && ls[i].client.completions[ls[i].client.pending[id]].Waiting?
      ensures HasEnded(ls[k].client, ls[i].client.pending[id], end)
    {
      EndedCallStaysEnded(ls, es, hello, config, i + 1, k, ls[i].client.pending[id], end);
    }
  }

  predicate HasEnded(c: Client, n: nat, end: Completion) {
    n < |c.completions| && c.completions[n] == end
  }

  lemma EndedCallStaysEnded(
      ls: seq<Link>, es: seq<Event>, hello: Request, config: Config, i: nat, k: nat, n: nat, end: Completion)
    requires IsLinkRun(ls, es, hello, config) && i <= k < |ls| && !end.Waiting?
    requires HasEnded(ls[i].client, n, end)
    ensures HasEnded(ls[k].client, n, end)
  {
    CompletionsAreFinal(ls, es, hello, config, i, k, n);
  }

  predicate EndsReading(e: Event) {
    e.ReaderFails? || e.ReaderIsCancelled? || e.Disposes?
  }

  /** No longer reading, and with the call in the one state or cancelled out of it. */
  predicate HasStopped(c: Client, n: nat, events: seq<Frame>, completion: Completion) {
    && !c.isReading && c.events == events
    && n < |c.completions| && (c.completions[n] == completion || c.completions[n] in {Cancelled, Failed})
  }

  lemma StepKeepsStopped(
      l: Link, e: Event, config: Config, l': Link, n: nat, events: seq<Frame>, completion: Completion)
    requires LinkStep(l, e, config, l') && HasStopped(l.client, n, events, completion)
    ensures HasStopped(l'.client, n, events, completion)
  {
  }

  lemma {:induction false} StoppedThroughout(
      ls: seq<Link>, i: nat, k: nat, n: nat, events: seq<Frame>, completion: Completion)
    requires i <= k < |ls| && HasStopped(ls[i].client, n, events, completion)
    requires forall j :: 0 <= j < |ls| - 1 && HasStopped(ls[j].client, n, events, completion) ==>
               HasStopped(ls[j + 1].client, n, events, completion)
    ensures HasStopped(ls[k].client, n, events, completion)
    decreases k
  {
    if i < k {
      StoppedThroughout(ls, i, k - 1, n, events, completion);
      assert HasStopped(ls[k - 1 + 1].client, n, events, completion);
    }
  }

  /**
   * A reader that is just cancelled completes nothing, and once it has ended in whatever way nothing is ever answered
   * or queued again: a call left waiting can only be cancelled or failed.
   */
  lemma NothingIsAnsweredAfterTheReader(
      ls: seq<Link>, es: seq<Event>, hello: Request, config: Config, i: nat, k: nat, n: nat)
    requires IsLinkRun(ls, es, hello, config) && i < k < |ls| && EndsReading(es[i])
    requires n < |ls[i].client.completions|
    ensures es[i].ReaderIsCancelled? ==>
              ls[i + 1].client.completions == ls[i].client.completions
              && ls[i + 1].client.pending == ls[i].client.pending
    ensures ls[k].client.events == ls[i].client.events && n < |ls[k].client.completions|
    ensures ls[k].client.completions[n].Answered? ==> ls[k].client.completions[n] == ls[i].client.completions[n]
  {
    var events, completion := ls[i].client.events, ls[i].client.completions[n];
    assert LinkStep(ls[i], es[i], config, ls[i + 1]);
    forall j | 0 <= j < |es| && HasStopped(ls[j].client, n, events, completion)
      ensures HasStopped(ls[j + 1].client, n, events, completion)
    {
      StepKeepsStopped(ls[j], es[j], config, ls[j + 1], n, events, completion);
    }
    StoppedThroughout(ls, i + 1, k, n, events, completion);
  }

  // ----- The event channel -----

  /** The frame that an event delivers without anybody waiting for it. */
  function UnclaimedBy(l: Link, e: Event): seq<Frame> {
    if e.Delivers? && l.delivered < |l.session.written|
       && l.session.written[l.delivered].id !in l.client.pending
    then [l.session.written[l.delivered]] else []
  }

  /** All of them up to a state, in order. */
  function Unclaimed(ls: seq<Link>, es: seq<Event>, i: nat): seq<Frame>
    requires i <= |es| && |es| < |ls|
  {
    if i == 0 then [] else Unclaimed(ls, es, i - 1) + UnclaimedBy(ls[i - 1], es[i - 1])
  }

  function Latest(frames: seq<Frame>): seq<Frame> {
    if |frames| <= 128 then frames else frames[|frames| - 128..]
  }

  lemma QueuedIsLatest(frames: seq<Frame>, frame: Frame)
    ensures Queued(Latest(frames), frame) == Latest(frames + [frame])
  {
  }

  lemma StepQueuesUnclaimed(l: Link, e: Event, config: Config, l': Link, frames: seq<Frame>)
    requires LinkStep(l, e, config, l') && l.client.events == Latest(frames)
    ensures l'.client.events == Latest(frames + UnclaimedBy(l, e))
  {
    assert frames + [] == frames;
    if e.Delivers? {
      QueuedIsLatest(frames, l.session.written[l.delivered]);
    }
  }

  /** The channel holds the latest 128 of them, the oldest first. */
  lemma EventsAreTheLatest(ls: seq<Link>, es: seq<Event>, hello: Request, config: Config, i: nat)
    requires IsLinkRun(ls, es, hello, config) && i < |ls|
    ensures ls[i].client.events == Latest(Unclaimed(ls, es, i))
  {
    forall k, frames | 0 <= k < |es| && ls[k].client.events == Latest(frames)
      ensures ls[k + 1].client.events == Latest(frames + UnclaimedBy(ls[k], es[k]))
    {
      StepQueuesUnclaimed(ls[k], es[k], config, ls[k + 1], frames);
    }
    QueuedByInduction(ls, es, i);
  }

  lemma {:induction false} QueuedByInduction(ls: seq<Link>, es: seq<Event>, i: nat)
    requires |ls| == |es| + 1 && ls[0].client.events == [] && i < |ls|
    requires forall k, frames :: 0 <= k < |es| && ls[k].client.events == Latest(frames) ==>
               ls[k + 1].client.events == Latest(frames + UnclaimedBy(ls[k], es[k]))
    ensures ls[i].client.events == Latest(Unclaimed(ls, es, i))
  {
    if i > 0 {
      QueuedByInduction(ls, es, i - 1);
    }
  }

  /** Ids have to be fresh: a caller that reuses the id of a cancelled call is given that call's late reply. */
  lemma ReusedIdsCrossReplies(first: Request, second: Request, reply: Body)
    requires first.id == second.id
    ensures var cancelled := AfterCall(AfterCancel(Begun(CONNECTED, first), 0), 0);
      var reused := Begun(cancelled, second);
      && IsConsistent(reused)
      && Received(reused, Frame(first.id, reply)).completions == [Cancelled, Answered(Frame(first.id, reply))]
  {
    var begun := Begun(CONNECTED, first);
    assert begun.pending - {first.id} == map[];
  }
}
