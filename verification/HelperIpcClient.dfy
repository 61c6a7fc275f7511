/** The plugin's end of the connection: Infrastructure/HelperIpcClient.cs. */
module HelperIpcClient {
  import opened SessionSpec
  import opened Wrappers

  /** What has become of a call's task completion source. */
  datatype Completion = Waiting | Answered(frame: Frame) | Cancelled | Failed

  const EVENT_CHANNEL_CAPACITY := 128

  /** Calls are numbered in the order they begin; `sent` holds the numbers of those whose frames went out. */
  datatype Client = Client(
    calls: seq<Request>,
    completions: seq<Completion>,
    pending: map<string, nat>,
    sent: seq<nat>,
    events: seq<Frame>,
    isReading: bool)

  const CONNECTED := Client([], [], map[], [], [], true)

  ghost predicate IsConsistent(c: Client) {
    && |c.completions| == |c.calls|
    && forall id :: id in c.pending ==> c.pending[id] < |c.calls| && c.calls[c.pending[id]].id == id
  }

  /** A first attempt to complete succeeds, any later one does nothing. */
  function Completed(completion: Completion, attempt: Completion): Completion {
    if completion.Waiting? then attempt else completion
  }

  function Begun(c: Client, request: Request): Client {
    if request.id in c.pending then c
    else
      c.(
        calls := c.calls + [request],
        completions := c.completions + [Waiting],
        pending := c.pending[request.id := |c.calls|])
  }

  function AfterCancel(c: Client, call: nat): Client
    requires call < |c.completions|
  {
    c.(completions := c.completions[call := Completed(c.completions[call], Cancelled)])
  }

  function AfterCall(c: Client, call: nat): Client
    requires call < |c.calls|
  {
    c.(pending := c.pending - {c.calls[call].id})
  }

  /** A full channel makes room by dropping its oldest event. */
  function Queued(events: seq<Frame>, frame: Frame): (queue: seq<Frame>)
    ensures queue != [] && queue[|queue| - 1] == frame
    ensures |events| <= EVENT_CHANNEL_CAPACITY ==> |queue| <= EVENT_CHANNEL_CAPACITY
  {
    if |events| < EVENT_CHANNEL_CAPACITY then events + [frame] else events[1..] + [frame]
  }

  /** One turn of the read loop: the pending call of that id is answered, anything else is an event. */
  function Received(c: Client, frame: Frame): Client
    requires IsConsistent(c)
  {
    if !c.isReading then c
    else if frame.id in c.pending then
      var call := c.pending[frame.id];
      c.(
        pending := c.pending - {frame.id},
        completions := c.completions[call := Completed(c.completions[call], Answered(frame))])
    else c.(events := Queued(c.events, frame))
  }

  /** Every pending call is completed the same way. */
  function AllCompleted(c: Client, attempt: Completion): (completions: seq<Completion>)
    ensures |completions| == |c.completions|
  {
    seq(|c.completions|, i requires 0 <= i < |c.completions| =>
      if i in c.pending.Values then Completed(c.completions[i], attempt) else c.completions[i])
  }

  function AfterReadFailure(c: Client): Client {
    c.(completions := AllCompleted(c, Failed), isReading := false)
  }

  /** A read loop whose token is cancelled just ends; calls that wait go on waiting. */
  function AfterReadCancelled(c: Client): Client {
    c.(isReading := false)
  }

  function AfterDispose(c: Client): Client {
    c.(completions := AllCompleted(c, Cancelled), pending := map[], isReading := false)
  }

  class HelperIpcClient {
    var calls: seq<Request>
    var completions: seq<Completion>
    var pending: map<string, nat>
    var sent: seq<nat>
    var events: seq<Frame>
    var isReading: bool

    ghost function Contents(): Client
      reads this
    {
      Client(calls, completions, pending, sent, events, isReading)
    }

    ghost predicate Valid()
      reads this
    {
      IsConsistent(Contents()) && |events| <= EVENT_CHANNEL_CAPACITY
    }

    constructor ()
      ensures Valid() && Contents() == CONNECTED
    {
      calls, completions, pending, sent, events, isReading := [], [], map[], [], [], true;
    }

    /** The part of `SendAsync` up to the write; an id that is pending already is refused. */
    method Begin(request: Request) returns (call: Option<nat>)
      requires Valid()
      modifies this
      ensures Valid() && Contents() == Begun(old(Contents()), request)
      ensures call == if request.id in old(pending) then None else Some(|old(calls)|)
    {
      if request.id in pending {
        return None;
      }
      call := Some(|calls|);
      pending := pending[request.id := |calls|];
      calls := calls + [request];
      completions := completions + [Waiting];
    }

    /** The write gate lets out one whole frame at a time. */
    method Write(call: nat)
      requires Valid() && call < |calls|
      modifies this
      ensures Valid() && Contents() == old(Contents()).(sent := old(sent) + [call])
    {
      sent := sent + [call];
    }

    method TryComplete(call: nat, attempt: Completion)
      requires call < |completions|
      modifies this`completions
      ensures completions == old(completions)[call := Completed(old(completions)[call], attempt)]
    {
      if completions[call] == Waiting {
        completions := completions[call := attempt];
      }
    }

    method Cancel(call: nat)
      requires Valid() && call < |calls|
      modifies this
      ensures Valid() && Contents() == AfterCancel(old(Contents()), call)
    {
      TryComplete(call, Cancelled);
    }

    /** The `finally` of `SendAsync`. */
    method Finish(call: nat)
      requires Valid() && call < |calls|
      modifies this
      ensures Valid() && Contents() == AfterCall(old(Contents()), call)
    {
      pending := pending - {calls[call].id};
    }

    method Receive(frame: Frame)
      requires Valid() && isReading
      modifies this
      ensures Valid() && Contents() == Received(old(Contents()), frame)
    {
      if frame.id in pending {
        var call := pending[frame.id];
        pending := pending - {frame.id};
        TryComplete(call, Answered(frame));
        return;
      }
      TryWrite(frame);
    }

    method TryWrite(frame: Frame)
      modifies this`events
      ensures events == Queued(old(events), frame)
    {
      if |events| >= EVENT_CHANNEL_CAPACITY {
        events := events[1..];
      }
      events := events + [frame];
    }

    /** The dictionary is walked in no particular order. */
    method CompleteAll(attempt: Completion)
      requires Valid() && !attempt.Waiting?
      modifies this`completions
      ensures Valid() && completions == AllCompleted(old(Contents()), attempt)
      ensures |completions| == |old(completions)|
      ensures forall id :: id in pending && old(completions)[pending[id]].Waiting? ==>
                completions[pending[id]] == attempt
      ensures forall n :: 0 <= n < |completions| && (n !in pending.Values || !old(completions)[n].Waiting?) ==>
                completions[n] == old(completions)[n]
    {
      var remaining := pending.Keys;
      while remaining != {}
        invariant remaining <= pending.Keys && |completions| == |calls|
        invariant forall i :: 0 <= i < |completions| ==>
                    completions[i]
                    == if exists id :: id in pending.Keys - remaining && pending[id] == i
                       then Completed(old(completions)[i], attempt) else old(completions)[i]
        decreases remaining
      {
        var id :| id in remaining;
        TryComplete(pending[id], attempt);
        remaining := remaining - {id};
      }
      forall i | 0 <= i < |completions|
        ensures i in pending.Values <==> exists id :: id in pending.Keys - {} && pending[id] == i
      {
      }
    }

    method FailReader()
      requires Valid()
      modifies this
      ensures Valid() && Contents() == AfterReadFailure(old(Contents()))
    {
      CompleteAll(Failed);
      isReading := false;
    }

    method CancelReader()
      requires Valid()
      modifies this
      ensures Valid() && Contents() == AfterReadCancelled(old(Contents()))
    {
      isReading := false;
    }

    method Dispose()
      requires Valid()
      modifies this
      ensures Valid() && Contents() == AfterDispose(old(Contents()))
    {
      CompleteAll(Cancelled);
      pending := map[];
      isReading := false;
    }
  }
}
