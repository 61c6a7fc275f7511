/** Starting, stopping and restarting the helper process: Infrastructure/HelperProcessManager.cs. */
module HelperProcessManager {
  import opened Wrappers

  /** Milliseconds since `DateTimeOffset.MinValue`. */
  type Instant = nat

  const MIN_VALUE: Instant := 0
  const CRASH_WINDOW := 10_000

  datatype Manager = Manager(
    generation: nat,
    intentionalStop: bool,
    crashCount: nat,
    crashWindowStart: Instant,
    isConnected: bool)

  const FRESH := Manager(0, false, 0, MIN_VALUE, false)

  /** What `HelperProcessExited` tells its subscribers. */
  datatype Exit = Exit(generation: nat, willAutoRestart: bool)

  function Started(m: Manager): Manager {
    m.(generation := m.generation + 1, intentionalStop := false, isConnected := true)
  }

  /** A stop may be cancelled while the helper is asked to shut down, or while its process is waited for. */
  datatype StopEnd = CancelledAsking | CancelledWaiting | Completed

  /** It leaves its mark first, then forgets the client, and forgives crashes only at its end. */
  function Stopped(m: Manager, end: StopEnd): Manager {
    match end
    case CancelledAsking => m.(intentionalStop := true)
    case CancelledWaiting => m.(intentionalStop := true, isConnected := false)
    case Completed => Manager(m.generation, true, 0, MIN_VALUE, false)
  }

  /** A start may fail before anything runs, as when the helper is not installed, or because nothing answers. */
  datatype Start = NotLaunched | NotAnswered | Answered

  /** A start that fails stops what it has started; only a launch raises the generation. */
  function Ensured(m: Manager, start: Start): Manager {
    if m.isConnected then m
    else
      match start
      case NotLaunched => Stopped(m, Completed)
      case NotAnswered => Stopped(Started(m), Completed)
      case Answered => Started(m)
  }

  function Counted(m: Manager, now: Instant): Manager {
    if now - m.crashWindowStart > CRASH_WINDOW then m.(crashWindowStart := now, crashCount := 1)
    else m.(crashCount := m.crashCount + 1)
  }

  function Ended(m: Manager, generation: nat, now: Instant): (Manager, Option<Exit>) {
    if generation != m.generation then (m, None)
    else if m.intentionalStop then (m.(isConnected := false), None)
    else
      var counted := Counted(m, now).(isConnected := false);
      (counted, Some(Exit(generation, counted.crashCount <= 1)))
  }

  class HelperProcessManager {
    var generation: nat
    var intentionalStop: bool
    var crashCount: nat
    var crashWindowStart: Instant
    var isConnected: bool

    ghost function Contents(): Manager
      reads this
    {
      Manager(generation, intentionalStop, crashCount, crashWindowStart, isConnected)
    }

    constructor ()
      ensures Contents() == FRESH
    {
      generation, intentionalStop, crashCount, crashWindowStart, isConnected := 0, false, 0, MIN_VALUE, false;
    }

    method EnsureStarted(start: Start) returns (isRunning: bool)
      modifies this
      ensures Contents() == Ensured(old(Contents()), start)
      ensures isRunning == (old(isConnected) || start.Answered?) == isConnected
    {
      if isConnected {
        return true;
      }
      isRunning := StartCore(start);
      if !isRunning {
        StopCore(true, Completed);
      }
    }

    /** Resolves the helper first; false where the original throws. */
    method StartCore(start: Start) returns (isRunning: bool)
      modifies this
      ensures isRunning == start.Answered?
      ensures start.NotLaunched? ==> Contents() == old(Contents())
      ensures !start.NotLaunched? ==>
                Contents() == Started(old(Contents())).(isConnected := old(isConnected) || isRunning)
    {
      if start.NotLaunched? {
        return false;
      }
      intentionalStop := false;
      generation := generation + 1;
      if start.NotAnswered? {
        return false;
      }
      isConnected := true;
      return true;
    }

    method StopCore(intentional: bool, end: StopEnd)
      requires intentional
      modifies this
      ensures Contents() == Stopped(old(Contents()), end)
    {
      intentionalStop := intentional;
      if end.CancelledAsking? {
        return;
      }
      isConnected := false;
      if end.CancelledWaiting? {
        return;
      }
      if intentional {
        crashCount := 0;
        crashWindowStart := MIN_VALUE;
      }
    }

    method OnProcessEnded(ended: nat, now: Instant) returns (exit: Option<Exit>)
      modifies this
      ensures (Contents(), exit) == Ended(old(Contents()), ended, now)
    {
      if ended != generation {
        return None;
      }
      isConnected := false;
      if intentionalStop {
        return None;
      }
      if now - crashWindowStart > CRASH_WINDOW {
        crashWindowStart := now;
        crashCount := 0;
      }
      crashCount := crashCount + 1;
      return Some(Exit(ended, crashCount <= 1));
    }
  }

  // ----- Runs -----

  datatype Happening =
    | Ensures(start: Start)
    | Stops(end: StopEnd)
    | Ends(generation: nat, now: Instant)

  function Next(m: Manager, e: Happening): Manager {
    match e
    case Ensures(start) => Ensured(m, start)
    case Stops(end) => Stopped(m, end)
    case Ends(generation, now) => Ended(m, generation, now).0
  }

  function After(es: seq<Happening>): Manager {
    if es == [] then FRESH else Next(After(es[..|es| - 1]), es[|es| - 1])
  }

  /** The exit that event `i` of a run reports, if any. */
  function ExitAt(es: seq<Happening>, i: nat): Option<Exit>
    requires i < |es|
  {
    match es[i]
    case Ends(generation, now) => Ended(After(es[..i]), generation, now).1
    case _ => None
  }

  predicate IsGranted(es: seq<Happening>, i: nat)
    requires i < |es|
  {
    ExitAt(es, i).Some? && ExitAt(es, i).value.willAutoRestart
  }

  /** The crash window has been reset: by a completed intentional stop, or by the one that follows a failed start. */
  predicate IsReset(es: seq<Happening>, i: nat)
    requires i < |es|
  {
    match es[i]
    case Stops(end) => end.Completed?
    case Ensures(start) => !start.Answered? && !After(es[..i]).isConnected
    case Ends(_, _) => false
  }

  /** When the last restart was granted since the last reset. */
  function LastGrant(es: seq<Happening>): Option<Instant> {
    if es == [] then None
    else
      var n := |es| - 1;
      if IsReset(es, n) then None
      else if IsGranted(es, n) then Some(es[n].now)
      else LastGrant(es[..n])
  }

  /** Clock readings lie in the present, long after `DateTimeOffset.MinValue`. */
  ghost predicate HasClock(es: seq<Happening>) {
    forall i :: 0 <= i < |es| && es[i].Ends? ==> es[i].now > CRASH_WINDOW
  }

  lemma PrefixesAgree(es: seq<Happening>, n: nat, i: nat)
    requires i < n <= |es|
    ensures ExitAt(es[..n], i) == ExitAt(es, i) && IsReset(es[..n], i) == IsReset(es, i)
  {
    assert es[..n][..i] == es[..i];
  }

  /** The window begins at the last grant; before any it has not begun. */
  lemma {:induction false} WindowStartsAtLastGrant(es: seq<Happening>)
    requires HasClock(es)
    ensures After(es).crashWindowStart == (if LastGrant(es).Some? then LastGrant(es).value else MIN_VALUE)
    ensures After(es).crashCount > 0 <==> LastGrant(es).Some?
  {
    if es != [] {
      var n := |es| - 1;
      WindowStartsAtLastGrant(es[..n]);
      PrefixesAgree(es, |es|, n);
    }
  }

  /** An unexpected exit is granted a restart exactly when none was in the ten seconds before, since the last reset. */
  lemma GrantedExactlyOutsideWindow(es: seq<Happening>, i: nat)
    requires HasClock(es) && i < |es| && ExitAt(es, i).Some?
    ensures IsGranted(es, i) <==>
              LastGrant(es[..i]).None? || es[i].now - LastGrant(es[..i]).value > CRASH_WINDOW
  {
    WindowStartsAtLastGrant(es[..i]);
  }

  predicate IsOrdered(es: seq<Happening>) {
    forall i, j :: 0 <= i < j < |es| && es[i].Ends? && es[j].Ends? ==> es[i].now <= es[j].now
  }

  /** Without a reset in between, the last grant before `j` is at least as late as the one at `i`. */
  lemma {:induction false} GrantsAreRemembered(es: seq<Happening>, i: nat, j: nat)
    requires IsOrdered(es) && i < j <= |es| && IsGranted(es, i)
    requires forall k :: i < k < j ==> !IsReset(es, k)
    ensures LastGrant(es[..j]).Some? && LastGrant(es[..j]).value >= es[i].now
    decreases j
  {
    var front := es[..j];
    assert front[..j - 1] == es[..j - 1];
    PrefixesAgree(es, j, j - 1);
    if i < j - 1 {
      GrantsAreRemembered(es, i, j - 1);
    }
  }

  /** Two granted restarts with no reset between are more than ten seconds apart. */
  lemma RestartBudget(es: seq<Happening>, i: nat, j: nat)
    requires HasClock(es) && IsOrdered(es) && i < j < |es|
    requires IsGranted(es, i) && IsGranted(es, j)
    requires forall k :: i < k < j ==> !IsReset(es, k)
    ensures es[j].now - es[i].now > CRASH_WINDOW
  {
    GrantsAreRemembered(es, i, j);
    GrantedExactlyOutsideWindow(es, j);
  }

  /** The end of a process that has been replaced reports nothing and changes nothing. */
  lemma StaleGenerationsChangeNothing(es: seq<Happening>, i: nat)
    requires i < |es| && es[i].Ends? && es[i].generation != After(es[..i]).generation
    ensures After(es[..i + 1]) == After(es[..i]) && ExitAt(es, i).None?
  {
    assert es[..i + 1][..i] == es[..i];
  }

  /** A process has been launched and has answered, or was found running. */
  predicate Connects(es: seq<Happening>, i: nat)
    requires i < |es|
  {
    es[i] == Ensures(Answered)
  }

  /** A stop has got as far as forgetting the client, or the current process has ended. */
  predicate Disconnects(es: seq<Happening>, i: nat)
    requires i < |es|
  {
    match es[i]
    case Stops(end) => !end.CancelledAsking?
    case Ends(generation, _) => generation == After(es[..i]).generation
    case Ensures(_) => false
  }

  ghost predicate IsConnectedSince(es: seq<Happening>, i: nat)
    requires i < |es|
  {
    Connects(es, i) && forall k :: i < k < |es| ==> !Disconnects(es, k)
  }

  /** On every run there is a client exactly while a start that was answered is followed by no stop and no end. */
  lemma {:induction false} ConnectedExactly(es: seq<Happening>)
    ensures After(es).isConnected <==> exists i: nat :: i < |es| && IsConnectedSince(es, i)
  {
    if es != [] {
      var front, n := es[..|es| - 1], |es| - 1;
      ConnectedExactly(front);
      forall i: nat | i < n
        ensures IsConnectedSince(es, i) <==> IsConnectedSince(front, i) && !Disconnects(es, n)
      {
        OlderConnection(es, i);
      }
      assert IsConnectedSince(es, n) <==> Connects(es, n);
    }
  }

  lemma OlderConnection(es: seq<Happening>, i: nat)
    requires i < |es| - 1
    ensures IsConnectedSince(es, i)
       <==> IsConnectedSince(es[..|es| - 1], i) && !Disconnects(es, |es| - 1)
  {
    var front := es[..|es| - 1];
    forall k | 0 <= k < |front|
      ensures Disconnects(front, k) == Disconnects(es, k)
    {
      assert front[..k] == es[..k];
    }
  }

  /** A process is launched by a start that finds none and is answered. */
  predicate Launches(es: seq<Happening>, i: nat)
    requires i < |es|
  {
    es[i] == Ensures(Answered) && !After(es[..i]).isConnected
  }

  /** A stop on purpose, which a start that fails ends in as well. */
  predicate MarksStop(es: seq<Happening>, i: nat)
    requires i < |es|
  {
    match es[i]
    case Stops(_) => true
    case Ensures(start) => !start.Answered? && !After(es[..i]).isConnected
    case Ends(_, _) => false
  }

  ghost predicate IsStoppedSince(es: seq<Happening>, i: nat)
    requires i < |es|
  {
    MarksStop(es, i) && forall k :: i < k < |es| ==> !Launches(es, k)
  }

  lemma OlderStop(es: seq<Happening>, i: nat)
    requires i < |es| - 1
    ensures IsStoppedSince(es, i) <==> IsStoppedSince(es[..|es| - 1], i) && !Launches(es, |es| - 1)
  {
    var front := es[..|es| - 1];
    assert front[..i] == es[..i];
    forall k | 0 <= k < |front|
      ensures Launches(front, k) == Launches(es, k)
    {
      assert front[..k] == es[..k];
    }
  }

  lemma {:induction false} StopsAreMarkedExactly(es: seq<Happening>)
    ensures After(es).intentionalStop <==> exists i: nat :: i < |es| && IsStoppedSince(es, i)
  {
    if es != [] {
      var front, n := es[..|es| - 1], |es| - 1;
      StopsAreMarkedExactly(front);
      forall i: nat | i < n
        ensures IsStoppedSince(es, i) <==> IsStoppedSince(front, i) && !Launches(es, n)
      {
        OlderStop(es, i);
      }
      assert IsStoppedSince(es, n) <==> MarksStop(es, n);
    }
  }

  /**
   * An end is reported exactly when it is of the current process and none was stopped on purpose since the last
   * launch; reported or not, an end of the current process leaves no client.
   */
  lemma ExitsAreReportedExactly(es: seq<Happening>, i: nat)
    requires i < |es| && es[i].Ends?
    ensures ExitAt(es, i).Some?
       <==> es[i].generation == After(es[..i]).generation && !exists k: nat :: k < i && IsStoppedSince(es[..i], k)
    ensures es[i].generation == After(es[..i]).generation ==> !After(es[..i + 1]).isConnected
  {
    StopsAreMarkedExactly(es[..i]);
    assert es[..i + 1][..i] == es[..i];
  }

  lemma AfterOneMore(es: seq<Happening>, e: Happening)
    ensures After(es + [e]) == Next(After(es), e)
  {
    assert (es + [e])[..|es|] == es;
  }

  lemma AfterTwoMore(es: seq<Happening>, d: Happening, e: Happening)
    ensures After(es + [d] + [e]) == Next(Next(After(es), d), e)
  {
    AfterOneMore(es, d);
    AfterOneMore(es + [d], e);
  }

  lemma RestartedIsGranted(m: Manager, now: Instant)
    requires now > CRASH_WINDOW
    ensures var restarted := Next(Next(m, Stops(Completed)), Ensures(Answered));
      && restarted.generation == m.generation + 1
      && Ended(restarted, restarted.generation, now).1 == Some(Exit(m.generation + 1, true))
  {
  }

  /** A reset between them lifts the bound: recovery stops the helper first, so its crashes are always granted. */
  lemma RecoveredCrashesAreAlwaysGranted(es: seq<Happening>, now: Instant)
    requires now > CRASH_WINDOW
    ensures var recovered := After(es + [Stops(Completed)] + [Ensures(Answered)]);
      Ended(recovered, recovered.generation, now).1 == Some(Exit(After(es).generation + 1, true))
  {
    AfterTwoMore(es, Stops(Completed), Ensures(Answered));
    RestartedIsGranted(After(es), now);
  }
}
