/** The plugin's lifecycle table: Application/RoomStateMachine.cs. */
module RoomStateMachine {

  datatype PluginState =
    | Idle | WaitingForGame | WaitingForLan | Creating | Joining | Connected | Reconnecting | Leaving | Faulted
    | Diagnosing

  function Allowed(state: PluginState): set<PluginState> {
    match state
    case Idle => {WaitingForGame, WaitingForLan, Creating, Joining, Faulted}
    case WaitingForGame => {WaitingForLan, Creating, Joining, Idle, Faulted}
    case WaitingForLan => {Creating, Idle, Faulted}
    case Creating => {Connected, Reconnecting, Leaving, Faulted}
    case Joining => {Connected, Reconnecting, Leaving, Faulted}
    case Connected => {Reconnecting, Diagnosing, Leaving, Faulted}
    case Reconnecting => {Connected, Creating, Joining, Diagnosing, Leaving, Faulted}
    case Leaving => {Idle, Faulted}
    case Faulted => {Diagnosing, Idle}
    case Diagnosing => {Connected, Reconnecting, Faulted, Idle}
  }

  predicate MayMove(state: PluginState, next: PluginState) {
    next == state || next in Allowed(state)
  }

  class RoomStateMachine {
    var state: PluginState
    /** What `StateChanged` has announced. */
    var announced: seq<PluginState>

    constructor ()
      ensures state == Idle && announced == []
    {
      state, announced := Idle, [];
    }

    method CanTransitionTo(next: PluginState) returns (can: bool)
      ensures can <==> MayMove(state, next)
    {
      return next == state || next in Allowed(state);
    }

    /** False where the original throws. */
    method TransitionTo(next: PluginState) returns (moved: bool)
      modifies this
      ensures moved <==> MayMove(old(state), next)
      ensures state == if moved then next else old(state)
      ensures announced == if moved && next != old(state) then old(announced) + [next] else old(announced)
    {
      if next == state {
        return true;
      }
      if next !in Allowed(state) {
        return false;
      }
      state := next;
      announced := announced + [next];
      return true;
    }

    /** Goes through Leaving where that is allowed, and so never against the table. */
    method ResetToIdle()
      modifies this
      ensures state == Idle
      ensures announced == if old(state) == Idle then old(announced) else old(announced) + [Idle]
    {
      if state == Idle {
        return;
      }
      if Leaving in Allowed(state) {
        state := Leaving;
      }
      assert Idle in Allowed(state);
      state := Idle;
      announced := announced + [Idle];
    }
  }
}
