/** The language of the published room states, written out as a grammar, and its agreement with the may-follow rule. */
module LifecycleGrammar {
  import opened EventReplay
  import opened RoomTypes
  import opened Wrappers

  /** One stay in a room: Connected (Reconnecting Connected)* Reconnecting? */
  datatype Stay = Stay(flaps: nat, endsReconnecting: bool)

  function Flaps(n: nat): seq<RoomState> {
    if n == 0 then [] else Flaps(n - 1) + [Reconnecting, Connected]
  }

  function StayWord(stay: Stay): seq<RoomState> {
    [Connected] + Flaps(stay.flaps) + if stay.endsReconnecting then [Reconnecting] else []
  }

  function OptionalStay(stay: Option<Stay>): seq<RoomState> {
    if stay.Some? then StayWord(stay.value) else []
  }

  /** (stay? Idle)* */
  function Word(rounds: seq<Option<Stay>>): seq<RoomState> {
    if rounds == [] then []
    else Word(rounds[..|rounds| - 1]) + OptionalStay(rounds[|rounds| - 1]) + [Idle]
  }

  ghost predicate IsPrefixOfWord(states: seq<RoomState>) {
    exists rounds :: states <= Word(rounds)
  }

  // ----- Words follow the rule -----

  predicate IsOutside(last: Option<RoomState>) {
    last == None || last == Some(Idle)
  }

  /** A lifecycle that goes on with `next`. */
  lemma GoesOn(states: seq<RoomState>, next: RoomState)
    requires IsLifecycle(states) && MayFollow(Last(states), next)
    ensures IsLifecycle(states + [next]) && Last(states + [next]) == Some(next)
  {
    LifecycleExtends(states, next);
  }

  lemma {:induction false} FlapsGoOn(states: seq<RoomState>, n: nat)
    requires IsLifecycle(states) && Last(states) == Some(Connected)
    ensures IsLifecycle(states + Flaps(n)) && Last(states + Flaps(n)) == Some(Connected)
  {
    if n == 0 {
      assert states + Flaps(0) == states;
    } else {
      FlapsGoOn(states, n - 1);
      var before := states + Flaps(n - 1);
      GoesOn(before, Reconnecting);
      GoesOn(before + [Reconnecting], Connected);
      FlapsInParts(states, Flaps(n - 1));
    }
  }

  lemma FlapsInParts(states: seq<RoomState>, flaps: seq<RoomState>)
    ensures states + (flaps + [Reconnecting, Connected]) == states + flaps + [Reconnecting] + [Connected]
  {
  }

  lemma StayGoesOn(states: seq<RoomState>, stay: Stay)
    requires IsLifecycle(states) && IsOutside(Last(states))
    ensures IsLifecycle(states + StayWord(stay))
  {
    GoesOn(states, Connected);
    FlapsGoOn(states + [Connected], stay.flaps);
    var flapped := states + [Connected] + Flaps(stay.flaps);
    if stay.endsReconnecting {
      GoesOn(flapped, Reconnecting);
    }
    StayInParts(states, stay);
  }

  lemma StayInParts(states: seq<RoomState>, stay: Stay)
    ensures states + StayWord(stay)
         == states + [Connected] + Flaps(stay.flaps) + if stay.endsReconnecting then [Reconnecting] else []
    ensures !stay.endsReconnecting ==> states + StayWord(stay) == states + [Connected] + Flaps(stay.flaps)
  {
    Regroup(states, [Connected], Flaps(stay.flaps), if stay.endsReconnecting then [Reconnecting] else []);
    assert states + [Connected] + Flaps(stay.flaps) + [] == states + [Connected] + Flaps(stay.flaps);
  }

  lemma Regroup(a: seq<RoomState>, b: seq<RoomState>, c: seq<RoomState>, d: seq<RoomState>)
    ensures a + (b + c + d) == a + b + c + d
  {
  }

  lemma {:induction false} WordsFollowTheRule(rounds: seq<Option<Stay>>)
    ensures IsLifecycle(Word(rounds)) && IsOutside(Last(Word(rounds)))
  {
    if rounds != [] {
      var front, last := rounds[..|rounds| - 1], rounds[|rounds| - 1];
      WordsFollowTheRule(front);
      if last.Some? {
        StayGoesOn(Word(front), last.value);
      } else {
        assert Word(front) + [] == Word(front);
      }
      GoesOn(Word(front) + OptionalStay(last), Idle);
    }
  }

  lemma {:induction false} PrefixesFollowTheRule(states: seq<RoomState>, n: nat)
    requires IsLifecycle(states) && n <= |states|
    ensures IsLifecycle(states[..n])
    decreases |states|
  {
    if n == |states| {
      assert states[..n] == states;
    } else {
      var front := states[..|states| - 1];
      PrefixesFollowTheRule(front, n);
      assert front[..n] == states[..n];
    }
  }

  // ----- What follows the rule is the beginning of a word -----

  /** The stay that is open at the end of a lifecycle is the one its last state tells of. */
  predicate IsOpenAt(open: Option<Stay>, last: Option<RoomState>) {
    match open
    case None => IsOutside(last)
    case Some(stay) => last == Some(if stay.endsReconnecting then Reconnecting else Connected)
  }

  lemma NextStay(open: Option<Stay>, last: Option<RoomState>, next: RoomState) returns (longer: Option<Stay>)
    requires IsOpenAt(open, last) && MayFollow(last, next) && next != Idle
    ensures OptionalStay(longer) == OptionalStay(open) + [next] && IsOpenAt(longer, Some(next))
  {
    match open {
      case None =>
        longer := Some(Stay(0, false));
      case Some(stay) =>
        if next == Reconnecting {
          longer := Some(stay.(endsReconnecting := true));
          assert StayWord(stay) + [Reconnecting] == StayWord(longer.value);
        } else {
          longer := Some(Stay(stay.flaps + 1, false));
          assert Flaps(stay.flaps + 1) == Flaps(stay.flaps) + [Reconnecting, Connected];
          assert StayWord(stay) + [Connected] == StayWord(longer.value);
        }
    }
  }

  lemma {:induction false} Parse(states: seq<RoomState>) returns (rounds: seq<Option<Stay>>, open: Option<Stay>)
    requires IsLifecycle(states)
    ensures states == Word(rounds) + OptionalStay(open) && IsOpenAt(open, Last(states))
  {
    if states == [] {
      rounds, open := [], None;
    } else {
      var front, next := states[..|states| - 1], states[|states| - 1];
      rounds, open := Parse(front);
      assert states == front + [next];
      rounds, open := ParseOne(front, rounds, open, next);
    }
  }

  lemma ParseOne(front: seq<RoomState>, before: seq<Option<Stay>>, stay: Option<Stay>, next: RoomState)
    returns (rounds: seq<Option<Stay>>, open: Option<Stay>)
    requires front == Word(before) + OptionalStay(stay) && IsOpenAt(stay, Last(front)) && MayFollow(Last(front), next)
    ensures front + [next] == Word(rounds) + OptionalStay(open) && IsOpenAt(open, Some(next))
  {
    if next == Idle {
      OneMoreRound(before, stay);
      rounds, open := before + [stay], None;
      assert Word(rounds) + [] == Word(rounds);
    } else {
      rounds := before;
      open := NextStay(stay, Last(front), next);
      Append(Word(before), OptionalStay(stay), [next]);
    }
  }

  lemma Append(a: seq<RoomState>, b: seq<RoomState>, c: seq<RoomState>)
    ensures a + b + c == a + (b + c)
  {
  }

  lemma OneMoreRound(rounds: seq<Option<Stay>>, stay: Option<Stay>)
    ensures Word(rounds + [stay]) == Word(rounds) + OptionalStay(stay) + [Idle]
  {
    assert (rounds + [stay])[..|rounds|] == rounds;
  }

  /** The rule admits exactly the prefixes of ((Connected (Reconnecting Connected)* Reconnecting?)? Idle)*. */
  lemma LifecyclesAreThePrefixesOfWords(states: seq<RoomState>)
    ensures IsLifecycle(states) <==> IsPrefixOfWord(states)
  {
    if IsLifecycle(states) {
      var rounds, open := Parse(states);
      OneMoreRound(rounds, open);
      assert states <= Word(rounds + [open]);
    }
    if IsPrefixOfWord(states) {
      var rounds :| states <= Word(rounds);
      WordsFollowTheRule(rounds);
      PrefixesFollowTheRule(Word(rounds), |states|);
      assert Word(rounds)[..|states|] == states;
    }
  }
}
