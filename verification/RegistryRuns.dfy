/** Timed runs of the host's registry: who is listed, and for how long after falling silent. */
module RegistryRuns {
  import opened Bytes
  import opened PlayerRegistry
  import opened Wrappers

  datatype Happening = Ping(profile: PlayerProfile, at: nat) | Cleanup(at: nat)

  /** The registry a host creates, and when. */
  datatype Start = Start(host: PlayerProfile, minecraftPort: Port, at: nat)

  function Now(start: Start, es: seq<Happening>): nat {
    if es == [] then start.at else es[|es| - 1].at
  }

  predicate IsTimed(start: Start, es: seq<Happening>) {
    es == [] || (IsTimed(start, es[..|es| - 1]) && Now(start, es[..|es| - 1]) <= es[|es| - 1].at)
  }

  function Happen(r: Registry, e: Happening): Registry {
    match e
    case Ping(profile, at) => WithGuest(r, profile, at)
    case Cleanup(at) => WithoutStaleGuests(r, at)
  }

  lemma HappeningsKeepPort(r: Option<Registry>, e: Happening)
    ensures r.Some? ==> Happen(r.value, e).minecraftPort == r.value.minecraftPort
  {
  }

  function After(start: Start, es: seq<Happening>): Registry {
    if es == [] then NewRegistry(start.host, start.minecraftPort, start.at)
    else Happen(After(start, es[..|es| - 1]), es[|es| - 1])
  }

  /** When the registry was last swept; its creation counts. */
  function LastCleanup(start: Start, es: seq<Happening>): nat {
    if es == [] then start.at
    else if es[|es| - 1].Cleanup? then es[|es| - 1].at
    else LastCleanup(start, es[..|es| - 1])
  }

  predicate IsPingOf(start: Start, e: Happening, id: string) {
    e.Ping? && e.profile.machineId == id && IsValidProfile(e.profile) && id != start.host.machineId
  }

  function LastPing(start: Start, es: seq<Happening>, id: string): Option<nat> {
    if es == [] then None
    else if IsPingOf(start, es[|es| - 1], id) then Some(es[|es| - 1].at)
    else LastPing(start, es[..|es| - 1], id)
  }

  lemma {:induction false} ClockBounds(start: Start, es: seq<Happening>, id: string)
    requires IsTimed(start, es)
    ensures start.at <= LastCleanup(start, es) <= Now(start, es)
    ensures LastPing(start, es, id).Some? ==> LastPing(start, es, id).value <= Now(start, es)
  {
    if es != [] {
      var front := es[..|es| - 1];
      ClockBounds(start, front, id);
    }
  }

  /** The invariant of every run: keys, the host and its uniqueness. */
  lemma {:induction false} RegistryOnEveryRun(start: Start, es: seq<Happening>)
    ensures IsRegistry(After(start, es))
    ensures After(start, es).hostMachineId == start.host.machineId
  {
    if es != [] {
      RegistryOnEveryRun(start, es[..|es| - 1]);
    }
  }

  /** Exactly who is registered: those whose last ping was within ten seconds of the last sweep. */
  lemma {:induction false} PresenceOnEveryRun(start: Start, es: seq<Happening>, id: string)
    requires IsTimed(start, es) && id != start.host.machineId
    ensures id in After(start, es).players <==>
              && LastPing(start, es, id).Some?
              && LastCleanup(start, es) - LastPing(start, es, id).value <= PLAYER_TIMEOUT
    ensures id in After(start, es).players ==>
              After(start, es).players[id].lastSeen == LastPing(start, es, id).value
  {
    if es != [] {
      var front := es[..|es| - 1];
      PresenceOnEveryRun(start, front, id);
      RegistryOnEveryRun(start, front);
      ClockBounds(start, front, id);
    }
  }

  /** Swept within the last five seconds, a registry lists nobody silent for more than fifteen. */
  lemma SilenceBound(start: Start, es: seq<Happening>, now: nat, listing: seq<PlayerProfile>, i: nat)
    requires IsTimed(start, es) && Now(start, es) <= now
    requires now - LastCleanup(start, es) <= CLEANUP_INTERVAL
    requires IsListing(After(start, es), listing) && 0 < i < |listing|
    ensures LastPing(start, es, listing[i].machineId).Some?
    ensures now - LastPing(start, es, listing[i].machineId).value <= PLAYER_TIMEOUT + CLEANUP_INTERVAL
  {
    RegistryOnEveryRun(start, es);
    ListingShape(After(start, es), listing);
    assert listing[i] in listing;
    PresenceOnEveryRun(start, es, listing[i].machineId);
  }

  /** After its first ping the guest is never more than ten seconds silent when anything happens. */
  ghost predicate PingsEveryTenSeconds(start: Start, es: seq<Happening>, id: string) {
    forall k :: 0 <= k < |es| && LastPing(start, es[..k], id).Some? ==>
      es[k].at - LastPing(start, es[..k], id).value <= PLAYER_TIMEOUT
  }

  /** Such a guest is listed from its first ping on, and the host is listed always. */
  lemma {:induction false} RegularGuestsAreNeverEvicted(start: Start, es: seq<Happening>, id: string)
    requires IsTimed(start, es) && id != start.host.machineId
    requires PingsEveryTenSeconds(start, es, id) && LastPing(start, es, id).Some?
    ensures id in After(start, es).players
  {
    PresenceOnEveryRun(start, es, id);
    SweepsFindRegularGuests(start, es, id);
  }

  lemma {:induction false} SweepsFindRegularGuests(start: Start, es: seq<Happening>, id: string)
    requires IsTimed(start, es) && PingsEveryTenSeconds(start, es, id)
    requires LastPing(start, es, id).Some?
    ensures LastCleanup(start, es) - LastPing(start, es, id).value <= PLAYER_TIMEOUT
  {
    var front := es[..|es| - 1];
    assert es == front + [es[|es| - 1]];
    assert PingsEveryTenSeconds(start, front, id) by {
      forall k | 0 <= k < |front| && LastPing(start, front[..k], id).Some?
        ensures front[k].at - LastPing(start, front[..k], id).value <= PLAYER_TIMEOUT
      {
        assert front[..k] == es[..k];
      }
    }
    ClockBounds(start, front, id);
    if !IsPingOf(start, es[|es| - 1], id) {
      SweepsFindRegularGuests(start, front, id);
      assert es[..|es| - 1] == front;
    }
  }

  lemma HostIsAlwaysListed(start: Start, es: seq<Happening>, listing: seq<PlayerProfile>)
    requires IsListing(After(start, es), listing)
    ensures listing != [] && listing[0].machineId == start.host.machineId
  {
    RegistryOnEveryRun(start, es);
    ListingShape(After(start, es), listing);
  }

  /**
   * The fifteen seconds are reached: a guest that pings once and is swept ten seconds later is still in the listing
   * of five seconds after that, when the next sweep is due. The documented ten hold only at the sweeps themselves.
   */
  lemma SilenceBoundIsReached(start: Start, guest: PlayerProfile, es: seq<Happening>, listing: seq<PlayerProfile>)
    requires IsValidProfile(guest) && guest.machineId != start.host.machineId
    requires es == [Ping(guest, start.at), Cleanup(start.at + PLAYER_TIMEOUT)]
    requires IsListing(After(start, es), listing)
    ensures var now := start.at + 15_000;
      && IsTimed(start, es) && Now(start, es) <= now
      && now - LastCleanup(start, es) <= CLEANUP_INTERVAL
      && guest.(kind := Some(GuestPlayer)) in listing
      && LastPing(start, es, guest.machineId).Some?
      && now - LastPing(start, es, guest.machineId).value == 15_000
  {
    assert es[..1] == [es[0]] && es[..1][..0] == [];
    assert IsPingOf(start, es[0], guest.machineId);
    PresenceOnEveryRun(start, es, guest.machineId);
    var pinged := After(start, es[..1]);
    assert After(start, es[..1][..0]) == NewRegistry(start.host, start.minecraftPort, start.at);
    assert pinged.players[guest.machineId].profile == guest.(kind := Some(GuestPlayer));
  }
}
