/** Player profiles (scaffolding/model.rs) and the host's registry, `ServerContext` in scaffolding/server.rs. */
module PlayerRegistry {
  import opened Bytes
  import opened Text
  import opened Wrappers

  datatype PlayerKind = HostPlayer | GuestPlayer

  datatype PlayerProfile = PlayerProfile(
    name: string,
    machineId: string,
    vendor: string,
    kind: Option<PlayerKind>)

  predicate IsValidText(value: string, maximumLength: nat) {
    && Trim(value) != ""
    && Utf8Length(value) <= maximumLength
    && forall i :: 0 <= i < |value| ==> !IsControl(value[i])
  }

  predicate IsValidProfile(p: PlayerProfile) {
    IsValidText(p.name, 64) && IsValidText(p.machineId, 128) && IsValidText(p.vendor, 256)
  }

  datatype TrackedPlayer = TrackedPlayer(profile: PlayerProfile, lastSeen: nat)

  /** The registry's contents. Times are milliseconds on a monotonic clock. */
  datatype Registry = Registry(minecraftPort: Port, hostMachineId: string, players: map<string, TrackedPlayer>)

  const PLAYER_TIMEOUT := 10_000
  const CLEANUP_INTERVAL := 5_000

  // ----- The order of listings -----

  /** `str::cmp`: byte order of UTF-8 is the order of the characters. */
  predicate Less(a: string, b: string) {
    b != [] && (a == [] || a[0] < b[0] || (a[0] == b[0] && Less(a[1..], b[1..])))
  }

  function PlayerOrder(p: PlayerProfile): nat {
    if p.kind == Some(HostPlayer) then 0 else 1
  }

  /** Hosts first, then by machine id. */
  predicate Before(a: PlayerProfile, b: PlayerProfile) {
    PlayerOrder(a) < PlayerOrder(b) || (PlayerOrder(a) == PlayerOrder(b) && Less(a.machineId, b.machineId))
  }

  /** The texts part at `k`: the first ends there, or goes on with a smaller character. */
  predicate PartsAt(a: string, b: string, k: nat) {
    k <= |a| && k < |b| && a[..k] == b[..k] && (k == |a| || a[k] < b[k])
  }

  lemma {:induction false} PartingIsLess(a: string, b: string, k: nat)
    requires PartsAt(a, b, k)
    ensures Less(a, b)
  {
    if k > 0 {
      assert a[..k][0] == b[..k][0];
      assert a[1..][..k - 1] == a[..k][1..] && b[1..][..k - 1] == b[..k][1..];
      PartingIsLess(a[1..], b[1..], k - 1);
    }
  }

  lemma {:induction false} LessParts(a: string, b: string) returns (k: nat)
    requires Less(a, b)
    ensures PartsAt(a, b, k)
  {
    k := 0;
    if a != [] && a[0] == b[0] {
      k := LessParts(a[1..], b[1..]);
      assert a[..k + 1] == [a[0]] + a[1..][..k] && b[..k + 1] == [b[0]] + b[1..][..k];
      k := k + 1;
    }
  }

  /** The order is the one of dictionaries. */
  lemma LessIsLexicographic(a: string, b: string)
    ensures Less(a, b) <==> exists k: nat :: PartsAt(a, b, k)
  {
    if Less(a, b) {
      var k := LessParts(a, b);
    }
    if k: nat :| PartsAt(a, b, k) {
      PartingIsLess(a, b, k);
    }
  }

  lemma {:induction false} LessIsStrict(a: string, b: string)
    ensures Less(a, b) ==> !Less(b, a) && a != b
    ensures a == b || Less(a, b) || Less(b, a)
  {
    if a != [] && b != [] && a[0] == b[0] {
      LessIsStrict(a[1..], b[1..]);
      if a[1..] == b[1..] {
        assert a == [a[0]] + a[1..] == b;
      }
    }
  }

  lemma {:induction false} LessIsTransitive(a: string, b: string, c: string)
    requires Less(a, b) && Less(b, c)
    ensures Less(a, c)
  {
    if a != [] && a[0] == b[0] && b[0] == c[0] {
      LessIsTransitive(a[1..], b[1..], c[1..]);
    }
  }

  lemma BeforeIsTransitive(a: PlayerProfile, b: PlayerProfile, c: PlayerProfile)
    requires Before(a, b) && Before(b, c)
    ensures Before(a, c)
  {
    if PlayerOrder(a) == PlayerOrder(b) == PlayerOrder(c) {
      LessIsTransitive(a.machineId, b.machineId, c.machineId);
    }
  }

  lemma BeforeIsStrict(a: PlayerProfile, b: PlayerProfile)
    ensures Before(a, b) ==> !Before(b, a) && a != b
    ensures a.machineId != b.machineId ==> Before(a, b) || Before(b, a)
  {
    LessIsStrict(a.machineId, b.machineId);
  }

  /** Inserting behind everything that comes before, as a stable sort would. */
  function Insert(p: PlayerProfile, ps: seq<PlayerProfile>): seq<PlayerProfile> {
    if ps != [] && Before(ps[0], p) then [ps[0]] + Insert(p, ps[1..]) else [p] + ps
  }

  /** `sort_by` with the listing order. */
  function SortProfiles(ps: seq<PlayerProfile>): seq<PlayerProfile> {
    if ps == [] then [] else Insert(ps[0], SortProfiles(ps[1..]))
  }

  ghost predicate HasDistinctIds(ps: seq<PlayerProfile>) {
    forall i, j :: 0 <= i < j < |ps| ==> ps[i].machineId != ps[j].machineId
  }

  ghost predicate IsStrictlyOrdered(ps: seq<PlayerProfile>) {
    forall i, j :: 0 <= i < j < |ps| ==> Before(ps[i], ps[j])
  }

  lemma {:induction false} InsertKeepsElements(p: PlayerProfile, ps: seq<PlayerProfile>)
    ensures multiset(Insert(p, ps)) == multiset(ps) + multiset{p}
  {
    if ps != [] && Before(ps[0], p) {
      InsertKeepsElements(p, ps[1..]);
      assert ps == [ps[0]] + ps[1..];
    }
  }

  lemma {:induction false} InsertKeepsOrder(p: PlayerProfile, ps: seq<PlayerProfile>)
    requires IsStrictlyOrdered(ps)
    requires forall q :: q in ps ==> q.machineId != p.machineId
    ensures IsStrictlyOrdered(Insert(p, ps))
  {
    if ps == [] {
    } else if Before(ps[0], p) {
      InsertKeepsOrder(p, ps[1..]);
      var rest := Insert(p, ps[1..]);
      InsertKeepsElements(p, ps[1..]);
      forall j | 0 <= j < |rest|
        ensures Before(ps[0], rest[j])
      {
        assert rest[j] in multiset(rest);
        if rest[j] != p {
          assert rest[j] in ps[1..];
        }
      }
    } else {
      BeforeIsStrict(p, ps[0]);
      assert ps[0] in ps;
      forall j | 0 < j < |ps|
        ensures Before(p, ps[j])
      {
        BeforeIsTransitive(p, ps[0], ps[j]);
      }
    }
  }

  lemma {:induction false} SortKeepsElements(ps: seq<PlayerProfile>)
    ensures multiset(SortProfiles(ps)) == multiset(ps)
  {
    if ps != [] {
      SortKeepsElements(ps[1..]);
      InsertKeepsElements(ps[0], SortProfiles(ps[1..]));
      assert ps == [ps[0]] + ps[1..];
    }
  }

  lemma {:induction false} SortOrders(ps: seq<PlayerProfile>)
    requires HasDistinctIds(ps)
    ensures IsStrictlyOrdered(SortProfiles(ps))
  {
    if ps != [] {
      SortOrders(ps[1..]);
      SortKeepsElements(ps[1..]);
      forall q | q in SortProfiles(ps[1..])
        ensures q.machineId != ps[0].machineId
      {
        assert q in multiset(SortProfiles(ps[1..]));
        assert q in ps[1..];
      }
      InsertKeepsOrder(ps[0], SortProfiles(ps[1..]));
    }
  }

  // ----- Registry invariant and listings -----

  /** Keys are the profiles' own ids; the host is there, and is the only host. */
  ghost predicate IsRegistry(r: Registry) {
    && (forall id :: id in r.players ==> r.players[id].profile.machineId == id)
    && r.hostMachineId in r.players
    && (forall id :: id in r.players ==>
          r.players[id].profile.kind == Some(if id == r.hostMachineId then HostPlayer else GuestPlayer))
  }

  /** The profiles of exactly the registered players, in listing order. */
  ghost predicate IsListing(r: Registry, ps: seq<PlayerProfile>) {
    && IsStrictlyOrdered(ps)
    && (forall p :: p in ps ==> p.machineId in r.players && r.players[p.machineId].profile == p)
    && (forall id :: id in r.players ==> r.players[id].profile in ps)
  }

  /** Only one sequence lists a registry, whatever order its hash map is walked in. */
  lemma ListingIsUnique(r: Registry, ps: seq<PlayerProfile>, qs: seq<PlayerProfile>)
    requires IsRegistry(r) && IsListing(r, ps) && IsListing(r, qs)
    ensures ps == qs
  {
    assert forall p :: p in ps <==> p in qs;
    OrderedSequencesWithEqualElements(ps, qs);
  }

  lemma {:induction false} OrderedSequencesWithEqualElements(ps: seq<PlayerProfile>, qs: seq<PlayerProfile>)
    requires IsStrictlyOrdered(ps) && IsStrictlyOrdered(qs)
    requires forall p :: p in ps <==> p in qs
    ensures ps == qs
  {
    assert qs != [] ==> qs[0] in qs;
    if ps != [] {
      assert ps[0] in qs;
      assert qs != [] && qs[0] in ps;
      FirstsAgree(ps, qs);
      forall p
        ensures p in ps[1..] <==> p in qs[1..]
      {
        TailMembership(ps, p);
        TailMembership(qs, p);
      }
      OrderedSequencesWithEqualElements(ps[1..], qs[1..]);
      assert ps == [ps[0]] + ps[1..] && qs == [qs[0]] + qs[1..];
    }
  }

  lemma FirstsAgree(ps: seq<PlayerProfile>, qs: seq<PlayerProfile>)
    requires IsStrictlyOrdered(ps) && IsStrictlyOrdered(qs)
    requires ps != [] && qs != [] && ps[0] in qs && qs[0] in ps
    ensures ps[0] == qs[0]
  {
    BeforeIsStrict(ps[0], qs[0]);
  }

  lemma TailMembership(ps: seq<PlayerProfile>, p: PlayerProfile)
    requires IsStrictlyOrdered(ps) && ps != []
    ensures p in ps[1..] <==> p in ps && p != ps[0]
  {
    forall j | 0 < j < |ps|
      ensures ps[j] != ps[0]
    {
      BeforeIsStrict(ps[0], ps[j]);
    }
    if p in ps && p != ps[0] {
      var j :| 0 <= j < |ps| && ps[j] == p;
      assert ps[1..][j - 1] == p;
    }
  }

  /** The profiles behind some of the keys, in some order. */
  ghost function Collected(players: map<string, TrackedPlayer>, ids: set<string>): (ps: seq<PlayerProfile>)
    requires ids <= players.Keys
    ensures forall p :: p in ps <==> exists id :: id in ids && players[id].profile == p
    decreases ids
  {
    if ids == {} then []
    else
      var id :| id in ids;
      assert forall i :: i in ids <==> i == id || i in ids - {id};
      [players[id].profile] + Collected(players, ids - {id})
  }

  /** The one listing of a registry. */
  ghost function Listing(r: Registry): seq<PlayerProfile> {
    SortProfiles(Collected(r.players, r.players.Keys))
  }

  lemma {:induction false} CollectedIsDistinct(r: Registry, ids: set<string>)
    requires IsRegistry(r) && ids <= r.players.Keys
    ensures HasDistinctIds(Collected(r.players, ids))
    decreases ids
  {
    if ids != {} {
      var ps := Collected(r.players, ids);
      var id := ps[0].machineId;
      assert ps[0] in ps;
      CollectedIsDistinct(r, ids - {id});
      assert ps == [ps[0]] + Collected(r.players, ids - {id});
      forall j | 0 < j < |ps|
        ensures ps[j].machineId != id
      {
        assert ps[j] == Collected(r.players, ids - {id})[j - 1];
        assert ps[j] in Collected(r.players, ids - {id});
      }
    }
  }

  lemma ListingLists(r: Registry)
    requires IsRegistry(r)
    ensures IsListing(r, Listing(r))
  {
    var ps := Collected(r.players, r.players.Keys);
    CollectedIsDistinct(r, r.players.Keys);
    SortOrders(ps);
    SortKeepsElements(ps);
    assert forall p :: p in Listing(r) <==> p in multiset(Listing(r));
    assert forall p :: p in ps <==> p in multiset(ps);
  }

  /** A listing starts with the host and goes on with guests of strictly increasing id. */
  lemma ListingShape(r: Registry, ps: seq<PlayerProfile>)
    requires IsRegistry(r) && IsListing(r, ps)
    ensures ps != [] && ps[0].machineId == r.hostMachineId && ps[0].kind == Some(HostPlayer)
    ensures forall i :: 0 < i < |ps| ==> ps[i].kind == Some(GuestPlayer)
    ensures forall i, j :: 0 < i < j < |ps| ==> Less(ps[i].machineId, ps[j].machineId)
    ensures HasDistinctIds(ps)
  {
    var host := r.players[r.hostMachineId].profile;
    assert host in ps;
    var k :| 0 <= k < |ps| && ps[k] == host;
    if k > 0 {
      assert Before(ps[0], host);
      assert ps[0].machineId in r.players;
      LessIsStrict(ps[0].machineId, host.machineId);
      assert false;
    }
    forall i, j | 0 <= i < j < |ps|
      ensures ps[i].machineId != ps[j].machineId
    {
      BeforeIsStrict(ps[i], ps[j]);
      assert ps[i] in ps && ps[j] in ps;
    }
    forall i | 0 < i < |ps|
      ensures ps[i].kind == Some(GuestPlayer)
    {
      assert ps[i] in ps && ps[0].machineId != ps[i].machineId;
    }
  }

  // ----- Operations on the contents -----

  function NewRegistry(host: PlayerProfile, minecraftPort: Port, now: nat): Registry {
    Registry(
      minecraftPort,
      host.machineId,
      map[host.machineId := TrackedPlayer(host.(kind := Some(HostPlayer)), now)])
  }

  predicate IsAcceptableGuest(r: Registry, profile: PlayerProfile) {
    IsValidProfile(profile) && profile.machineId != r.hostMachineId
  }

  /** A refused ping leaves the registry alone; an accepted one is a guest whatever it claims. */
  function WithGuest(r: Registry, profile: PlayerProfile, now: nat): Registry {
    if !IsAcceptableGuest(r, profile) then r
    else r.(players := r.players[profile.machineId := TrackedPlayer(profile.(kind := Some(GuestPlayer)), now)])
  }

  predicate Survives(r: Registry, id: string, now: nat)
    requires id in r.players
  {
    id == r.hostMachineId || now - r.players[id].lastSeen <= PLAYER_TIMEOUT
  }

  function WithoutStaleGuests(r: Registry, now: nat): Registry {
    r.(players := map id | id in r.players && Survives(r, id, now) :: r.players[id])
  }

  lemma OperationsKeepRegistry(r: Registry, profile: PlayerProfile, now: nat)
    requires IsRegistry(r)
    ensures IsRegistry(WithGuest(r, profile, now))
    ensures IsRegistry(WithoutStaleGuests(r, now))
  {
  }

  class ServerContext {
    const minecraftPort: Port
    const hostMachineId: string
    var players: map<string, TrackedPlayer>

    ghost function Contents(): Registry
      reads this
    {
      Registry(minecraftPort, hostMachineId, players)
    }

    ghost predicate Valid()
      reads this
    {
      IsRegistry(Contents())
    }

    constructor (host: PlayerProfile, minecraftPort: Port, now: nat)
      ensures Valid() && Contents() == NewRegistry(host, minecraftPort, now)
    {
      this.minecraftPort := minecraftPort;
      hostMachineId := host.machineId;
      players := map[host.machineId := TrackedPlayer(host.(kind := Some(HostPlayer)), now)];
    }

    /** The registry of a host, unless its port is zero or its profile carries invalid text. */
    static method New(host: PlayerProfile, minecraftPort: Port, now: nat) returns (context: ServerContext?)
      ensures context != null <==> minecraftPort != 0 && IsValidProfile(host)
      ensures context != null ==>
                fresh(context) && context.Valid() && context.Contents() == NewRegistry(host, minecraftPort, now)
    {
      if minecraftPort == 0 || !IsValidProfile(host) {
        return null;
      }
      context := new ServerContext(host, minecraftPort, now);
    }

    method RecordGuest(profile: PlayerProfile, now: nat) returns (recorded: bool)
      requires Valid()
      modifies this
      ensures Valid()
      ensures recorded == IsAcceptableGuest(old(Contents()), profile)
      ensures Contents() == WithGuest(old(Contents()), profile, now)
    {
      if !IsValidProfile(profile) || profile.machineId == hostMachineId {
        return false;
      }
      players := players[profile.machineId := TrackedPlayer(profile.(kind := Some(GuestPlayer)), now)];
      return true;
    }

    method RemoveStaleGuests(now: nat)
      requires Valid()
      modifies this
      ensures Valid() && Contents() == WithoutStaleGuests(old(Contents()), now)
    {
      players := map id
        | id in players && (id == hostMachineId || now - players[id].lastSeen <= PLAYER_TIMEOUT)
        :: players[id];
    }

    /** The hash map is walked in no particular order, then sorted. */
    method PlayerProfiles() returns (profiles: seq<PlayerProfile>)
      requires Valid()
      ensures IsListing(Contents(), profiles) && profiles == Listing(Contents())
    {
      var collected: seq<PlayerProfile> := [];
      var remaining := players.Keys;
      while remaining != {}
        invariant remaining <= players.Keys
        invariant HasDistinctIds(collected)
        invariant forall p :: p in collected ==>
                    p.machineId in players.Keys - remaining && players[p.machineId].profile == p
        invariant forall id :: id in players.Keys - remaining ==> players[id].profile in collected
        decreases remaining
      {
        var id :| id in remaining;
        collected := collected + [players[id].profile];
        remaining := remaining - {id};
      }
      profiles := SortProfiles(collected);
      SortOrders(collected);
      SortKeepsElements(collected);
      assert forall p :: p in profiles <==> p in multiset(profiles);
      assert forall p :: p in collected <==> p in multiset(collected);
      ListingLists(Contents());
      ListingIsUnique(Contents(), profiles, Listing(Contents()));
    }
  }
}
