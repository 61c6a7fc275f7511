/** Members and network quality from raw samples: network/quality.rs and `sample_network` in network/backend.rs. */
module Quality {
  import opened PlayerRegistry
  import opened RoomTypes
  import opened Wrappers

  const U32_MAX := 0xFFFF_FFFF

  function ClampMillis(millis: nat): (clamped: nat)
    ensures clamped <= millis && clamped <= U32_MAX && (clamped == millis || clamped == U32_MAX)
  {
    if millis < U32_MAX then millis else U32_MAX
  }

  function MemberFromProfile(profile: PlayerProfile, rtt: Option<nat>, mode: ConnectionMode): RoomMember {
    RoomMember(
      profile.machineId,
      profile.name,
      if profile.kind == Some(HostPlayer) then Direct else mode,
      rtt,
      if rtt.Some? then Some(0.0) else None)
  }

  function MembersFromProfiles(profiles: seq<PlayerProfile>, rtt: Option<nat>, mode: ConnectionMode)
    : (members: seq<RoomMember>)
    ensures |members| == |profiles|
    ensures forall i :: 0 <= i < |profiles| ==>
              && members[i].id == profiles[i].machineId
              && members[i].displayName == profiles[i].name
              && members[i].roundTrip == rtt
              && (profiles[i].kind != Some(HostPlayer) ==> members[i].mode == mode)
              && (profiles[i].kind == Some(HostPlayer) ==> members[i].mode == Direct)
  {
    seq(|profiles|, i requires 0 <= i < |profiles| => MemberFromProfile(profiles[i], rtt, mode))
  }

  function ClassifyNat(rtt: Option<nat>, mode: ConnectionMode): string {
    match (rtt, mode)
    case (None, _) => "Unreachable"
    case (Some(ms), Direct) =>
      if ms < 40 then "LikelyOpenOrFullCone"
      else if ms < 120 then "LikelyAddressRestricted"
      else "LikelySymmetricOrCongested"
    case (Some(_), Relay) => "RelayAssisted"
    case _ => "Unknown"
  }

  function NetworkFromProbe(rtt: Option<nat>, preferDirect: bool, allowRelay: bool): NetworkStatus {
    var mode :=
      if rtt.None? then UnknownMode
      else if preferDirect then Direct
      else if allowRelay then Relay
      else UnknownMode;
    NetworkStatus(
      Some(ClassifyNat(rtt, mode)),
      mode,
      rtt,
      if rtt.Some? then Some(0.0) else None,
      if mode == Relay then Some("shared-public") else None,
      rtt.Some?)
  }

  /** What the network looked like when sampled: a command-line peer sample if there was one, and a TCP probe. */
  datatype NetworkSample = NetworkSample(peer: Option<NetworkStatus>, probe: Option<nat>)

  function SampleNetwork(sample: NetworkSample, preferDirect: bool, allowRelay: bool): (network: NetworkStatus)
    ensures sample.peer.None? || sample.peer.value.roundTrip.None? ==>
              network.roundTrip == sample.probe && (network.isHealthy <==> sample.probe.Some?)
    ensures sample.peer.Some? && sample.peer.value.roundTrip.Some? ==> network == sample.peer.value
    ensures sample.peer.None? ==>
              && (network.mode == Direct <==> sample.probe.Some? && preferDirect)
              && (network.mode == Relay <==> sample.probe.Some? && !preferDirect && allowRelay)
              && (network.natType == Some("Unreachable") <==> !network.isHealthy)
              && (network.relayNode.Some? <==> network.mode == Relay)
              && (network.packetLoss.Some? <==> network.isHealthy)
  {
    match sample.peer
    case None => NetworkFromProbe(sample.probe, preferDirect, allowRelay)
    case Some(status) =>
      if status.roundTrip.None? then status.(roundTrip := sample.probe, isHealthy := sample.probe.Some?)
      else status
  }
}
