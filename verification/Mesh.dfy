/** Service endpoints derived from the room code alone: network/mesh.rs. */
module Mesh {
  import opened Bytes
  import C = Credentials

  type Digest = d: seq<byte> | |d| == 32 witness seq(32, _ => 0)

  /** SHA-256 of a compact room code, known only to be a function. */
  type Hash = string -> Digest

  datatype MeshEndpoints = MeshEndpoints(
    scaffoldingPort: Port,
    minecraftPort: Port,
    memberLocalScaffoldingPort: Port,
    memberLocalMinecraftPort: Port)

  function FromRoomCode(roomCode: string, hash: Hash): MeshEndpoints {
    var digest := hash(C.CompactRoomCode(roomCode));
    var a: int := PortFromBytes(digest[0], digest[1]);
    var b: int := PortFromBytes(digest[2], digest[3]);
    MeshEndpoints(41_000 + a % 9_000, 51_000 + b % 9_000, 42_000 + a % 9_000, 52_000 + b % 9_000)
  }

  datatype VirtualTarget = VirtualTarget(localPort: Port, hostPort: Port)

  /** The forwards a member asks EasyTier for: loopback port to the host's virtual address and port. */
  function MemberPortForwards(e: MeshEndpoints): seq<VirtualTarget> {
    [
      VirtualTarget(e.memberLocalScaffoldingPort, e.scaffoldingPort),
      VirtualTarget(e.memberLocalMinecraftPort, e.minecraftPort)
    ]
  }

  /** The ports on which the host's mesh ingresses listen, Scaffolding first. */
  function IngressPorts(e: MeshEndpoints): seq<Port> {
    [e.scaffoldingPort, e.minecraftPort]
  }

  /** The four ports are pairwise distinct and inside the documented ranges. */
  lemma PortsAreDistinctAndInRange(roomCode: string, hash: Hash)
    ensures var e := FromRoomCode(roomCode, hash);
      && 41_000 <= e.scaffoldingPort <= 49_999 && 51_000 <= e.minecraftPort <= 59_999
      && 42_000 <= e.memberLocalScaffoldingPort <= 50_999
      && 52_000 <= e.memberLocalMinecraftPort <= 60_999
      && |{e.scaffoldingPort, e.minecraftPort, e.memberLocalScaffoldingPort, e.memberLocalMinecraftPort}| == 4
  {
    var e := FromRoomCode(roomCode, hash);
    assert e.memberLocalScaffoldingPort == e.scaffoldingPort + 1_000;
    assert e.memberLocalMinecraftPort == e.minecraftPort + 1_000;
    var two := {e.scaffoldingPort, e.memberLocalScaffoldingPort};
    assert |two| == 2;
    assert two + {e.minecraftPort, e.memberLocalMinecraftPort}
        == {e.scaffoldingPort, e.minecraftPort, e.memberLocalScaffoldingPort, e.memberLocalMinecraftPort};
  }

  /** However the code is spelled on either side, the member forwards to the host's ingress ports. */
  lemma SpellingsMeet(hostSpelling: string, memberSpelling: string, hash: Hash)
    requires C.NormalizeRoomCode(hostSpelling).Some?
    requires C.NormalizeRoomCode(hostSpelling) == C.NormalizeRoomCode(memberSpelling)
    ensures FromRoomCode(hostSpelling, hash) == FromRoomCode(memberSpelling, hash)
    ensures var forwards := MemberPortForwards(FromRoomCode(memberSpelling, hash));
      var ingress := IngressPorts(FromRoomCode(C.NormalizeRoomCode(hostSpelling).value, hash));
      |forwards| == |ingress| && forall i :: 0 <= i < |ingress| ==> forwards[i].hostPort == ingress[i]
  {
    C.SpellingsOfOneCode(hostSpelling, memberSpelling);
  }
}
