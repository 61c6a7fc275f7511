/** Bytes and the fixed-width integers that both length-prefixed framings carry. */
module Bytes {

  type byte = x: int | 0 <= x < 256

  const TWO_TO_THE_32 := 0x1_0000_0000

  type uint32 = x: int | 0 <= x < TWO_TO_THE_32

  type Port = p: int | 0 <= p < 0x1_0000

  /** `u16::from_be_bytes` */
  function PortFromBytes(high: byte, low: byte): Port {
    var h: int := high;
    h * 256 + low
  }

  /** `u16::to_be_bytes` */
  function PortToBytes(p: Port): (b: seq<byte>)
    ensures |b| == 2 && PortFromBytes(b[0], b[1]) == p
  {
    [p / 256, p % 256]
  }

  /** `u32::from_be_bytes` */
  function FromBigEndian(b: seq<byte>): uint32
    requires |b| == 4
  {
    var high: int := b[0];
    ((high * 256 + b[1]) * 256 + b[2]) * 256 + b[3]
  }

  /** `u32::to_be_bytes` */
  function ToBigEndian(n: uint32): (b: seq<byte>)
    ensures |b| == 4
    ensures FromBigEndian(b) == n
  {
    [n / 256 / 256 / 256, n / 256 / 256 % 256, n / 256 % 256, n % 256]
  }

  /** `u32::from_le_bytes` and `BinaryPrimitives.ReadUInt32LittleEndian` */
  function FromLittleEndian(b: seq<byte>): uint32
    requires |b| == 4
  {
    FromBigEndian([b[3], b[2], b[1], b[0]])
  }

  /** `u32::to_le_bytes` and `BinaryPrimitives.WriteUInt32LittleEndian` */
  function ToLittleEndian(n: uint32): (b: seq<byte>)
    ensures |b| == 4
    ensures FromLittleEndian(b) == n
  {
    var b := ToBigEndian(n);
    assert b == [b[0], b[1], b[2], b[3]];
    [b[3], b[2], b[1], b[0]]
  }

  lemma BigEndianInverse(b: seq<byte>)
    requires |b| == 4
    ensures ToBigEndian(FromBigEndian(b)) == b
  {
    var b0: int, b1: int, b2: int, b3: int := b[0], b[1], b[2], b[3];
    var n2 := b0 * 256 + b1;
    var n1 := n2 * 256 + b2;
    var n := n1 * 256 + b3;
    assert n / 256 == n1 && n % 256 == b3;
    assert n1 / 256 == n2 && n1 % 256 == b2;
    assert n2 / 256 == b0 && n2 % 256 == b1;
  }

  lemma LittleEndianInverse(b: seq<byte>)
    requires |b| == 4
    ensures ToLittleEndian(FromLittleEndian(b)) == b
  {
    BigEndianInverse([b[3], b[2], b[1], b[0]]);
  }
}
