/** Byte streams that deliver their data in arbitrary pieces, and what decoding one can give. */
module Streams {
  import opened Bytes

  datatype Decoding<+T, +E> = Decoded(value: T, rest: seq<byte>) | Rejected(error: E)

  function Flatten(chunks: seq<seq<byte>>): seq<byte> {
    if chunks == [] then [] else chunks[0] + Flatten(chunks[1..])
  }

  /** The reading half of a connection: the chunks the transport has yet to deliver, then its end. */
  class ByteReader {
    var chunks: seq<seq<byte>>

    constructor (chunks: seq<seq<byte>>)
      ensures this.chunks == chunks
    {
      this.chunks := chunks;
    }

    ghost function Pending(): seq<byte>
      reads this
    {
      Flatten(chunks)
    }

    /** One read: some of what is pending, and nothing only at the end. */
    method Read(capacity: nat) returns (data: seq<byte>)
      requires capacity > 0
      modifies this
      ensures data + Pending() == old(Pending())
      ensures |data| <= capacity
      ensures data == [] ==> old(Pending()) == []
    {
      while chunks != [] && chunks[0] == []
        invariant Pending() == old(Pending())
        decreases |chunks|
      {
        chunks := chunks[1..];
      }
      if chunks == [] {
        return [];
      }
      var chunk := chunks[0];
      var taken := if |chunk| < capacity then |chunk| else capacity;
      data := chunk[..taken];
      chunks := [chunk[taken..]] + chunks[1..];
      assert chunk == data + chunk[taken..];
    }

    /** Fills a buffer from `start` on, over as many reads as it takes. */
    method ReadExact(buffer: array<byte>, start: nat) returns (filled: bool)
      requires start <= buffer.Length
      modifies this, buffer
      ensures buffer[..start] == old(buffer[..start])
      ensures filled == (buffer.Length - start <= |old(Pending())|)
      ensures filled ==> buffer[start..] + Pending() == old(Pending())
      ensures !filled ==> Pending() == []
    {
      ghost var all := Pending();
      ghost var kept, got: seq<byte> := buffer[..start], [];
      var next := start;
      while next < buffer.Length
        invariant start <= next <= buffer.Length && |got| == next - start
        invariant buffer[..next] == kept + got
        invariant got + Pending() == all
      {
        var data := Read(buffer.Length - next);
        if data == [] {
          assert buffer[..start] == kept;
          return false;
        }
        Store(buffer, next, data);
        Reassociate(kept, got, data);
        Reassociate(got, data, Pending());
        got := got + data;
        next := next + |data|;
      }
      assert buffer[..start] == kept && buffer[start..] == got;
      return true;
    }

    /** Reads into a new buffer of the given size. */
    method ReadVector(count: nat) returns (bytes: seq<byte>, filled: bool)
      modifies this
      ensures filled == (count <= |old(Pending())|)
      ensures filled ==> bytes == old(Pending())[..count] && Pending() == old(Pending())[count..]
      ensures !filled ==> Pending() == []
    {
      ghost var all := Pending();
      var buffer := new byte[count](_ => 0);
      filled := ReadExact(buffer, 0);
      bytes := buffer[..];
      if filled {
        assert buffer[0..] == bytes;
        assert all == bytes + Pending();
      }
    }
  }

  lemma Reassociate(a: seq<byte>, b: seq<byte>, c: seq<byte>)
    ensures a + b + c == a + (b + c)
  {
  }

  method Store(buffer: array<byte>, start: nat, data: seq<byte>)
    requires start + |data| <= buffer.Length
    modifies buffer
    ensures buffer[..start + |data|] == old(buffer[..start]) + data
  {
    forall i | 0 <= i < |data| {
      buffer[start + i] := data[i];
    }
  }

  /** The writing half of a connection: everything put on it so far. */
  class ByteWriter {
    var written: seq<byte>

    constructor ()
      ensures written == []
    {
      written := [];
    }

    method WriteAll(data: seq<byte>)
      modifies this
      ensures written == old(written) + data
    {
      written := written + data;
    }
  }
}
