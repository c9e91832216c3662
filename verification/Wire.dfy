/** Bounded reads and writes of big-endian integers and octet strings. */
module Wire {
  import opened Basics

  type U16 = x: nat | x < 0x1_0000
  type U32 = x: nat | x < 0x1_0000_0000

  function Be16(v: U16): (r: seq<Byte>)
    ensures |r| == 2
  {
    [v / 256, v % 256]
  }

  function Be32(v: U32): (r: seq<Byte>)
    ensures |r| == 4
  {
    [v / 0x100_0000, (v / 0x1_0000) % 256, (v / 256) % 256, v % 256]
  }

  /** The octets of `packet` from `offset` on begin with `piece`. */
  predicate At(packet: seq<Byte>, offset: nat, piece: seq<Byte>) {
    offset + |piece| <= |packet| && packet[offset..offset + |piece|] == piece
  }

  lemma AtSplit(packet: seq<Byte>, offset: nat, a: seq<Byte>, b: seq<Byte>)
    ensures At(packet, offset, a + b) <==> At(packet, offset, a) && At(packet, offset + |a|, b)
  {
    if offset + |a| + |b| <= |packet| {
      var first, second := packet[offset..offset + |a|], packet[offset + |a|..offset + |a| + |b|];
      assert packet[offset..offset + |a + b|] == first + second;
      assert first + second == a + b ==> (first + second)[..|a|] == (a + b)[..|a|] && (first + second)[|a|..] == (a + b)[|a|..];
      assert (first + second)[..|a|] == first && (first + second)[|a|..] == second;
      assert (a + b)[..|a|] == a && (a + b)[|a|..] == b;
    }
  }

  lemma AtIndex(packet: seq<Byte>, offset: nat, piece: seq<Byte>, k: nat)
    requires At(packet, offset, piece) && k < |piece|
    ensures offset + k < |packet| && packet[offset + k] == piece[k]
  {
    assert packet[offset..offset + |piece|][k] == packet[offset + k];
  }

  function ReadU16(packet: seq<Byte>, offset: nat): Option<U16> {
    if offset + 2 <= |packet| then Some((packet[offset] as nat) * 256 + packet[offset + 1]) else None
  }

  function ReadU32(packet: seq<Byte>, offset: nat): Option<U32> {
    if offset + 4 <= |packet| then
      Some((packet[offset] as nat) * 0x100_0000 + (packet[offset + 1] as nat) * 0x1_0000 + (packet[offset + 2] as nat) * 256
           + packet[offset + 3])
    else None
  }

  lemma ReadBack16(packet: seq<Byte>, offset: nat, v: U16)
    requires At(packet, offset, Be16(v))
    ensures ReadU16(packet, offset) == Some(v)
  {
    AtIndex(packet, offset, Be16(v), 0);
    AtIndex(packet, offset, Be16(v), 1);
  }

  lemma ReadBack32(packet: seq<Byte>, offset: nat, v: U32)
    requires At(packet, offset, Be32(v))
    ensures ReadU32(packet, offset) == Some(v)
  {
    AtIndex(packet, offset, Be32(v), 0);
    AtIndex(packet, offset, Be32(v), 1);
    AtIndex(packet, offset, Be32(v), 2);
    AtIndex(packet, offset, Be32(v), 3);
    QuadDigits(v);
  }

  lemma QuadDigits(v: U32)
    ensures (v / 0x100_0000) * 0x100_0000 + ((v / 0x1_0000) % 256) * 0x1_0000 + ((v / 256) % 256) * 256 + v % 256 == v
  {
    var a := v / 256;
    var b := a / 256;
    assert v / 0x1_0000 == b && v / 0x100_0000 == b / 256;
  }

  class WireReader {
    const bytes: seq<Byte>
    var offset: nat

    constructor (bytes: seq<Byte>, offset: nat)
      ensures this.bytes == bytes && this.offset == offset
    {
      this.bytes := bytes;
      this.offset := offset;
    }

    function Remaining(): nat
      reads this
    {
      if offset <= |bytes| then |bytes| - offset else 0
    }

    /** A failed read consumes nothing. */
    method ReadWord() returns (ok: bool, value: U16)
      modifies this
      ensures ok <==> ReadU16(bytes, old(offset)).Some?
      ensures ok ==> Some(value) == ReadU16(bytes, old(offset)) && offset == old(offset) + 2
      ensures !ok ==> offset == old(offset)
    {
      if Remaining() < 2 {
        return false, 0;
      }
      value := (bytes[offset] as nat) * 256 + bytes[offset + 1];
      offset := offset + 2;
      ok := true;
    }

    method ReadDouble() returns (ok: bool, value: U32)
      modifies this
      ensures ok <==> ReadU32(bytes, old(offset)).Some?
      ensures ok ==> Some(value) == ReadU32(bytes, old(offset)) && offset == old(offset) + 4
      ensures !ok ==> offset == old(offset)
    {
      if Remaining() < 4 {
        return false, 0;
      }
      value := (bytes[offset] as nat) * 0x100_0000 + (bytes[offset + 1] as nat) * 0x1_0000 + (bytes[offset + 2] as nat) * 256
               + bytes[offset + 3];
      offset := offset + 4;
      ok := true;
    }

    method ReadBytes(count: nat) returns (ok: bool, value: seq<Byte>)
      modifies this
      ensures ok <==> old(offset) + count <= |bytes| || (count == 0 && old(offset) > |bytes|)
      ensures ok && count != 0 ==> value == bytes[old(offset)..old(offset) + count]
      ensures ok ==> |value| == count && offset == old(offset) + count
      ensures !ok ==> offset == old(offset)
    {
      if Remaining() < count {
        return false, [];
      }
      value := if count == 0 then [] else bytes[offset..offset + count];
      offset := offset + count;
      ok := true;
    }
  }

  class WireWriter {
    const maximum: nat
    var bytes: seq<Byte>

    constructor (maximum: nat)
      ensures this.maximum == maximum && bytes == []
    {
      this.maximum := maximum;
      bytes := [];
    }

    /** All of the piece is appended, or nothing. */
    method Append(piece: seq<Byte>) returns (ok: bool)
      modifies this
      ensures ok <==> |old(bytes)| + |piece| <= maximum
      ensures bytes == if ok then old(bytes) + piece else old(bytes)
    {
      if !(|bytes| <= maximum && |piece| <= maximum - |bytes|) {
        return false;
      }
      bytes := bytes + piece;
      ok := true;
    }
  }
}
