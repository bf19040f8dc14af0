/** Bytes, and a byte string as the bit stream RFC 1951 section 3.1.1 makes of it. */
module Bytes {
  import opened Bits

  type byte = b: nat | b < 256

  /** The bits of a byte string as one number: bytes in order, within a byte the lowest bit first, zeros after the end. */
  function Stream(bytes: seq<byte>): nat {
    if |bytes| == 0 then 0 else bytes[0] + Shl(Stream(bytes[1..]), 8)
  }

  /** The `n` bits of the stream from bit `pos` on, first bit lowest. */
  function Field(x: nat, pos: nat, n: nat): nat {
    Low(Shr(x, pos), n)
  }

  lemma FieldBound(x: nat, pos: nat, n: nat)
    ensures Field(x, pos, n) < Pow2(n)
  {
    LowBound(Shr(x, pos), n);
  }

  /** Byte `i`; kunzip.c:35 reads 0 past the end. */
  function ByteAt(bytes: seq<byte>, i: nat): byte {
    if i < |bytes| then bytes[i] else 0
  }

  /** The bytes sit in the stream eight bits apart. */
  lemma {:induction false} StreamByte(bytes: seq<byte>, i: nat)
    ensures Field(Stream(bytes), 8 * i, 8) == ByteAt(bytes, i)
  {
    hide Shl, Rev, Low, Shr, Pow2;
    var x := Stream(bytes);
    if |bytes| == 0 {
      ShrZero(8 * i);
      ShrZero(8);
    } else {
      EightBits(bytes[0]);
      LowShrUnique(bytes[0], Stream(bytes[1..]), 8);
      if i == 0 {
        NoBits(x);
      } else {
        StreamByte(bytes[1..], i - 1);
        ShrShr(x, 8, 8 * (i - 1));
        assert ByteAt(bytes[1..], i - 1) == ByteAt(bytes, i);
      }
    }
  }

  lemma EightBits(b: byte)
    ensures b < Pow2(8) && Low(b, 8) == b
  {
    assert Pow2(8) == 256;
    SmallLow(b, 8);
  }
}
