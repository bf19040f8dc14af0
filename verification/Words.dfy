/** Words of four bytes, lowest byte first, as the i386 and ia64 programs read them. */
module Words {
  import opened Bits
  import opened Bytes

  const LONG: nat := 0x1_0000_0000

  function Long(s: seq<byte>, i: nat): (x: nat)
    requires i + 4 <= |s|
    ensures x < LONG
  {
    var (b0: nat, b1: nat, b2: nat, b3: nat) := (s[i], s[i + 1], s[i + 2], s[i + 3]);
    b0 + 0x100 * (b1 + 0x100 * (b2 + 0x100 * b3))
  }

  /** The word at `i` in memory, with zeros after the end. */
  function LongAt(bytes: seq<byte>, i: nat): nat {
    Long([ByteAt(bytes, i), ByteAt(bytes, i + 1), ByteAt(bytes, i + 2), ByteAt(bytes, i + 3)], 0)
  }

  function LongBytes(x: nat): (s: seq<byte>)
    ensures |s| == 4
  {
    var q1 := x / 0x100;
    var q2 := q1 / 0x100;
    [x % 0x100, q1 % 0x100, q2 % 0x100, q2 / 0x100 % 0x100]
  }

  lemma LongOfBytes(x: nat, s: seq<byte>, i: nat)
    requires x < LONG && i + 4 <= |s|
    requires s[i] == LongBytes(x)[0] && s[i + 1] == LongBytes(x)[1]
    requires s[i + 2] == LongBytes(x)[2] && s[i + 3] == LongBytes(x)[3]
    ensures Long(s, i) == x
  {
  }

  lemma LongPastEnd(bytes: seq<byte>, i: nat, j: nat)
    requires i >= |bytes| && j >= |bytes|
    ensures LongAt(bytes, i) == LongAt(bytes, j)
  {
  }

  /** Bits eight by eight. */
  lemma ByteAndMore(x: nat, pos: nat, n: nat)
    ensures Field(x, pos, 8 + n) == Field(x, pos, 8) + 0x100 * Field(x, pos + 8, n)
  {
    hide Low, Shr, Shl;
    LowSplit(Shr(x, pos), 8, n);
    ShrShr(x, pos, 8);
    ByteShift(Field(x, pos + 8, n));
  }

  lemma ByteShift(x: nat)
    ensures Shl(x, 8) == 0x100 * x
  {
    assert Shl(x, 2) == 2 * Shl(x, 1) == 4 * x;
    assert Shl(x, 5) == 2 * Shl(x, 4) == 4 * Shl(x, 3) == 32 * x;
    assert Shl(x, 7) == 2 * Shl(x, 6) == 128 * x;
  }

  /** The word at `i` is the number in the 32 bits of the stream from byte `i` on, its first byte lowest. */
  lemma LongInStream(bytes: seq<byte>, i: nat)
    ensures LongAt(bytes, i) == Field(Stream(bytes), 8 * i, 32)
  {
    hide Field, Stream;
    var x := Stream(bytes);
    StreamByte(bytes, i);
    StreamByte(bytes, i + 1);
    StreamByte(bytes, i + 2);
    StreamByte(bytes, i + 3);
    ByteAndMore(x, 8 * i, 24);
    ByteAndMore(x, 8 * i + 8, 16);
    ByteAndMore(x, 8 * i + 16, 8);
  }

  /** Four bytes written are the number as a stream. */
  lemma StreamOfLong(x: nat)
    requires x < LONG
    ensures Stream(LongBytes(x)) == x
  {
    hide Shl;
    var s := LongBytes(x);
    StreamStep(s);
    StreamStep(s[1..]);
    StreamStep(s[2..]);
    StreamStep(s[3..]);
    LongOfBytes(x, s, 0);
    assert s[4..] == [];
  }

  lemma StreamStep(s: seq<byte>)
    requires |s| > 0
    ensures Stream(s) == s[0] + 0x100 * Stream(s[1..])
  {
    ByteShift(Stream(s[1..]));
  }
}
