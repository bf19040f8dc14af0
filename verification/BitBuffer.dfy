/**
 The bit buffer of inflate.c: get_byte, NEEDBITS and DUMPBITS (kunzip.c:35, inflate.c:219-230). Routines work on
 local copies `b` and `k` of the globals bb and bk, as the C code does.
 */
module BitBuffer {
  import opened Bits
  import opened Bytes

  /** `b` holds exactly the `k` stream bits from bit `pos` on, and nothing above them, of `fetched` bytes read. */
  ghost predicate Holds(x: nat, fetched: nat, b: nat, k: nat, pos: nat) {
    pos + k == 8 * fetched && k <= 23 && b == Field(x, pos, k)
  }

  /** The next `n` bits of the stream are the low bits of the buffer. */
  lemma PeekIs(x: nat, fetched: nat, b: nat, k: nat, pos: nat, n: nat)
    requires Holds(x, fetched, b, k, pos) && n <= k
    ensures Low(b, n) == Field(x, pos, n)
  {
    LowNest(Shr(x, pos), n, k);
  }

  /** DUMPBITS: dropping bits moves the position. */
  lemma DumpIs(x: nat, fetched: nat, b: nat, k: nat, pos: nat, n: nat)
    requires Holds(x, fetched, b, k, pos) && n <= k
    ensures Holds(x, fetched, Shr(b, n), k - n, pos + n)
  {
    LowOfLow(Shr(x, pos), n, k - n);
    ShrShr(x, pos, n);
  }

  /** One more byte above the bits already there; the buffer stays within 31 bits. */
  lemma FetchIs(bytes: seq<byte>, fetched: nat, b: nat, k: nat, pos: nat)
    requires Holds(Stream(bytes), fetched, b, k, pos) && k <= 15
    ensures Holds(Stream(bytes), fetched + 1, b + Shl(ByteAt(bytes, fetched), k), k + 8, pos)
    ensures b < Pow2(k) && b + Shl(ByteAt(bytes, fetched), k) < Pow2(31)
  {
    hide Shl, Rev, Low, Shr, Pow2;
    var y := Shr(Stream(bytes), pos);
    LowSplit(y, k, 8);
    ShrShr(Stream(bytes), pos, k);
    StreamByte(bytes, fetched);
    LowBound(y, k);
    LowBound(y, k + 8);
    Pow2Mono(k + 8, 31);
  }

  class Input {
    const inbuf: seq<byte>
    var inptr: nat
    ghost var fetched: nat // calls of get_byte, those past the end included

    constructor (data: seq<byte>)
      ensures inbuf == data && inptr == 0 && fetched == 0
    {
      inbuf := data;
      inptr, fetched := 0, 0;
    }

    ghost predicate Valid()
      reads this
    {
      inptr == if fetched < |inbuf| then fetched else |inbuf|
    }

    ghost predicate Has(b: nat, k: nat, pos: nat)
      reads this
    {
      Valid() && Holds(Stream(inbuf), fetched, b, k, pos)
    }

    method GetByte() returns (c: byte)
      requires Valid()
      modifies this
      ensures Valid() && fetched == old(fetched) + 1 && c == ByteAt(inbuf, old(fetched))
    {
      if inptr < |inbuf| {
        c := inbuf[inptr];
        inptr := inptr + 1;
      } else {
        c := 0;
      }
      fetched := fetched + 1;
    }

    /** NEEDBITS(n) */
    method NeedBits(n: nat, b0: nat, k0: nat, ghost pos: nat) returns (b: nat, k: nat)
      requires Has(b0, k0, pos) && n <= 16
      modifies this
      ensures Has(b, k, pos) && n <= k
      ensures Low(b, n) == Field(Stream(inbuf), pos, n)
      ensures k0 <= k && fetched >= old(fetched) && (k0 < n ==> k < n + 8)
    {
      hide Shl, Rev, Low, Shr, Pow2;
      b, k := b0, k0;
      while k < n
        invariant Has(b, k, pos) && k0 <= k && fetched >= old(fetched)
        invariant k0 < n ==> k < n + 8
      {
        FetchIs(inbuf, fetched, b, k, pos);
        var c := GetByte();
        b, k := b + Shl(c, k), k + 8;
      }
      PeekIs(Stream(inbuf), fetched, b, k, pos, n);
    }
  }
}
