/**
 The CRC of inflate.c:1012-1055 and kunzip.c:118-121: a table built from the message bits, used a byte at a time,
 against the bitwise CRC-32 of RFC 1952 section 8. One step of the shift register is linear over exclusive or, and
 that is all the proof uses. A 32-bit word is a number; exclusive or is taken digit by digit.
 */
module Crc {
  import opened Bits
  import opened Bytes
  import opened Words

  /** x ^ y */
  function Xor(x: nat, y: nat): nat
    decreases x + y
  {
    if x == 0 && y == 0 then 0 else (x % 2 + y % 2) % 2 + 2 * Xor(x / 2, y / 2)
  }

  /** The generator of RFC 1952 section 8, lowest power in the highest bit. */
  const POLY: nat := 0xedb88320
  const ONES: nat := 0xffffffff

  // ----- the bitwise definition

  /** What a bit leaving the register adds back. */
  function Feedback(c: nat): nat {
    if c % 2 == 1 then POLY else 0
  }

  /** One step of the shift register. */
  function Step(c: nat): nat {
    Xor(c / 2, Feedback(c))
  }

  function Steps(c: nat, n: nat): nat {
    if n == 0 then c else Step(Steps(c, n - 1))
  }

  /** A byte enters at the low end and is shifted out in eight steps. */
  function CrcByte(c: nat, b: byte): nat {
    Steps(Xor(c, b), 8)
  }

  /** The register after a byte string. */
  function CrcOf(c: nat, data: seq<byte>): nat {
    if |data| == 0 then c else CrcByte(CrcOf(c, data[..|data| - 1]), data[|data| - 1])
  }

  /** CRC-32: all ones before and after. */
  function Crc32(data: seq<byte>): nat {
    Xor(CrcOf(ONES, data), ONES)
  }

  /** Feeding a string in pieces is feeding it whole. */
  lemma {:induction false} CrcSplit(c: nat, a: seq<byte>, b: seq<byte>)
    ensures CrcOf(c, a + b) == CrcOf(CrcOf(c, a), b)
  {
    hide CrcByte;
    if |b| == 0 {
      assert a + b == a;
    } else {
      var last := |b| - 1;
      CrcSplit(c, a, b[..last]);
      assert (a + b)[..|a + b| - 1] == a + b[..last];
    }
  }

  // ----- exclusive or

  lemma {:induction false} XorZero(x: nat)
    ensures Xor(x, 0) == x && Xor(0, x) == x
  {
    if x != 0 {
      XorZero(x / 2);
    }
  }

  lemma {:induction false} XorSelf(x: nat)
    ensures Xor(x, x) == 0
  {
    if x != 0 {
      XorSelf(x / 2);
    }
  }

  lemma {:induction false} XorCommutes(x: nat, y: nat)
    ensures Xor(x, y) == Xor(y, x)
    decreases x + y
  {
    if x != 0 || y != 0 {
      XorCommutes(x / 2, y / 2);
    }
  }

  lemma XorDigit(x: nat, y: nat)
    ensures Xor(x, y) % 2 == (x % 2 + y % 2) % 2 && Xor(x, y) / 2 == Xor(x / 2, y / 2)
  {
  }

  lemma {:induction false} XorAssociates(x: nat, y: nat, z: nat)
    ensures Xor(Xor(x, y), z) == Xor(x, Xor(y, z))
    decreases x + y + z
  {
    if x != 0 || y != 0 || z != 0 {
      XorAssociates(x / 2, y / 2, z / 2);
      XorDigits(x, y, z);
      assert Xor(Xor(x, y), z) / 2 == Xor(x, Xor(y, z)) / 2;
      assert Xor(Xor(x, y), z) % 2 == Xor(x, Xor(y, z)) % 2;
    }
  }

  lemma XorDigits(x: nat, y: nat, z: nat)
    ensures Xor(Xor(x, y), z) % 2 == (x % 2 + y % 2 + z % 2) % 2 == Xor(x, Xor(y, z)) % 2
    ensures Xor(Xor(x, y), z) / 2 == Xor(Xor(x / 2, y / 2), z / 2)
    ensures Xor(x, Xor(y, z)) / 2 == Xor(x / 2, Xor(y / 2, z / 2))
  {
    hide Xor;
    XorDigit(x, y);
    XorDigit(Xor(x, y), z);
    XorDigit(y, z);
    XorDigit(x, Xor(y, z));
  }

  /** Two sums added place by place. */
  lemma XorShuffle(a: nat, b: nat, c: nat, d: nat)
    ensures Xor(Xor(a, b), Xor(c, d)) == Xor(Xor(a, c), Xor(b, d))
  {
    hide Xor;
    XorAssociates(a, b, Xor(c, d));
    XorAssociates(b, c, d);
    XorCommutes(b, c);
    XorAssociates(c, b, d);
    XorAssociates(a, c, Xor(b, d));
  }

  lemma {:induction false} XorShr(x: nat, y: nat, n: nat)
    ensures Shr(Xor(x, y), n) == Xor(Shr(x, n), Shr(y, n))
  {
    if n != 0 {
      XorDigit(x, y);
      XorShr(x / 2, y / 2, n - 1);
    }
  }

  /** A number split at bit `n`: the two parts have no digit in common. */
  lemma {:induction false} XorParts(x: nat, n: nat)
    ensures x == Xor(Low(x, n), Shl(Shr(x, n), n))
  {
    if n == 0 {
      NoBits(x);
      XorZero(x);
    } else {
      XorParts(x / 2, n - 1);
      OnePlaceUp(x % 2, Low(x / 2, n - 1), Shl(Shr(x / 2, n - 1), n - 1));
    }
  }

  lemma OnePlaceUp(d: nat, l: nat, h: nat)
    requires d < 2
    ensures Xor(d + 2 * l, 2 * h) == d + 2 * Xor(l, h)
  {
    hide Xor;
    XorDigit(d + 2 * l, 2 * h);
    assert (d + 2 * l) / 2 == l;
  }

  // ----- linearity

  lemma FeedbackLinear(a: nat, b: nat)
    ensures Feedback(Xor(a, b)) == Xor(Feedback(a), Feedback(b))
  {
    hide Xor;
    XorDigit(a, b);
    PickLinear(a, b, POLY);
  }

  lemma PickLinear(a: nat, b: nat, p: nat)
    ensures (if (a % 2 + b % 2) % 2 == 1 then p else 0)
         == Xor(if a % 2 == 1 then p else 0, if b % 2 == 1 then p else 0)
  {
    hide Xor;
    XorZero(p);
    XorZero(0);
    XorSelf(p);
  }

  lemma StepLinear(a: nat, b: nat)
    ensures Step(Xor(a, b)) == Xor(Step(a), Step(b))
  {
    hide Xor, Feedback;
    XorDigit(a, b);
    FeedbackLinear(a, b);
    XorShuffle(a / 2, b / 2, Feedback(a), Feedback(b));
  }

  lemma {:induction false} StepsLinear(a: nat, b: nat, n: nat)
    ensures Steps(Xor(a, b), n) == Xor(Steps(a, n), Steps(b, n))
  {
    hide Step, Xor;
    if n != 0 {
      StepsLinear(a, b, n - 1);
      StepLinear(Steps(a, n - 1), Steps(b, n - 1));
    }
  }

  /** Zero bits leaving the register feed nothing back: high bits are only shifted down. */
  lemma {:induction false} HighPart(q: nat, n: nat, m: nat)
    requires n <= m
    ensures Steps(Shl(q, m), n) == Shl(q, m - n)
  {
    hide Xor;
    if n != 0 {
      HighPart(q, n - 1, m);
      XorZero(Shl(q, m - n));
    }
  }

  /** The low byte by table, the rest by a shift. */
  lemma TableStep(c: nat)
    ensures Steps(c, 8) == Xor(Steps(Low(c, 8), 8), Shr(c, 8))
  {
    hide Step, Steps, Xor, Shl, Shr, Low;
    XorParts(c, 8);
    StepsLinear(Low(c, 8), Shl(Shr(c, 8), 8), 8);
    HighPart(Shr(c, 8), 8, 8);
    NoBits(Shr(c, 8));
  }

  // ----- the table, inflate.c:1021-1055

  /** Terms of the polynomial, except x^32. */
  const TERMS: seq<nat> := [0, 1, 2, 4, 5, 7, 8, 10, 11, 12, 16, 22, 23, 26]

  /** x | (1 << n) */
  function SetBit(x: nat, n: nat): nat {
    if Bit(x, n) == 1 then x else x + Pow2(n)
  }

  ghost predicate IsTable(tab: seq<nat>) {
    |tab| == 256 && forall i :: 0 <= i < 256 ==> tab[i] == Steps(i, 8)
  }

  /** The pattern above the bit that each term sets. */
  const HIGHER: seq<nat> := [
    0x0, 0x1, 0x3, 0xe, 0x1d, 0x76, 0xed, 0x3b6, 0x76d, 0xedb, 0xedb8, 0x3b6e20, 0x76dc41, 0x3b6e20c]

  /** Each term sets a bit of the pattern; together they are the generator. */
  method MakePattern() returns (e: nat)
    ensures e == POLY == 0xedb88320
  {
    hide SetBit, Shl, Pow2;
    e := 0;
    ShlOne(32);
    var i := 0;
    while i < |TERMS|
      invariant 0 <= i <= |TERMS|
      invariant i < |TERMS| ==> TERMS[i] <= 31 && e == Shl(HIGHER[i], 32 - TERMS[i])
      invariant i == |TERMS| ==> e == POLY
    {
      PatternStep(i);
      e := SetBit(e, 31 - TERMS[i]);
      i := i + 1;
    }
  }

  /** An or with a bit below all those set. */
  lemma FreshBit(q: nat, n: nat)
    ensures SetBit(Shl(q, n + 1), n) == Shl(2 * q + 1, n)
  {
    hide Pow2, Shl, Shr;
    Doubled(q, n);
    LowShrUnique(0, 2 * q, n);
    ShlAdd(2 * q, 1, n);
    ShlOne(n);
  }

  lemma PatternStep(i: nat)
    requires i < |TERMS|
    ensures TERMS[i] <= 31
    ensures i == |TERMS| - 1 ==> SetBit(Shl(HIGHER[i], 32 - TERMS[i]), 31 - TERMS[i]) == POLY
    ensures i < |TERMS| - 1 ==> TERMS[i + 1] <= 31
    ensures i < |TERMS| - 1 ==>
      SetBit(Shl(HIGHER[i], 32 - TERMS[i]), 31 - TERMS[i]) == Shl(HIGHER[i + 1], 32 - TERMS[i + 1])
  {
    hide SetBit;
    var q: nat := HIGHER[i];
    FreshBit(q, 31 - TERMS[i]);
    if i == |TERMS| - 1 {
      assert Shl(0x76dc419, 5) == POLY;
    } else {
      HigherStep(i);
      ShlShl(2 * q + 1, TERMS[i + 1] - TERMS[i] - 1, 32 - TERMS[i + 1]);
    }
  }

  lemma HigherStep(i: nat)
    requires i < |TERMS| - 1
    ensures TERMS[i] < TERMS[i + 1] <= 31 && Shl(2 * HIGHER[i] + 1, TERMS[i + 1] - TERMS[i] - 1) == HIGHER[i + 1]
  {
    hide Shl;
    ShlFew(2 * HIGHER[i] + 1);
  }

  lemma ShlFew(x: nat)
    ensures Shl(x, 0) == x && Shl(x, 1) == 2 * x && Shl(x, 2) == 4 * x && Shl(x, 3) == 8 * x && Shl(x, 5) == 32 * x
  {
    assert Shl(x, 4) == 2 * Shl(x, 3);
  }

  /** After `n` message bits: what is left of the message, and a register that differs from `Steps(i, n)` by it. */
  ghost predicate Shifted(i: nat, c: nat, k: nat, n: nat) {
    && n <= 8 && k == Shr(i, n) + Pow2(8 - n) && Shr(i, n) < Pow2(8 - n)
    && Xor(c, Shr(i, n)) == Steps(i, n)
  }

  lemma MessageStart(i: nat)
    requires i < 256
    ensures Shifted(i, 0, i + 256, 0)
  {
    hide Xor;
    NoBits(i);
    XorZero(i);
    assert Pow2(8) == 256;
  }

  /** One message bit: exclusive or into the register before the step or after it. */
  lemma MessageStep(i: nat, c: nat, k: nat, n: nat)
    requires Shifted(i, c, k, n) && n < 8
    ensures Shifted(i, Xor(Step(c), Feedback(k)), k / 2, n + 1)
  {
    hide Xor, Feedback, Shr;
    var s := Shr(i, n);
    ShrShr(i, n, 1);
    ShrOne(s);
    assert Pow2(8 - n) == 2 * Pow2(8 - (n + 1));
    StepLinear(c, s);
    SameFeedback(k, s);
    XorAssociates(Step(c), Feedback(k), s / 2);
    XorCommutes(s / 2, Feedback(s));
  }

  lemma ShrOne(s: nat)
    ensures Shr(s, 1) == s / 2
  {
    assert Shr(s, 1) == Shr(s / 2, 0);
  }

  lemma SameFeedback(k: nat, s: nat)
    requires k % 2 == s % 2
    ensures Feedback(k) == Feedback(s)
  {
  }

  lemma MessageEnd(i: nat, c: nat, k: nat, n: nat)
    requires Shifted(i, c, k, n)
    ensures k == 1 <==> n == 8
    ensures n == 8 ==> c == Steps(i, 8)
  {
    hide Xor, Steps;
    if n == 8 {
      XorZero(c);
    } else {
      assert Pow2(8 - n) == 2 * Pow2(8 - (n + 1));
    }
  }

  lemma {:induction false} ZeroSteps(n: nat)
    ensures Steps(0, n) == 0
  {
    if n != 0 {
      ZeroSteps(n - 1);
      XorZero(0);
    }
  }

  /** The message bits of `i`, lowest first, enter one at a time at the end where the register leaves. */
  method MakeCrc() returns (tab: seq<nat>)
    ensures IsTable(tab)
  {
    hide Steps, Xor, Pow2, Shr, Shifted;
    var e := MakePattern();
    tab := [0];
    ZeroSteps(8);
    var i := 1;
    while i < 256
      invariant 1 <= i <= 256 && |tab| == i
      invariant forall j :: 0 <= j < i ==> tab[j] == Steps(j, 8)
    {
      var c, k := 0, i + 256;
      ghost var n: nat := 0;
      MessageStart(i);
      MessageEnd(i, c, k, n);
      while k != 1
        invariant 0 <= k && 0 <= c && n <= 8 && Shifted(i, c, k, n) && (k == 1 <==> n == 8)
        decreases 8 - n
      {
        MessageStep(i, c, k, n);
        XorZero(c / 2);
        XorZero(Step(c));
        c := if c % 2 == 1 then Xor(c / 2, e) else c / 2;
        if k % 2 == 1 {
          c := Xor(c, e);
        }
        k := k / 2;
        n := n + 1;
        MessageEnd(i, c, k, n);
      }
      MessageEnd(i, c, k, n);
      tab := tab + [c];
      i := i + 1;
    }
  }

  lemma LowByte(x: nat)
    ensures Low(x, 8) < 256
  {
    hide Low;
    LowBound(x, 8);
    assert Pow2(8) == 256;
  }

  /** kunzip.c:120: one byte through the table. */
  function Update(tab: seq<nat>, c: nat, ch: byte): nat
    requires |tab| == 256
  {
    LowByte(Xor(c, ch));
    Xor(tab[Low(Xor(c, ch), 8)], Shr(c, 8))
  }

  /** It is eight steps of the register. */
  lemma UpdateIsCrc(tab: seq<nat>, c: nat, ch: byte)
    requires IsTable(tab)
    ensures Update(tab, c, ch) == CrcByte(c, ch)
  {
    hide Xor, Shr, Low, Steps, Pow2;
    EightBits(ch);
    LowByte(Xor(c, ch));
    TableStep(Xor(c, ch));
    XorShr(c, ch, 8);
    SmallLow(ch, 8);
    XorZero(Shr(c, 8));
  }

  // ----- the result is a 32-bit word

  lemma {:induction false} XorBound(x: nat, y: nat, n: nat)
    requires x < Pow2(n) && y < Pow2(n)
    ensures Xor(x, y) < Pow2(n)
  {
    if n != 0 {
      XorBound(x / 2, y / 2, n - 1);
    }
  }

  lemma {:induction false} StepsBound(c: nat, n: nat)
    requires c < Pow2(32)
    ensures Steps(c, n) < Pow2(32)
  {
    hide Xor, Pow2;
    LargePowers();
    if n != 0 {
      StepsBound(c, n - 1);
      XorBound(Steps(c, n - 1) / 2, Feedback(Steps(c, n - 1)), 32);
    }
  }

  lemma {:induction false} CrcOfBound(data: seq<byte>)
    ensures CrcOf(ONES, data) < Pow2(32)
  {
    hide Xor, Pow2, Steps;
    LargePowers();
    if |data| != 0 {
      var last := |data| - 1;
      CrcOfBound(data[..last]);
      XorBound(CrcOf(ONES, data[..last]), data[last], 32);
      StepsBound(Xor(CrcOf(ONES, data[..last]), data[last]), 8);
    }
  }

  lemma Crc32Bound(data: seq<byte>)
    ensures Crc32(data) < 0x1_0000_0000
  {
    hide Xor, Pow2, CrcOf;
    LargePowers();
    CrcOfBound(data);
    XorBound(CrcOf(ONES, data), ONES, 32);
  }

  // ----- the CRC of a string as one division

  lemma {:induction false} StepsMore(c: nat, a: nat, b: nat)
    ensures Steps(Steps(c, a), b) == Steps(c, a + b)
  {
    hide Step;
    if b != 0 {
      StepsMore(c, a, b - 1);
    }
  }

  /** Eight steps take in the lowest byte of what is to come. */
  lemma FeedByte(c: nat, b: byte, w: nat)
    ensures Steps(Xor(c, b + Shl(w, 8)), 8) == Xor(CrcByte(c, b), w)
  {
    hide Xor, Steps, Shl, Shr, Low, Pow2;
    EightBits(b);
    LowShrUnique(b, w, 8);
    XorParts(b + Shl(w, 8), 8);
    XorAssociates(c, b, Shl(w, 8));
    StepsLinear(Xor(c, b), Shl(w, 8), 8);
    HighPart(w, 8, 8);
    NoBits(w);
  }

  /** Byte by byte, or the whole string as one number and a step of the register for each of its bits. */
  lemma {:induction false} CrcIsSteps(c: nat, data: seq<byte>)
    ensures CrcOf(c, data) == Steps(Xor(c, Stream(data)), 8 * |data|)
    decreases |data|
  {
    hide Xor, Steps, Shl, CrcByte;
    if |data| == 0 {
      XorZero(c);
      NoSteps(c);
    } else {
      var b, rest := data[0], data[1..];
      assert data == [b] + rest;
      CrcSplit(c, [b], rest);
      OneByteIn(c, b);
      CrcIsSteps(CrcByte(c, b), rest);
      FeedByte(c, b, Stream(rest));
      StepsMore(Xor(c, Stream(data)), 8, 8 * |rest|);
    }
  }

  lemma NoSteps(c: nat)
    ensures Steps(c, 0) == c
  {
  }

  lemma OneByteIn(c: nat, b: byte)
    ensures CrcOf(c, [b]) == CrcByte(c, b)
  {
    hide CrcByte;
    assert CrcOf(c, []) == c;
    assert [b][..0] == [];
  }

  /** The CRC of nothing is 0, and a string with its CRC behind it, lowest byte first, has always the same CRC. */
  lemma Residue(data: seq<byte>)
    ensures Crc32([]) == 0
    ensures Crc32(data + LongBytes(Crc32(data))) == 0x2144_df1c
  {
    hide Xor, Steps, CrcOf, LongBytes, Stream;
    var c, w := CrcOf(ONES, data), Crc32(data);
    Nothing();
    Crc32Bound(data);
    CrcSplit(ONES, data, LongBytes(w));
    CrcIsSteps(c, LongBytes(w));
    StreamOfLong(w);
    XorAssociates(c, c, ONES);
    XorSelf(c);
    XorZero(ONES);
    OnesAround();
  }

  lemma Nothing()
    ensures Crc32([]) == 0
  {
    hide Xor;
    XorSelf(ONES);
  }

  // ----- computing with digits

  /** Eight digits, lowest first. */
  datatype Octet = Octet(b0: bool, b1: bool, b2: bool, b3: bool, b4: bool, b5: bool, b6: bool, b7: bool)

  /** The register by its digits. */
  datatype Digits = Digits(o0: Octet, o1: Octet, o2: Octet, o3: Octet)

  function Push(b: bool, rest: nat): nat {
    (if b then 1 else 0) + 2 * rest
  }

  /** The number with these lowest digits. */
  function Over(o: Octet, rest: nat): nat {
    Low4(o.b0, o.b1, o.b2, o.b3, Low4(o.b4, o.b5, o.b6, o.b7, rest))
  }

  function Low4(b0: bool, b1: bool, b2: bool, b3: bool, rest: nat): nat {
    Push(b0, Push(b1, Push(b2, Push(b3, rest))))
  }

  function Value(d: Digits): nat {
    Over(d.o0, Over(d.o1, Over(d.o2, Over(d.o3, 0))))
  }

  predicate Differ(p: bool, q: bool) {
    p != q
  }

  function PlusOctet(x: Octet, y: Octet): Octet {
    Octet(Differ(x.b0, y.b0), Differ(x.b1, y.b1), Differ(x.b2, y.b2), Differ(x.b3, y.b3),
          Differ(x.b4, y.b4), Differ(x.b5, y.b5), Differ(x.b6, y.b6), Differ(x.b7, y.b7))
  }

  function Plus(x: Digits, y: Digits): Digits {
    Digits(PlusOctet(x.o0, y.o0), PlusOctet(x.o1, y.o1), PlusOctet(x.o2, y.o2), PlusOctet(x.o3, y.o3))
  }

  function HalvedOctet(o: Octet, top: bool): Octet {
    Octet(o.b1, o.b2, o.b3, o.b4, o.b5, o.b6, o.b7, top)
  }

  function Halved(d: Digits): Digits {
    Digits(HalvedOctet(d.o0, d.o1.b0), HalvedOctet(d.o1, d.o2.b0), HalvedOctet(d.o2, d.o3.b0), HalvedOctet(d.o3, false))
  }

  function Generator(): Digits {
    Digits(Octet(false, false, false, false, false, true, false, false),
           Octet(true, true, false, false, false, false, false, true),
           Octet(false, false, false, true, true, true, false, true),
           Octet(true, false, true, true, false, true, true, true))
  }

  function AllOnes(): Digits {
    var o := Octet(true, true, true, true, true, true, true, true);
    Digits(o, o, o, o)
  }

  /** One step of the register. */
  function Next(d: Digits): Digits {
    if d.o0.b0 then Plus(Halved(d), Generator()) else Halved(d)
  }

  function Run(d: Digits, n: nat): Digits {
    if n == 0 then d else Next(Run(d, n - 1))
  }

  lemma XorPush(p: bool, q: bool, a: nat, b: nat)
    ensures Xor(Push(p, a), Push(q, b)) == Push(Differ(p, q), Xor(a, b))
  {
    hide Xor;
    var x, y := Push(p, a), Push(q, b);
    assert x % 2 == (if p then 1 else 0) && y % 2 == (if q then 1 else 0) && x / 2 == a && y / 2 == b;
    XorDigit(x, y);
  }

  lemma XorFour(x0: bool, x1: bool, x2: bool, x3: bool, y0: bool, y1: bool, y2: bool, y3: bool, a: nat, b: nat)
    ensures Xor(Low4(x0, x1, x2, x3, a), Low4(y0, y1, y2, y3, b))
         == Low4(Differ(x0, y0), Differ(x1, y1), Differ(x2, y2), Differ(x3, y3), Xor(a, b))
  {
    hide Xor, Push, Differ;
    XorPush(x3, y3, a, b);
    XorPush(x2, y2, Push(x3, a), Push(y3, b));
    XorPush(x1, y1, Push(x2, Push(x3, a)), Push(y2, Push(y3, b)));
    XorPush(x0, y0, Push(x1, Push(x2, Push(x3, a))), Push(y1, Push(y2, Push(y3, b))));
  }

  lemma XorOver(x: Octet, y: Octet, a: nat, b: nat)
    ensures Xor(Over(x, a), Over(y, b)) == Over(PlusOctet(x, y), Xor(a, b))
  {
    hide *;
    var (hx, hy) := (Low4(x.b4, x.b5, x.b6, x.b7, a), Low4(y.b4, y.b5, y.b6, y.b7, b));
    XorFour(x.b4, x.b5, x.b6, x.b7, y.b4, y.b5, y.b6, y.b7, a, b);
    XorFour(x.b0, x.b1, x.b2, x.b3, y.b0, y.b1, y.b2, y.b3, hx, hy);
    OverIs(x, a);
    OverIs(y, b);
    OverPlus(x, y, Xor(a, b));
  }

  lemma OverIs(o: Octet, rest: nat)
    ensures Over(o, rest) == Low4(o.b0, o.b1, o.b2, o.b3, Low4(o.b4, o.b5, o.b6, o.b7, rest))
  {
    hide Low4;
  }

  lemma OverPlus(x: Octet, y: Octet, rest: nat)
    ensures Over(PlusOctet(x, y), rest)
         == Low4(Differ(x.b0, y.b0), Differ(x.b1, y.b1), Differ(x.b2, y.b2), Differ(x.b3, y.b3),
                 Low4(Differ(x.b4, y.b4), Differ(x.b5, y.b5), Differ(x.b6, y.b6), Differ(x.b7, y.b7), rest))
  {
    hide Low4, Differ;
  }

  lemma PlusIs(x: Digits, y: Digits)
    ensures Value(Plus(x, y)) == Xor(Value(x), Value(y))
  {
    hide Xor, Over, PlusOctet;
    XorOver(x.o3, y.o3, 0, 0);
    XorOver(x.o2, y.o2, Over(x.o3, 0), Over(y.o3, 0));
    XorOver(x.o1, y.o1, Over(x.o2, Over(x.o3, 0)), Over(y.o2, Over(y.o3, 0)));
    XorOver(x.o0, y.o0, Over(x.o1, Over(x.o2, Over(x.o3, 0))), Over(y.o1, Over(y.o2, Over(y.o3, 0))));
    XorZero(0);
  }

  /** Halving moves each digit down, and the lowest of what is above comes in at the top. */
  lemma HalvedOver(o: Octet, top: bool, rest: nat)
    ensures Over(o, Push(top, rest)) == Push(o.b0, Over(HalvedOctet(o, top), rest))
  {
    hide Push;
  }

  lemma HalvedIs(d: Digits)
    ensures Value(d) == Push(d.o0.b0, Value(Halved(d)))
  {
    hide Over, HalvedOctet;
    assert Push(false, 0) == 0;
    HalvedOver(d.o3, false, 0);
    var r3 := Over(HalvedOctet(d.o3, false), 0);
    HalvedOver(d.o2, d.o3.b0, r3);
    var r2 := Over(HalvedOctet(d.o2, d.o3.b0), r3);
    HalvedOver(d.o1, d.o2.b0, r2);
    HalvedOver(d.o0, d.o1.b0, Over(HalvedOctet(d.o1, d.o2.b0), r2));
  }

  lemma NextIs(d: Digits)
    ensures Value(Next(d)) == Step(Value(d))
  {
    hide Xor, Plus, Halved, Value, Generator;
    HalvedIs(d);
    GeneratorIs();
    PlusIs(Halved(d), Generator());
    XorZero(Value(d) / 2);
  }

  lemma GeneratorIs()
    ensures Value(Generator()) == POLY
  {
  }

  lemma {:induction false} RunIs(d: Digits, n: nat)
    ensures Value(Run(d, n)) == Steps(Value(d), n)
  {
    hide Value, Next, Step;
    if n != 0 {
      RunIs(d, n - 1);
      NextIs(Run(d, n - 1));
    }
  }

  lemma OnesAround()
    ensures Xor(Steps(ONES, 32), ONES) == 0x2144_df1c
  {
    hide Steps, Xor, Run, Plus, Value;
    RunIs(AllOnes(), 32);
    PlusIs(Run(AllOnes(), 32), AllOnes());
    OnesIs();
    Divided();
  }

  lemma OnesIs()
    ensures Value(AllOnes()) == ONES
  {
  }

  /** What the register of all ones is after eight, 16, 24 and 32 steps. */
  function After8(): Digits {
    Digits(Octet(false, true, false, false, true, true, true, false),
           Octet(false, false, false, false, true, false, false, false),
           Octet(true, false, true, true, true, true, true, true),
           Octet(true, false, true, true, false, true, false, false))
  }

  function After16(): Digits {
    Digits(Octet(false, false, false, false, false, false, false, false),
           Octet(true, false, true, true, false, true, true, true),
           Octet(false, true, true, false, false, true, false, false),
           Octet(false, true, true, true, true, true, false, true))
  }

  function After24(): Digits {
    Digits(Octet(true, false, true, true, false, true, true, true),
           Octet(false, true, true, false, false, true, false, false),
           Octet(false, true, true, true, true, true, false, true),
           Octet(false, false, false, false, false, false, false, false))
  }

  function After32(): Digits {
    Digits(Octet(true, true, false, false, false, true, true, true),
           Octet(false, false, false, false, false, true, false, false),
           Octet(true, true, false, true, true, true, false, true),
           Octet(false, true, true, true, true, false, true, true))
  }

  /** Thirty-two steps, eight at a time. */
  lemma Divided()
    ensures Value(Plus(Run(AllOnes(), 32), AllOnes())) == 0x2144_df1c
  {
    hide Next, Plus, Value, AllOnes, Eight, After8, After16, After24, After32;
    First8();
    RunEight(AllOnes(), 0);
    Second8();
    RunEight(AllOnes(), 8);
    Third8();
    RunEight(AllOnes(), 16);
    Fourth8();
    RunEight(AllOnes(), 24);
    Complement();
  }

  function Eight(d: Digits): Digits {
    Next(Next(Next(Next(Next(Next(Next(Next(d))))))))
  }

  lemma RunEight(d: Digits, n: nat)
    ensures Run(d, n + 8) == Eight(Run(d, n)) && Run(d, 0) == d
  {
    hide Next;
    assert Run(d, n + 2) == Next(Run(d, n + 1)) == Next(Next(Run(d, n)));
    assert Run(d, n + 4) == Next(Run(d, n + 3)) == Next(Next(Run(d, n + 2)));
    assert Run(d, n + 6) == Next(Run(d, n + 5)) == Next(Next(Run(d, n + 4)));
    assert Run(d, n + 8) == Next(Run(d, n + 7)) == Next(Next(Run(d, n + 6)));
  }

  lemma First8()
    ensures Eight(AllOnes()) == After8()
  {
  }

  lemma Second8()
    ensures Eight(After8()) == After16()
  {
  }

  lemma Third8()
    ensures Eight(After16()) == After24()
  {
  }

  lemma Fourth8()
    ensures Eight(After24()) == After32()
  {
  }

  lemma Complement()
    ensures Value(Plus(After32(), AllOnes())) == 0x2144_df1c
  {
  }

  /** The letter A, against all ones, and after its eight steps. */
  function Letter(): Digits {
    Digits(Octet(true, false, false, false, false, false, true, false),
           Octet(false, false, false, false, false, false, false, false),
           Octet(false, false, false, false, false, false, false, false),
           Octet(false, false, false, false, false, false, false, false))
  }

  function LetterFirst(): Digits {
    Digits(Octet(false, true, true, true, true, true, false, true),
           Octet(true, true, true, true, true, true, true, true),
           Octet(true, true, true, true, true, true, true, true),
           Octet(true, true, true, true, true, true, true, true))
  }

  function LetterLast(): Digits {
    Digits(Octet(false, false, true, false, true, true, true, false),
           Octet(true, false, false, false, false, true, true, false),
           Octet(false, true, true, false, false, true, false, false),
           Octet(false, false, true, true, false, true, false, false))
  }

  /** The CRC of the letter A. */
  lemma CrcOfA()
    ensures Crc32([0x41]) == 0xd3d9_9e8b
  {
    hide Xor, Steps, Run, Plus, Value, Eight, CrcOf, AllOnes, Letter, LetterFirst, LetterLast;
    OneByteIn(ONES, 0x41);
    OnesIs();
    PlusIs(AllOnes(), Letter());
    LetterA();
    RunIs(LetterFirst(), 8);
    RunEight(LetterFirst(), 0);
    LetterSteps();
    PlusIs(LetterLast(), AllOnes());
    LetterEnd();
  }

  lemma LetterA()
    ensures Value(Letter()) == 0x41 && Plus(AllOnes(), Letter()) == LetterFirst()
  {
  }

  lemma LetterSteps()
    ensures Eight(LetterFirst()) == LetterLast()
  {
  }

  lemma LetterEnd()
    ensures Value(Plus(LetterLast(), AllOnes())) == 0xd3d9_9e8b
  {
  }
}
