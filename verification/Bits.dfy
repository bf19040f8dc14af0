/**
 The shifts and masks of C on non-negative numbers, each defined one binary digit at a time so that every
 fact about them is linear: `x << n`, `x >> n`, `x & ((1 << n) - 1)`, and bit reversal.
 */
module Bits {

  /** 1 << n */
  function Pow2(n: nat): (p: nat)
    ensures p >= 1
  {
    if n == 0 then 1 else 2 * Pow2(n - 1)
  }

  /** x << n */
  function Shl(x: nat, n: nat): nat {
    if n == 0 then x else 2 * Shl(x, n - 1)
  }

  /** x >> n */
  function Shr(x: nat, n: nat): nat {
    if n == 0 then x else Shr(x / 2, n - 1)
  }

  /** x & ((1 << n) - 1) */
  function Low(x: nat, n: nat): nat {
    if n == 0 then 0 else x % 2 + 2 * Low(x / 2, n - 1)
  }

  /** The bit of `x` with weight 1 << i. */
  function Bit(x: nat, i: nat): nat {
    Shr(x, i) % 2
  }

  /** The first `k` bits of `x`, lowest first, read as a number whose first bit is the most significant. */
  function Rev(k: nat, x: nat): nat {
    if k == 0 then 0 else (if x % 2 == 1 then Pow2(k - 1) else 0) + Rev(k - 1, x / 2)
  }

  lemma NoBits(x: nat)
    ensures Pow2(0) == 1 && Shl(x, 0) == x && Shr(x, 0) == x && Low(x, 0) == 0 && Rev(0, x) == 0
  {
  }

  lemma SmallPowers()
    ensures Pow2(1) == 2 && Pow2(2) == 4 && Pow2(3) == 8 && Pow2(4) == 16 && Pow2(5) == 32 && Pow2(6) == 64
    ensures Pow2(8) == 256 && Pow2(9) == 512 && Pow2(10) == 1024 && Pow2(11) == 2048
  {
  }

  lemma TenMore(n: nat)
    ensures Pow2(n + 10) == 1024 * Pow2(n)
  {
    assert Pow2(n + 3) == 2 * Pow2(n + 2) == 4 * Pow2(n + 1) == 8 * Pow2(n);
    assert Pow2(n + 6) == 2 * Pow2(n + 5) == 4 * Pow2(n + 4) == 8 * Pow2(n + 3);
    assert Pow2(n + 9) == 2 * Pow2(n + 8) == 4 * Pow2(n + 7) == 8 * Pow2(n + 6);
  }

  lemma LargePowers()
    ensures Pow2(16) == 0x1_0000 && Pow2(21) == 0x20_0000 && Pow2(32) == 0x1_0000_0000
    ensures Pow2(48) == 0x1_0000_0000_0000 && Pow2(52) == 0x10_0000_0000_0000
  {
    hide Pow2;
    SmallPowers();
    TenMore(6);
    TenMore(11);
    TenMore(2);
    TenMore(12);
    TenMore(22);
    TenMore(32);
    TenMore(42);
    TenMore(8);
    TenMore(18);
    TenMore(28);
    TenMore(38);
  }

  // ----- left shift

  lemma {:induction false} ShlAdd(x: nat, y: nat, n: nat)
    ensures Shl(x + y, n) == Shl(x, n) + Shl(y, n)
  {
    if n != 0 {
      ShlAdd(x, y, n - 1);
    }
  }

  lemma ShlSub(x: nat, y: nat, n: nat)
    requires y <= x
    ensures Shl(x - y, n) == Shl(x, n) - Shl(y, n)
  {
    ShlAdd(x - y, y, n);
  }

  lemma {:induction false} ShlShl(x: nat, a: nat, b: nat)
    ensures Shl(Shl(x, a), b) == Shl(x, a + b)
  {
    if b != 0 {
      ShlShl(x, a, b - 1);
    }
  }

  lemma {:induction false} ShlOne(n: nat)
    ensures Shl(1, n) == Pow2(n) && Shl(0, n) == 0
  {
    if n != 0 {
      ShlOne(n - 1);
    }
  }

  lemma ShlPow2(a: nat, b: nat)
    ensures Shl(Pow2(a), b) == Pow2(a + b)
  {
    ShlOne(a);
    ShlShl(1, a, b);
    ShlOne(a + b);
  }

  lemma {:induction false} ShlMono(x: nat, y: nat, n: nat)
    ensures x <= y <==> Shl(x, n) <= Shl(y, n)
    ensures x < y <==> Shl(x, n) < Shl(y, n)
  {
    if n != 0 {
      ShlMono(x, y, n - 1);
    }
  }

  lemma Doubled(x: nat, z: nat)
    ensures Shl(2 * x, z) == Shl(x, z + 1)
  {
    ShlShl(x, 1, z);
    assert Shl(x, 1) == 2 * Shl(x, 0);
  }

  lemma Pow2Mono(a: nat, b: nat)
    requires a <= b
    ensures Pow2(a) <= Pow2(b)
  {
    ShlPow2(0, a);
    ShlPow2(b - a, a);
    ShlMono(1, Pow2(b - a), a);
  }

  lemma {:induction false} ShlGrows(x: nat, n: nat)
    ensures x <= Shl(x, n)
  {
    if n != 0 {
      ShlGrows(x, n - 1);
    }
  }

  // ----- right shift and mask

  lemma {:induction false} ShrShr(x: nat, a: nat, b: nat)
    ensures Shr(Shr(x, a), b) == Shr(x, a + b)
  {
    if a != 0 {
      ShrShr(x / 2, a - 1, b);
    }
  }

  lemma {:induction false} LowBound(x: nat, n: nat)
    ensures Low(x, n) < Pow2(n)
  {
    if n != 0 {
      LowBound(x / 2, n - 1);
    }
  }

  /** A number is its low `n` bits and the rest. */
  lemma {:induction false} LowShr(x: nat, n: nat)
    ensures x == Low(x, n) + Shl(Shr(x, n), n)
  {
    if n != 0 {
      LowShr(x / 2, n - 1);
    }
  }

  /** ... in one way only. */
  lemma {:induction false} LowShrUnique(r: nat, q: nat, n: nat)
    requires r < Pow2(n)
    ensures Low(r + Shl(q, n), n) == r && Shr(r + Shl(q, n), n) == q
  {
    if n != 0 {
      LowShrUnique(r / 2, q, n - 1);
      assert (r + Shl(q, n)) / 2 == r / 2 + Shl(q, n - 1);
    }
  }

  lemma SmallLow(x: nat, n: nat)
    requires x < Pow2(n)
    ensures Low(x, n) == x && Shr(x, n) == 0
  {
    ShlOne(n);
    LowShrUnique(x, 0, n);
  }

  lemma {:induction false} ShrZero(n: nat)
    ensures Shr(0, n) == 0 && Low(0, n) == 0
  {
    if n != 0 {
      ShrZero(n - 1);
    }
  }

  /** The low a + b bits are the low a and then the next b. */
  lemma {:induction false} LowSplit(x: nat, a: nat, b: nat)
    ensures Low(x, a + b) == Low(x, a) + Shl(Low(Shr(x, a), b), a)
  {
    if a != 0 {
      LowSplit(x / 2, a - 1, b);
    }
  }

  lemma LowOfLow(x: nat, a: nat, b: nat)
    ensures Low(Low(x, a + b), a) == Low(x, a)
    ensures Shr(Low(x, a + b), a) == Low(Shr(x, a), b)
  {
    LowSplit(x, a, b);
    LowBound(x, a);
    LowShrUnique(Low(x, a), Low(Shr(x, a), b), a);
  }

  lemma LowNest(x: nat, a: nat, b: nat)
    requires a <= b
    ensures Low(Low(x, b), a) == Low(x, a)
  {
    hide Low, Shr;
    LowOfLow(x, a, b - a);
  }

  lemma ShrBound(x: nat, a: nat, b: nat)
    requires x < Pow2(a + b)
    ensures Shr(x, a) < Pow2(b)
  {
    SmallLow(x, a + b);
    LowOfLow(x, a, b);
    LowBound(Shr(x, a), b);
  }

  // ----- bit reversal

  lemma {:induction false} RevBound(k: nat, x: nat)
    ensures Rev(k, x) < Pow2(k)
  {
    if k != 0 {
      RevBound(k - 1, x / 2);
    }
  }

  lemma {:induction false} RevSplit(a: nat, b: nat, x: nat)
    ensures Rev(a + b, x) == Shl(Rev(a, x), b) + Rev(b, Shr(x, a))
  {
    if a == 0 {
      ShlOne(b);
    } else {
      RevSplit(a - 1, b, x / 2);
      var lead := if x % 2 == 1 then Pow2(a - 1) else 0;
      ShlAdd(lead, Rev(a - 1, x / 2), b);
      ShlPow2(a - 1, b);
      ShlOne(b);
    }
  }

  /** Dropping the last `b` bits of a code: the longer code lies in the interval the shorter one stands for. */
  lemma RevPrefix(a: nat, b: nat, x: nat)
    ensures Shl(Rev(a, x), b) <= Rev(a + b, x) < Shl(Rev(a, x) + 1, b)
  {
    RevSplit(a, b, x);
    RevBound(b, Shr(x, a));
    ShlAdd(Rev(a, x), 1, b);
    ShlOne(b);
  }

  /** Bit by bit, the other way round. */
  lemma {:induction false} RevBit(k: nat, x: nat, i: nat)
    requires i < k
    ensures Bit(Rev(k, x), i) == Bit(x, k - 1 - i)
  {
    hide Bit, Shl;
    var z := Rev(k - 1, x / 2);
    RevBound(k - 1, x / 2);
    RevTop(k, x);
    if i == k - 1 {
      HighBitThere(z, x % 2, k - 1);
      FirstBit(x);
    } else {
      RevBit(k - 1, x / 2, i);
      HighBitApart(z, x % 2, k - 1, i);
      NextBit(x, k - 1 - i);
    }
  }

  lemma RevTop(k: nat, x: nat)
    requires k > 0
    ensures Rev(k, x) == Rev(k - 1, x / 2) + Shl(x % 2, k - 1)
  {
    ShlOne(k - 1);
  }

  lemma FirstBit(x: nat)
    ensures Bit(x, 0) == x % 2
  {
  }

  lemma NextBit(x: nat, i: nat)
    requires i > 0
    ensures Bit(x, i) == Bit(x / 2, i - 1)
  {
  }

  lemma HighBitThere(z: nat, b: nat, n: nat)
    requires z < Pow2(n) && b < 2
    ensures Bit(z + Shl(b, n), n) == b
  {
    LowShrUnique(z, b, n);
  }

  /** A digit above leaves those below as they are. */
  lemma {:induction false} HighBitApart(z: nat, b: nat, n: nat, i: nat)
    requires i < n
    ensures Bit(z + Shl(b, n), i) == Bit(z, i)
  {
    assert Shl(b, n) == 2 * Shl(b, n - 1);
    if i != 0 {
      assert (z + Shl(b, n)) / 2 == z / 2 + Shl(b, n - 1);
      HighBitApart(z / 2, b, n - 1, i - 1);
    }
  }

  /** Reversal sees exactly the low `k` bits. */
  lemma {:induction false} RevSame(k: nat, x: nat, y: nat)
    ensures Rev(k, x) == Rev(k, y) <==> Low(x, k) == Low(y, k)
  {
    if k != 0 {
      RevSame(k - 1, x / 2, y / 2);
      RevBound(k - 1, x / 2);
      RevBound(k - 1, y / 2);
    }
  }

  lemma {:induction false} RevZero(k: nat)
    ensures Rev(k, 0) == 0
  {
    if k != 0 {
      RevZero(k - 1);
    }
  }

  /** A code followed by zeros. */
  lemma RevShort(a: nat, b: nat, x: nat)
    requires x < Pow2(a)
    ensures Rev(a + b, x) == Shl(Rev(a, x), b)
  {
    RevSplit(a, b, x);
    SmallLow(x, a);
    RevZero(b);
  }

  /** Setting the clear bit `q` of a `k`-bit code raises the code's value by the mirrored weight. */
  lemma {:induction false} RevSetBit(k: nat, q: nat, i: nat)
    requires q < k && Bit(i, q) == 0
    ensures Rev(k, i + Pow2(q)) == Rev(k, i) + Pow2(k - 1 - q)
    ensures Bit(i + Pow2(q), q) == 1
  {
    if q != 0 {
      RevSetBit(k - 1, q - 1, i / 2);
      assert (i + Pow2(q)) / 2 == i / 2 + Pow2(q - 1);
    }
  }

  lemma {:induction false} ClearBit(i: nat, q: nat)
    requires Bit(i, q) == 1
    ensures i >= Pow2(q) && Bit(i - Pow2(q), q) == 0
  {
    if q != 0 {
      ClearBit(i / 2, q - 1);
      assert (i - Pow2(q)) / 2 == i / 2 - Pow2(q - 1);
    }
  }

  lemma {:induction false} SetBitBound(i: nat, q: nat, k: nat)
    requires q < k && i < Pow2(k) && Bit(i, q) == 0
    ensures i + Pow2(q) < Pow2(k)
  {
    assert Pow2(k) == 2 * Pow2(k - 1);
    if q != 0 {
      assert Bit(i / 2, q - 1) == Bit(i, q);
      SetBitBound(i / 2, q - 1, k - 1);
      assert Pow2(q) == 2 * Pow2(q - 1);
    }
  }

  // ----- multiples

  predicate MultipleOf(x: nat, a: nat) {
    x == 0 || (0 < a <= x && MultipleOf(x - a, a))
  }

  /** Multiples lie `a` apart. */
  lemma {:induction false} MultipleGap(x: nat, y: nat, a: nat)
    requires MultipleOf(x, a) && MultipleOf(y, a) && x < y + a
    ensures x <= y
    decreases x
  {
    if x != 0 && y != 0 {
      MultipleGap(x - a, y - a, a);
    }
  }
}
