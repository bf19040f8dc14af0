/**
 When the condition of huft_build holds: always if two levels of tables are enough, or if the set has too few codes
 to fill a table of full size. Both are properties a caller can read off the lengths. A set of four lengths shows
 that it can fail.
 */
module HuftFits {
  import opened Bits
  import opened Huffman
  import opened HuftTables
  import opened HuftSetup
  import opened HuftBuild

  /** Where a table opens, the codes that follow reach at least to the end of the table. */
  lemma TableReaches(c: seq<nat>, g: nat, l: nat, w: nat, k: nat, r: nat)
    requires |c| == BMAX + 1 && Opens(c, l, w, k, r) && k <= g <= BMAX && End(c, g) == Pow2(SCALE)
    ensures Pos(c, k, r) + Pow2(SCALE - w) <= End(c, g)
  {
    hide Shl, Rev, Low, Shr, Pow2;
    var p, z := Pos(c, k, r), SCALE - w;
    BeforeEnd(c, k, r);
    UsedMono(c, k, g);
    LowShr(p, z);
    ShlPow2(w, z);
    ShlMono(Pow2(w), Shr(p, z), z);
    ShlMono(Shr(p, z) + 1, Pow2(w), z);
    ShlAdd(Shr(p, z), 1, z);
    ShlOne(z);
  }

  /** The codes from the `r`-th of length `k` on take up at most as much room each as that one does. */
  lemma {:induction false} RoomFor(c: seq<nat>, k: nat, r: nat, n: nat)
    requires |c| == BMAX + 1 && 0 < k <= n <= BMAX && r < c[k]
    ensures Start(c, n + 1) >= Start(c, k) + r
    ensures End(c, n) - Pos(c, k, r) <= Shl(Start(c, n + 1) - Start(c, k) - r, SCALE - k)
    decreases n
  {
    hide Shl, Rev, Low, Shr, Pow2;
    if n == k {
      ShlAdd(2 * Used(c, k - 1) + r, c[k] - r, SCALE - k);
    } else {
      RoomFor(c, k, r, n - 1);
      Doubled(Used(c, n - 1), SCALE - n);
      ShlAdd(2 * Used(c, n - 1), c[n], SCALE - n);
      ShlFiner(c[n], SCALE - n, SCALE - k);
      ShlAdd(Start(c, n) - Start(c, k) - r, c[n], SCALE - k);
    }
  }

  lemma ShlFiner(x: nat, a: nat, b: nat)
    requires a <= b
    ensures Shl(x, a) <= Shl(x, b)
  {
    hide Pow2;
    ShlGrows(x, b - a);
    ShlShl(x, b - a, a);
    ShlMono(x, Shl(x, b - a), a);
  }

  /** So a table that opens with a code of `k` bits has at least 2^(k-w) codes to come. */
  lemma CodesToCome(c: seq<nat>, g: nat, l: nat, w: nat, k: nat, r: nat)
    requires |c| == BMAX + 1 && Opens(c, l, w, k, r) && k <= g <= BMAX && End(c, g) == Pow2(SCALE)
    ensures Pow2(k - w) <= Start(c, g + 1) - Start(c, k) - r
  {
    hide Shl, Rev, Low, Shr, Pow2;
    TableReaches(c, g, l, w, k, r);
    RoomFor(c, k, r, g);
    ShlPow2(k - w, SCALE - k);
    ShlMono(Pow2(k - w), Start(c, g + 1) - Start(c, k) - r, SCALE - k);
  }

  lemma {:induction false} MultipleAtLeast(l: nat, w: nat)
    requires MultipleOf(w, l) && w > 0
    ensures l <= w && 0 < l
  {
  }

  /** Two levels are enough, or there are fewer codes than a full table has slots. */
  lemma FitsWhen(c: seq<nat>, g: nat, l: nat)
    requires |c| == BMAX + 1 && 0 < g <= BMAX && End(c, g) == Pow2(SCALE)
    requires forall k :: g < k <= BMAX ==> c[k] == 0
    requires g <= 2 * l || Start(c, g + 1) < Pow2(l)
    ensures Fits(c, l)
  {
    forall w: nat, k: nat, r: nat | Opens(c, l, w, k, r)
      ensures Within(k - w, l, c[k] - r)
    {
      MultipleAtLeast(l, w);
      CodesToCome(c, g, l, w, k, r);
      if k - w >= l {
        Pow2Mono(l, k - w);
        assert k == g == w + l;
      }
    }
  }

  /** The lengths and look-up bits for which FitsWhen can be used. */
  ghost predicate EasyLengths(lens: seq<nat>, m: nat)
    requires ValidLengths(lens)
  {
    MaxLen(lens) <= 2 * Clamp(m, MinLen(lens), MaxLen(lens)) ||
      (KraftSum(lens) == Pow2(BMAX) && |lens| < Pow2(Clamp(m, MinLen(lens), MaxLen(lens))))
  }

  lemma EasyFits(lens: seq<nat>, m: nat)
    requires ValidLengths(lens) && MaxLen(lens) > 0 && EasyLengths(lens, m)
    ensures FitsLengths(lens, m)
  {
    hide Shl, Rev, Low, Shr, Pow2, Fits;
    var c0, g := Counts(lens), MaxLen(lens);
    if Used(c0, g) <= Pow2(g) {
      LongestOf(lens);
      FilledCompletes(lens, c0, g, Pow2(g) - Used(c0, g));
      var c := FullCounts(lens);
      CompleteEnd(lens, c, g);
      if KraftSum(lens) == Pow2(BMAX) {
        KraftIsUsed(lens);
        ShareAtEnd(c0, g);
        assert c == c0;
        CountsTotal(lens);
        StartMono(c, g + 1, BMAX + 1);
      }
      FitsWhen(c, g, Clamp(m, MinLen(lens), g));
    }
  }

  /** Lengths 1, 2, 3, 3 make a complete set whose tables are wrong when one look-up bit is asked for. */
  lemma FitsCanFail()
    ensures ValidLengths([1, 2, 3, 3]) && KraftSum([1, 2, 3, 3]) == Pow2(BMAX)
    ensures !FitsLengths([1, 2, 3, 3], 1)
  {
    var lens := [1, 2, 3, 3];
    FourCounts();
    var c := FullCounts(lens);
    assert c[1] == 1 && c[2] == 1;
    assert Used(c, 1) == 1;
    Doubled(1, 30);
    NoBits(0);
    LowShrUnique(0, 1, 31);
    assert MultipleOf(1, 1);
    assert Opens(c, 1, 1, 2, 0);
    assert !Within(1, 1, 1);
  }

  lemma FourCounts()
    ensures var lens := [1, 2, 3, 3];
      && ValidLengths(lens) && KraftSum(lens) == Pow2(BMAX) && MaxLen(lens) == 3 && MinLen(lens) == 1
      && Counts(lens)[1] == 1 && Counts(lens)[2] == 1 && Used(Counts(lens), 3) == Pow2(3)
  {
    var lens := [1, 2, 3, 3];
    var c := Counts(lens);
    FourPrefixes(1);
    FourPrefixes(2);
    FourPrefixes(3);
    assert Used(c, 1) == 1 && Used(c, 2) == 3 && Used(c, 3) == 8 == Pow2(3);
    forall k | 3 < k <= BMAX
      ensures c[k] == 0
    {
      FourPrefixes(k);
    }
    ExtremeLengths(lens, 1, 3);
    ShareAtEnd(c, 3);
    KraftIsUsed(lens);
  }

  lemma FourPrefixes(k: nat)
    ensures Count([1, 2, 3, 3], k) == (if k == 1 then 1 else 0) + (if k == 2 then 1 else 0) + (if k == 3 then 2 else 0)
  {
    assert [1, 2, 3, 3][..3] == [1, 2, 3];
    assert [1, 2, 3][..2] == [1, 2];
    assert [1, 2][..1] == [1];
    assert Count([1], k) == if k == 1 then 1 else 0;
    assert Count([1, 2], k) == Count([1], k) + if k == 2 then 1 else 0;
    assert Count([1, 2, 3], k) == Count([1, 2], k) + if k == 3 then 1 else 0;
  }
}
