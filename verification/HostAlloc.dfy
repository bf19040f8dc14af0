/**
 The page allocator of alloc.c: allocated_in_map, is_free_contiguous_region and alloc_pages (lines 50-58, 241-275).

 allocated_in_map returns an int, so on the 64-bit build its answer is cut to the low half of the word, and the pages
 of the high half always look free. The model keeps that. What the allocator promises therefore holds under an exact
 condition on the request, and fails for the requests of one page that the page tables make.
 */
module HostAlloc {
  import opened Bits
  import opened Bitmap
  import opened Wrappers

  // ----- the test of one page

  /** Conversion of an unsigned long to int. */
  function ToInt(x: nat): int {
    var low := Low(x, 32);
    if low < 0x8000_0000 then low else low - 0x1_0000_0000
  }

  function AllocatedInMap(tbl: seq<nat>, pfn: nat): int
    requires Idx(pfn) < |tbl|
  {
    ToInt(And(tbl[Idx(pfn)], Pow2(Off(pfn))))
  }

  const HALF: nat := 32

  /** The page is taken, and the test can see it. */
  predicate Seen(tbl: seq<nat>, pfn: nat) {
    Idx(pfn) < |tbl| && Taken(tbl, pfn) && Off(pfn) < HALF
  }

  lemma {:induction false} AndZero(x: nat)
    ensures And(x, 0) == 0
  {
    if x != 0 {
      AndZero(x / 2);
    }
  }

  lemma {:induction false} AndPow2(x: nat, n: nat)
    ensures And(x, Pow2(n)) == if Bit(x, n) == 1 then Pow2(n) else 0
  {
    if n == 0 {
      AndZero(x / 2);
    } else {
      AndPow2(x / 2, n - 1);
    }
  }

  lemma LowOfPow2(n: nat)
    ensures Low(Pow2(n), 32) == if n < 32 then Pow2(n) else 0
  {
    hide Low, Shl, Shr, Pow2;
    if n < 32 {
      LessPower(n, 32);
      SmallLow(Pow2(n), 32);
    } else {
      LowBound(0, 32);
      ShlPow2(n - 32, 32);
      LowShrUnique(0, Pow2(n - 32), 32);
    }
  }

  lemma LessPower(n: nat, m: nat)
    requires n < m
    ensures Pow2(n) < Pow2(m)
  {
    Pow2Mono(n + 1, m);
  }

  /** What the test really finds. */
  lemma TestIs(tbl: seq<nat>, pfn: nat)
    requires Idx(pfn) < |tbl|
    ensures AllocatedInMap(tbl, pfn) != 0 <==> Seen(tbl, pfn)
    ensures AllocatedInMap(tbl, pfn) != 0 <==> Bit(tbl[pfn / 64], pfn % 64) == 1 && pfn % 64 < 32
  {
    hide Low, And, Pow2, Bit;
    AndPow2(tbl[Idx(pfn)], Off(pfn));
    LowOfPow2(Off(pfn));
    ShrZero(32);
    IntNonzero(And(tbl[Idx(pfn)], Pow2(Off(pfn))));
  }

  lemma IntNonzero(x: nat)
    ensures ToInt(x) != 0 <==> Low(x, 32) != 0
  {
    hide Low, Pow2;
    LowBound(x, 32);
    LargePowers();
  }

  // ----- the search

  ghost predicate LooksFree(tbl: seq<nat>, i: nat, n: nat) {
    forall p: nat :: i <= p < i + n ==> !Seen(tbl, p)
  }

  ghost predicate Free(tbl: seq<nat>, i: nat, n: nat) {
    forall p: nat :: i <= p < i + n && Idx(p) < |tbl| ==> !Taken(tbl, p)
  }

  ghost function FirstFit(tbl: seq<nat>, n: nat, align: nat, max: nat, i: nat): Option<nat>
    requires align > 0
    decreases max - i
  {
    if i + n >= max then None
    else if LooksFree(tbl, i, n) then Some(i)
    else FirstFit(tbl, n, align, max, i + align)
  }

  /** A start that alloc_pages may try. */
  predicate Start(s: nat, n: nat, align: nat, max: nat)
    requires align > 0
  {
    MultipleOf(s, align) && s + n < max
  }

  /** The lowest start that looks free; none if there is none. */
  ghost predicate LowestFit(tbl: seq<nat>, n: nat, align: nat, max: nat, r: Option<nat>)
    requires align > 0
  {
    match r
    case None => forall s: nat :: Start(s, n, align, max) ==> !LooksFree(tbl, s, n)
    case Some(i) =>
      && Start(i, n, align, max) && LooksFree(tbl, i, n)
      && forall s: nat :: s < i && Start(s, n, align, max) ==> !LooksFree(tbl, s, n)
  }

  lemma {:induction false} MultipleUp(i: nat, a: nat)
    requires a > 0
    ensures MultipleOf(i + a, a) <==> MultipleOf(i, a)
  {
  }

  lemma {:induction false} FirstFitLowest(tbl: seq<nat>, n: nat, align: nat, max: nat, i: nat)
    requires align > 0 && MultipleOf(i, align)
    requires forall s: nat :: s < i && Start(s, n, align, max) ==> !LooksFree(tbl, s, n)
    ensures LowestFit(tbl, n, align, max, FirstFit(tbl, n, align, max, i))
    decreases max - i
  {
    hide LooksFree, MultipleOf;
    if i + n < max && !LooksFree(tbl, i, n) {
      MultipleUp(i, align);
      forall s: nat | s < i + align && Start(s, n, align, max)
        ensures !LooksFree(tbl, s, n)
      {
        if s >= i {
          MultipleGap(s, i, align);
        }
      }
      FirstFitLowest(tbl, n, align, max, i + align);
    } else if i + n >= max {
      assert forall s: nat :: Start(s, n, align, max) ==> s < i;
    }
  }

  lemma FirstFitIs(tbl: seq<nat>, n: nat, align: nat, max: nat)
    requires align > 0
    ensures LowestFit(tbl, n, align, max, FirstFit(tbl, n, align, max, 0))
  {
    hide LooksFree, FirstFit;
    FirstFitLowest(tbl, n, align, max, 0);
  }

  /** In a bitmap with nothing taken the first fit is page 0, if there are more pages than asked for. */
  lemma EmptyFit(tbl: seq<nat>, n: nat, align: nat, max: nat)
    requires align > 0 && forall j: nat :: j < |tbl| ==> tbl[j] == 0
    ensures FirstFit(tbl, n, align, max, 0) == if n < max then Some(0) else None
  {
    hide Bit;
    forall p: nat
      ensures !Seen(tbl, p)
    {
      ZeroBit(Off(p));
    }
  }

  lemma ZeroBit(i: nat)
    ensures Bit(0, i) == 0
  {
    ShrZero(i);
  }

  class NaiveAllocator {
    const allocBitmap: array<nat>
    const maxPage: nat

    constructor (bitmap: array<nat>, pages: nat)
      ensures allocBitmap == bitmap && maxPage == pages
    {
      allocBitmap, maxPage := bitmap, pages;
    }

    /** There is a bit for every page below maxPage. */
    predicate Valid() {
      maxPage <= WORD * allocBitmap.Length
    }

    /** alloc.c:241-250 */
    method IsFreeContiguousRegion(pfn: nat, nr: nat) returns (r: int)
      requires Valid() && pfn + nr < maxPage
      ensures r == if LooksFree(allocBitmap[..], pfn, nr) then 1 else 0
    {
      var i := 0;
      while i < nr
        invariant 0 <= i <= nr
        invariant forall p: nat :: pfn <= p < pfn + i ==> !Seen(allocBitmap[..], p)
      {
        InBitmap(maxPage, allocBitmap.Length, pfn + i);
        TestIs(allocBitmap[..], pfn + i);
        if AllocatedInMap(allocBitmap[..], pfn + i) != 0 {
          return 0;
        }
        i := i + 1;
      }
      return 1;
    }

    /** alloc.c:257-275; None stands for fatal_failure, which halts. */
    method AllocPages(nr: nat, align: nat) returns (r: Option<nat>)
      requires Valid() && align > 0
      modifies allocBitmap
      ensures r == FirstFit(old(allocBitmap[..]), nr, align, maxPage, 0)
      ensures r.None? ==> allocBitmap[..] == old(allocBitmap[..])
      ensures r.Some? ==> Marked(old(allocBitmap[..]), allocBitmap[..], r.value, r.value + nr, true)
    {
      var i := 0;
      while i + nr < maxPage
        invariant 0 <= i
        invariant FirstFit(allocBitmap[..], nr, align, maxPage, 0) == FirstFit(allocBitmap[..], nr, align, maxPage, i)
        invariant allocBitmap[..] == old(allocBitmap[..])
        decreases maxPage - i
      {
        var free := IsFreeContiguousRegion(i, nr);
        if free != 0 {
          InBitmap(maxPage, allocBitmap.Length, i + nr);
          MapAlloc(allocBitmap, i, nr);
          return Some(i);
        }
        i := i + align;
      }
      return None;
    }
  }

  lemma InBitmap(max: nat, words: nat, p: nat)
    requires max <= WORD * words && p < max
    ensures Idx(p) < words
  {
  }

  // ----- when a grant is free

  /** Whatever alloc_pages grants was free. */
  ghost predicate GrantFree(tbl: seq<nat>, n: nat, align: nat, max: nat)
    requires align > 0
  {
    var r := FirstFit(tbl, n, align, max, 0);
    r.Some? ==> Free(tbl, r.value, n)
  }

  /** No page of the run is in the high half of its word. */
  ghost predicate LowHalf(i: nat, n: nat) {
    forall p: nat :: i <= p < i + n ==> Off(p) < HALF
  }

  ghost predicate SafeRequest(n: nat, align: nat, max: nat)
    requires align > 0
  {
    forall s: nat :: Start(s, n, align, max) ==> LowHalf(s, n)
  }

  lemma SafeGrants(tbl: seq<nat>, n: nat, align: nat, max: nat)
    requires align > 0 && SafeRequest(n, align, max)
    ensures GrantFree(tbl, n, align, max)
  {
    FirstFitIs(tbl, n, align, max);
    var r := FirstFit(tbl, n, align, max, 0);
    if r.Some? {
      assert LowHalf(r.value, n);
      forall p: nat | r.value <= p < r.value + n && Idx(p) < |tbl|
        ensures !Taken(tbl, p)
      {
        assert !Seen(tbl, p);
      }
    }
  }

  /** The page alone decides: one word a page is taken or free by. */
  function TakenBut(words: nat, lo: nat, hi: nat): (tbl: seq<nat>)
    ensures |tbl| == words
  {
    seq(words, j requires 0 <= j => WordBut(j, WORD, lo, hi))
  }

  /** All of `n` pages of word `j` are taken, except those of the low half that lie in the run. */
  function WordBut(j: nat, n: nat, lo: nat, hi: nat): nat {
    if n == 0 then 0
    else WordBut(j, n - 1, lo, hi) + (if In(j, n - 1, lo, hi) && n - 1 < HALF then 0 else Pow2(n - 1))
  }

  lemma {:induction false} WordButBit(j: nat, n: nat, lo: nat, hi: nat, k: nat)
    ensures WordBut(j, n, lo, hi) < Pow2(n)
    ensures k < n ==> Bit(WordBut(j, n, lo, hi), k) == if In(j, k, lo, hi) && k < HALF then 0 else 1
  {
    hide In, Bit;
    if n != 0 {
      WordButBit(j, n - 1, lo, hi, k);
      if k < n {
        TopBit(WordBut(j, n - 1, lo, hi), n - 1, k);
      }
    }
  }

  /** Adding a bit above all others. */
  lemma {:induction false} TopBit(x: nat, n: nat, k: nat)
    requires x < Pow2(n) && k <= n
    ensures Bit(x + Pow2(n), k) == if k == n then 1 else Bit(x, k)
    ensures k == n ==> Bit(x, k) == 0
  {
    if k != 0 {
      TopBit(x / 2, n - 1, k - 1);
      assert (x + Pow2(n)) / 2 == x / 2 + Pow2(n - 1);
    }
  }

  lemma TakenButIs(words: nat, lo: nat, hi: nat, p: nat)
    requires Idx(p) < words
    ensures Taken(TakenBut(words, lo, hi), p) <==> !(lo <= p < hi && Off(p) < HALF)
  {
    hide Bit, WordBut;
    WordButBit(Idx(p), WORD, lo, hi, Off(p));
    assert In(Idx(p), Off(p), lo, hi) <==> lo <= p < hi;
  }

  /** Everything is taken but what the search must see free at the first bad start: it grants taken pages. */
  lemma BadGrant(n: nat, align: nat, max: nat, s: nat)
    requires align > 0 && Start(s, n, align, max) && !LowHalf(s, n)
    requires forall t: nat :: t < s && Start(t, n, align, max) ==> LowHalf(t, n)
    ensures WORD * |TakenBut(max, s, s + n)| >= max && !GrantFree(TakenBut(max, s, s + n), n, align, max)
  {
    hide TakenBut, MultipleOf, FirstFit, Taken;
    var tbl := TakenBut(max, s, s + n);
    var r := FirstFit(tbl, n, align, max, 0);
    FirstFitIs(tbl, n, align, max);
    assert LooksFree(tbl, s, n) by {
      forall p: nat | s <= p < s + n
        ensures !Seen(tbl, p)
      {
        if Idx(p) < |tbl| {
          TakenButIs(max, s, s + n, p);
        }
      }
    }
    var i := r.value;
    EarlyIn(i, n, max, align);
    TakenButIs(max, s, s + n, i);
    assert i < s ==> LowHalf(i, n) && (Off(i) < HALF ==> Seen(tbl, i));
    assert i == s;
    var p: nat :| s <= p < s + n && Off(p) >= HALF;
    EarlyIn(p, 0, max, align);
    TakenButIs(max, s, s + n, p);
    assert Taken(tbl, p);
  }

  lemma EarlyIn(p: nat, n: nat, max: nat, align: nat)
    requires p < max
    ensures Idx(p) < max
  {
  }

  lemma {:induction false} FirstBad(n: nat, align: nat, max: nat, s: nat) returns (t: nat)
    requires align > 0 && Start(s, n, align, max) && !LowHalf(s, n)
    ensures Start(t, n, align, max) && !LowHalf(t, n)
    ensures forall u: nat :: u < t && Start(u, n, align, max) ==> LowHalf(u, n)
  {
    hide Start, LowHalf;
    if u: nat :| u < s && Start(u, n, align, max) && !LowHalf(u, n) {
      t := FirstBad(n, align, max, u);
    } else {
      t := s;
    }
  }

  /** Exactly the safe requests are granted free pages only, whatever the bitmap. */
  lemma GrantsFreeIff(n: nat, align: nat, max: nat)
    requires align > 0
    ensures (forall tbl: seq<nat> :: WORD * |tbl| >= max ==> GrantFree(tbl, n, align, max))
        <==> SafeRequest(n, align, max)
  {
    hide GrantFree, LowHalf, Start;
    if SafeRequest(n, align, max) {
      forall tbl: seq<nat> | WORD * |tbl| >= max
        ensures GrantFree(tbl, n, align, max)
      {
        SafeGrants(tbl, n, align, max);
      }
    } else {
      var s: nat :| Start(s, n, align, max) && !LowHalf(s, n);
      var t := FirstBad(n, align, max, s);
      BadGrant(n, align, max, t);
    }
  }

  lemma {:induction false} MultipleSum(x: nat, y: nat, a: nat)
    requires a > 0 && MultipleOf(x, a) && MultipleOf(y, a)
    ensures MultipleOf(x + y, a)
  {
    if x != 0 {
      MultipleSum(x - a, y, a);
    }
  }

  lemma {:induction false} MultipleAligned(x: nat, a: nat)
    requires a > 0 && Off(a) == 0 && MultipleOf(x, a)
    ensures Off(x) == 0
  {
    if x != 0 {
      MultipleAligned(x - a, a);
    }
  }

  /** Doubling takes a multiple that is not a word's start into a high half. */
  lemma {:induction false} HighMultiple(m: nat, k: nat, a: nat) returns (s: nat)
    requires a > 0 && MultipleOf(m, a) && Shl(Off(m), k) >= HALF
    ensures MultipleOf(s, a) && Off(s) >= HALF && s <= Shl(m, k)
    decreases k
  {
    hide MultipleOf, Shl;
    if Off(m) >= HALF {
      ShlGrows(m, k);
      s := m;
    } else {
      NoBits(Off(m));
      MultipleSum(m, m, a);
      Doubled(Off(m), k - 1);
      Doubled(m, k - 1);
      assert Off(2 * m) == 2 * Off(m);
      s := HighMultiple(2 * m, k - 1, a);
    }
  }

  lemma TimesHalf(x: nat)
    ensures Shl(x, 5) == HALF * x
  {
    assert Shl(x, 1) == 2 * x;
    assert Shl(x, 3) == 2 * Shl(x, 2) == 8 * x;
    assert Shl(x, 5) == 2 * Shl(x, 4);
  }

  lemma AlignedSafe(n: nat, align: nat, max: nat)
    requires align > 0 && Off(align) == 0 && n <= HALF
    ensures SafeRequest(n, align, max)
  {
    hide MultipleOf;
    forall s: nat | Start(s, n, align, max)
      ensures LowHalf(s, n)
    {
      MultipleAligned(s, align);
    }
  }

  /** In numbers: the start on a word boundary, and no more than half a word. */
  lemma SafeRequestIff(n: nat, align: nat, max: nat)
    requires align > 0 && n > 0 && 32 * align + n < max
    ensures SafeRequest(n, align, max) <==> align % 64 == 0 && n <= 32
  {
    hide MultipleOf, Shl;
    MultipleZero(align);
    if Off(align) == 0 && n <= HALF {
      AlignedSafe(n, align, max);
    } else if Off(align) != 0 {
      TimesHalf(Off(align));
      TimesHalf(align);
      MultipleUp(0, align);
      var s := HighMultiple(align, 5, align);
      assert Start(s, n, align, max) && !LowHalf(s, n);
    } else {
      assert Start(0, n, align, max) && Off(HALF) >= HALF;
      assert !LowHalf(0, n);
    }
  }

  lemma MultipleZero(a: nat)
    requires a > 0
    ensures MultipleOf(0, a)
  {
  }

  /** Single pages, as the page tables ask for them: once the first 32 are taken the answer is page 32, again and again. */
  lemma Page32(tbl: seq<nat>, max: nat)
    requires HALF + 1 < max && 0 < |tbl| && forall p: nat :: p < HALF ==> Taken(tbl, p)
    ensures FirstFit(tbl, 1, 1, max, 0) == Some(32)
    ensures forall tbl': seq<nat> :: Marked(tbl, tbl', 32, 33, true) ==> FirstFit(tbl', 1, 1, max, 0) == Some(32)
  {
    hide FirstFit, MultipleOf, Taken;
    SinglePage(tbl, max);
    forall tbl': seq<nat> | Marked(tbl, tbl', HALF, HALF + 1, true)
      ensures FirstFit(tbl', 1, 1, max, 0) == Some(HALF)
    {
      forall p: nat | p < HALF
        ensures Taken(tbl', p)
      {
        assert Taken(tbl, p);
      }
      SinglePage(tbl', max);
    }
  }

  lemma SinglePage(tbl: seq<nat>, max: nat)
    requires HALF + 1 < max && 0 < |tbl| && forall p: nat :: p < HALF ==> Taken(tbl, p)
    ensures FirstFit(tbl, 1, 1, max, 0) == Some(HALF)
  {
    hide FirstFit, MultipleOf, Taken;
    FirstFitIs(tbl, 1, 1, max);
    MultipleOne(HALF);
    assert LooksFree(tbl, HALF, 1);
    var r := FirstFit(tbl, 1, 1, max, 0);
    assert r.Some? by {
      assert Start(HALF, 1, 1, max);
    }
    if r.value < HALF {
      assert Seen(tbl, r.value);
    }
    assert Start(HALF, 1, 1, max);
  }

  lemma {:induction false} MultipleOne(x: nat)
    ensures MultipleOf(x, 1)
  {
    if x != 0 {
      MultipleOne(x - 1);
    }
  }
}
