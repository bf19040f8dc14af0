/**
 The allocation bitmap of alloc.c: one bit a page in an array of 64-bit words, set and cleared a run at a time by
 masks (lines 38-108). A set bit is a page that is taken.
 */
module Bitmap {
  import opened Bits

  const WORD: nat := 64

  // ----- & and | on words

  /** x & y */
  function And(x: nat, y: nat): nat
    decreases x + y
  {
    if x == 0 && y == 0 then 0 else (if x % 2 == 1 && y % 2 == 1 then 1 else 0) + 2 * And(x / 2, y / 2)
  }

  /** x | y */
  function Or(x: nat, y: nat): nat
    decreases x + y
  {
    if x == 0 && y == 0 then 0 else (if x % 2 == 1 || y % 2 == 1 then 1 else 0) + 2 * Or(x / 2, y / 2)
  }

  lemma {:induction false} AndBit(x: nat, y: nat, i: nat)
    ensures Bit(And(x, y), i) == if Bit(x, i) == 1 && Bit(y, i) == 1 then 1 else 0
  {
    if i != 0 {
      AndBit(x / 2, y / 2, i - 1);
    }
  }

  lemma {:induction false} OrBit(x: nat, y: nat, i: nat)
    ensures Bit(Or(x, y), i) == if Bit(x, i) == 1 || Bit(y, i) == 1 then 1 else 0
  {
    if i != 0 {
      OrBit(x / 2, y / 2, i - 1);
    }
  }

  /** (1 << n) - 1 has the bits below `n`. */
  lemma {:induction false} OnesBelow(n: nat, i: nat)
    ensures Bit(Pow2(n) - 1, i) == if i < n then 1 else 0
  {
    if n == 0 {
      ShrZero(i);
    } else if i != 0 {
      OnesBelow(n - 1, i - 1);
      assert (Pow2(n) - 1) / 2 == Pow2(n - 1) - 1;
    }
  }

  /** -(1 << n), in `w` bits, has those from `n` on. */
  lemma {:induction false} OnesFrom(n: nat, w: nat, i: nat)
    requires n <= w && i < w
    ensures Pow2(n) <= Pow2(w)
    ensures Bit(Pow2(w) - Pow2(n), i) == if i >= n then 1 else 0
  {
    if n == 0 {
      OnesBelow(w, i);
    } else {
      Pow2Mono(n, w);
      var d := Pow2(w) - Pow2(n);
      assert d / 2 == Pow2(w - 1) - Pow2(n - 1) && d % 2 == 0;
      if i != 0 {
        OnesFrom(n - 1, w - 1, i - 1);
      }
    }
  }

  /** -(1UL << n) */
  function MinusBit(n: nat): nat
    requires n <= WORD
  {
    Pow2Mono(n, WORD);
    Pow2(WORD) - Pow2(n)
  }

  // ----- pages

  function Idx(pfn: nat): nat {
    pfn / WORD
  }

  function Off(pfn: nat): (k: nat)
    ensures k < WORD
  {
    pfn % WORD
  }

  predicate Taken(tbl: seq<nat>, pfn: nat)
    requires Idx(pfn) < |tbl|
  {
    Bit(tbl[Idx(pfn)], Off(pfn)) == 1
  }

  /** 64 pages a word, the lowest bit first. */
  lemma TakenIs(tbl: seq<nat>, p: nat)
    requires p / 64 < |tbl|
    ensures Idx(p) == p / 64 && (Taken(tbl, p) <==> Bit(tbl[p / 64], p % 64) == 1)
  {
  }

  /** Exactly the pages from `lo` to `hi` are now as `v` says; the others are as before. */
  ghost predicate Marked(before: seq<nat>, after: seq<nat>, lo: nat, hi: nat, v: bool) {
    && |after| == |before|
    && forall p: nat :: Idx(p) < |before| ==> Taken(after, p) == if lo <= p < hi then v else Taken(before, p)
  }

  /** The bits of word `j` that stand for pages from `lo` to `hi`. */
  predicate In(j: nat, k: nat, lo: nat, hi: nat) {
    lo <= WORD * j + k < hi
  }

  ghost predicate MaskOf(m: nat, j: nat, lo: nat, hi: nat) {
    forall k: nat :: k < WORD ==> Bit(m, k) == if In(j, k, lo, hi) then 1 else 0
  }

  ghost predicate KeepMask(m: nat, j: nat, lo: nat, hi: nat) {
    forall k: nat :: k < WORD ==> Bit(m, k) == if In(j, k, lo, hi) then 0 else 1
  }

  ghost predicate WordMarked(w: nat, w': nat, j: nat, lo: nat, hi: nat, v: nat) {
    forall k: nat :: k < WORD ==> Bit(w', k) == if In(j, k, lo, hi) then v else Bit(w, k)
  }

  lemma SetBits(w: nat, m: nat, j: nat, lo: nat, hi: nat)
    requires MaskOf(m, j, lo, hi)
    ensures WordMarked(w, Or(w, m), j, lo, hi, 1)
  {
    hide In, Or;
    forall k: nat | k < WORD
      ensures Bit(Or(w, m), k) == if In(j, k, lo, hi) then 1 else Bit(w, k)
    {
      OrBit(w, m, k);
      BitRange(w, k);
    }
  }

  lemma ClearBits(w: nat, m: nat, j: nat, lo: nat, hi: nat)
    requires KeepMask(m, j, lo, hi)
    ensures WordMarked(w, And(w, m), j, lo, hi, 0)
  {
    hide In, And;
    forall k: nat | k < WORD
      ensures Bit(And(w, m), k) == if In(j, k, lo, hi) then 0 else Bit(w, k)
    {
      AndBit(w, m, k);
      BitRange(w, k);
    }
  }

  lemma BitRange(w: nat, k: nat)
    ensures Bit(w, k) <= 1
  {
  }

  lemma MaskBelow(e: nat, j: nat, lo: nat, hi: nat)
    requires e <= WORD && lo <= WORD * j && hi == WORD * j + e
    ensures MaskOf(Pow2(e) - 1, j, lo, hi)
  {
    hide Bit;
    forall k: nat | k < WORD
      ensures Bit(Pow2(e) - 1, k) == if In(j, k, lo, hi) then 1 else 0
    {
      OnesBelow(e, k);
    }
  }

  lemma MaskFrom(s: nat, j: nat, lo: nat, hi: nat)
    requires s <= WORD && lo == WORD * j + s && WORD * j + WORD <= hi
    ensures MaskOf(MinusBit(s), j, lo, hi)
  {
    hide Bit, Pow2;
    forall k: nat | k < WORD
      ensures Bit(MinusBit(s), k) == if In(j, k, lo, hi) then 1 else 0
    {
      OnesFrom(s, WORD, k);
    }
  }

  lemma MaskBetween(s: nat, e: nat, j: nat, lo: nat, hi: nat)
    requires s <= e <= WORD && lo == WORD * j + s && hi == WORD * j + e
    ensures MaskOf(And(Pow2(e) - 1, MinusBit(s)), j, lo, hi)
    ensures KeepMask(Or(MinusBit(e), Pow2(s) - 1), j, lo, hi)
  {
    hide Bit, Pow2, And, Or;
    forall k: nat | k < WORD
      ensures Bit(And(Pow2(e) - 1, MinusBit(s)), k) == if In(j, k, lo, hi) then 1 else 0
      ensures Bit(Or(MinusBit(e), Pow2(s) - 1), k) == if In(j, k, lo, hi) then 0 else 1
    {
      OnesBelow(e, k);
      OnesBelow(s, k);
      OnesFrom(s, WORD, k);
      OnesFrom(e, WORD, k);
      AndBit(Pow2(e) - 1, MinusBit(s), k);
      OrBit(MinusBit(e), Pow2(s) - 1, k);
    }
  }

  lemma KeepBelow(s: nat, j: nat, lo: nat, hi: nat)
    requires s <= WORD && lo == WORD * j + s && WORD * j + WORD <= hi
    ensures KeepMask(Pow2(s) - 1, j, lo, hi)
  {
    hide Bit;
    forall k: nat | k < WORD
      ensures Bit(Pow2(s) - 1, k) == if In(j, k, lo, hi) then 0 else 1
    {
      OnesBelow(s, k);
    }
  }

  lemma KeepFrom(e: nat, j: nat, lo: nat, hi: nat)
    requires e <= WORD && lo <= WORD * j && hi == WORD * j + e
    ensures KeepMask(MinusBit(e), j, lo, hi)
  {
    hide Bit, Pow2;
    forall k: nat | k < WORD
      ensures Bit(MinusBit(e), k) == if In(j, k, lo, hi) then 0 else 1
    {
      OnesFrom(e, WORD, k);
    }
  }

  /** A word that stands for pages of the run alone. */
  lemma FullWord(w: nat, j: nat, lo: nat, hi: nat)
    requires lo <= WORD * j && WORD * j + WORD <= hi
    ensures WordMarked(w, Pow2(WORD) - 1, j, lo, hi, 1) && WordMarked(w, 0, j, lo, hi, 0)
  {
    hide Bit, Pow2;
    forall k: nat | k < WORD
      ensures Bit(Pow2(WORD) - 1, k) == if In(j, k, lo, hi) then 1 else Bit(w, k)
    {
      OnesBelow(WORD, k);
    }
    forall k: nat | k < WORD
      ensures Bit(0, k) == if In(j, k, lo, hi) then 0 else Bit(w, k)
    {
      ZeroBit(k);
    }
  }

  lemma ZeroBit(k: nat)
    ensures Bit(0, k) == 0
  {
    ShrZero(k);
  }

  /** Word by word is page by page. */
  lemma WordsMarked(before: seq<nat>, after: seq<nat>, lo: nat, hi: nat, v: bool)
    requires |after| == |before|
    requires forall j: nat :: j < |before| ==> WordMarked(before[j], after[j], j, lo, hi, if v then 1 else 0)
    ensures Marked(before, after, lo, hi, v)
  {
    hide Bit;
    forall p: nat | Idx(p) < |before|
      ensures Taken(after, p) == if lo <= p < hi then v else Taken(before, p)
    {
      var j, k := Idx(p), Off(p);
      assert WordMarked(before[j], after[j], j, lo, hi, if v then 1 else 0);
      assert In(j, k, lo, hi) <==> lo <= p < hi;
    }
  }

  /** A word no page of the run is in. */
  lemma Untouched(w: nat, j: nat, lo: nat, hi: nat, v: nat)
    requires WORD * j + WORD <= lo || hi <= WORD * j
    ensures WordMarked(w, w, j, lo, hi, v)
  {
  }

  /** alloc.c:60-84 */
  method MapAlloc(tbl: array<nat>, first: nat, nr: nat)
    requires Idx(first + nr) < tbl.Length
    modifies tbl
    ensures Marked(old(tbl[..]), tbl[..], first, first + nr, true)
  {
    hide Bit, Pow2, WordMarked, And, Or, Marked, MinusBit;
    ghost var before, hi := tbl[..], first + nr;
    var curr, end := Idx(first), Idx(first + nr);
    var startOff, endOff := Off(first), Off(first + nr);
    ghost var from := curr;
    if curr == end {
      MaskBetween(startOff, endOff, curr, first, hi);
      SetBits(tbl[curr], And(Pow2(endOff) - 1, MinusBit(startOff)), curr, first, hi);
      tbl[curr] := Or(tbl[curr], And(Pow2(endOff) - 1, MinusBit(startOff)));
    } else {
      MaskFrom(startOff, curr, first, hi);
      SetBits(tbl[curr], MinusBit(startOff), curr, first, hi);
      tbl[curr] := Or(tbl[curr], MinusBit(startOff));
      curr := curr + 1;
      while curr < end
        invariant from < curr <= end
        invariant forall j: nat :: from <= j < curr ==> WordMarked(before[j], tbl[j], j, first, hi, 1)
        invariant forall j: nat :: j < tbl.Length && !(from <= j < curr) ==> tbl[j] == before[j]
      {
        FullWord(tbl[curr], curr, first, hi);
        tbl[curr] := Pow2(WORD) - 1;
        curr := curr + 1;
      }
      MaskBelow(endOff, curr, first, hi);
      SetBits(tbl[curr], Pow2(endOff) - 1, curr, first, hi);
      tbl[curr] := Or(tbl[curr], Pow2(endOff) - 1);
    }
    forall j: nat | j < tbl.Length
      ensures WordMarked(before[j], tbl[..][j], j, first, hi, 1)
    {
      if j < from || end < j {
        Untouched(before[j], j, first, hi, 1);
      }
    }
    WordsMarked(before, tbl[..], first, hi, true);
  }

  /** alloc.c:86-108 */
  method MapFree(tbl: array<nat>, first: nat, nr: nat)
    requires Idx(first + nr) < tbl.Length
    modifies tbl
    ensures Marked(old(tbl[..]), tbl[..], first, first + nr, false)
  {
    hide Bit, Pow2, WordMarked, And, Or, Marked, MinusBit;
    ghost var before, hi := tbl[..], first + nr;
    var curr, end := Idx(first), Idx(first + nr);
    var startOff, endOff := Off(first), Off(first + nr);
    ghost var from := curr;
    if curr == end {
      MaskBetween(startOff, endOff, curr, first, hi);
      ClearBits(tbl[curr], Or(MinusBit(endOff), Pow2(startOff) - 1), curr, first, hi);
      tbl[curr] := And(tbl[curr], Or(MinusBit(endOff), Pow2(startOff) - 1));
    } else {
      KeepBelow(startOff, curr, first, hi);
      ClearBits(tbl[curr], Pow2(startOff) - 1, curr, first, hi);
      tbl[curr] := And(tbl[curr], Pow2(startOff) - 1);
      curr := curr + 1;
      while curr < end
        invariant from < curr <= end
        invariant forall j: nat :: from <= j < curr ==> WordMarked(before[j], tbl[j], j, first, hi, 0)
        invariant forall j: nat :: j < tbl.Length && !(from <= j < curr) ==> tbl[j] == before[j]
      {
        FullWord(tbl[curr], curr, first, hi);
        tbl[curr] := 0;
        curr := curr + 1;
      }
      KeepFrom(endOff, curr, first, hi);
      ClearBits(tbl[curr], MinusBit(endOff), curr, first, hi);
      tbl[curr] := And(tbl[curr], MinusBit(endOff));
    }
    forall j: nat | j < tbl.Length
      ensures WordMarked(before[j], tbl[..][j], j, first, hi, 0)
    {
      if j < from || end < j {
        Untouched(before[j], j, first, hi, 0);
      }
    }
    WordsMarked(before, tbl[..], first, hi, false);
  }
}
