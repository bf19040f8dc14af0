/**
 Setting up the bitmap from the memory map: get_max_pfn (e820.c:106-123), free_alloc_bitmap_region,
 init_host_alloc_bitmap and naive_memmap_init (alloc.c:110-156, 194-239).
 */
module MemMap {
  import opened Bits
  import opened Bitmap
  import opened HostAlloc
  import opened Wrappers

  const PAGE: nat := 4096
  const E820_RAM: nat := 1

  /** A region of the e820 map; its end stays below 2^64. */
  datatype Entry = Entry(addr: nat, size: nat, kind: nat)

  function PageUp(x: nat): nat {
    (x + PAGE - 1) / PAGE * PAGE
  }

  function PageDown(x: nat): nat {
    x / PAGE * PAGE
  }

  /** Page `p` lies between the addresses, all of it. */
  predicate Whole(start: nat, end: nat, p: nat) {
    start <= PAGE * p && PAGE * p + PAGE <= end
  }

  predicate RamPage(e: Entry, p: nat) {
    e.kind == E820_RAM && Whole(e.addr, e.addr + e.size, p)
  }

  /** What is left of a region inside the heap. */
  predicate HeapPage(e: Entry, lo: nat, hi: nat, p: nat) {
    RamPage(e, p) && Whole(lo, hi, p)
  }

  ghost predicate Usable(e820: seq<Entry>, lo: nat, hi: nat, p: nat) {
    exists i: nat :: i < |e820| && HeapPage(e820[i], lo, hi, p)
  }

  predicate ByteIn(e: Entry, lo: nat, hi: nat, b: nat) {
    e.addr <= b < e.addr + e.size && lo <= b < hi
  }

  /** All of the page's 4096 bytes are in the region, and in the heap. */
  ghost predicate Covers(e: Entry, lo: nat, hi: nat, p: nat) {
    forall b: nat :: b / 4096 == p ==> ByteIn(e, lo, hi, b)
  }

  /** In bytes: a usable page is covered by one region of kind 1. */
  lemma UsableMeans(e820: seq<Entry>, lo: nat, hi: nat, p: nat)
    ensures Usable(e820, lo, hi, p) <==> exists i: nat :: i < |e820| && e820[i].kind == 1 && Covers(e820[i], lo, hi, p)
  {
    hide HeapPage, Covers;
    forall i: nat | i < |e820|
      ensures HeapPage(e820[i], lo, hi, p) <==> e820[i].kind == 1 && Covers(e820[i], lo, hi, p)
    {
      HeapBytes(e820[i], lo, hi, p);
    }
  }

  lemma HeapBytes(e: Entry, lo: nat, hi: nat, p: nat)
    ensures HeapPage(e, lo, hi, p) <==> e.kind == 1 && Covers(e, lo, hi, p)
  {
    if Covers(e, lo, hi, p) {
      var first, last := 4096 * p, 4096 * p + 4095;
      assert first / 4096 == p && last / 4096 == p;
      assert ByteIn(e, lo, hi, first) && ByteIn(e, lo, hi, last);
    }
  }

  /** Rounding inward loses nothing but part pages. */
  lemma Rounded(start: nat, end: nat, p: nat)
    ensures Whole(start, end, p) <==> (start + PAGE - 1) / PAGE <= p < end / PAGE
  {
  }

  /** One more than the last whole page of RAM. */
  method GetMaxPfn(e820: seq<Entry>) returns (n: nat)
    ensures forall i: nat, p: nat :: i < |e820| && RamPage(e820[i], p) ==> p < n
    ensures n > 0 ==> exists i: nat :: i < |e820| && RamPage(e820[i], n - 1)
  {
    n := 0;
    var i := 0;
    while i < |e820|
      invariant 0 <= i <= |e820|
      invariant forall k: nat, p: nat :: k < i && RamPage(e820[k], p) ==> p < n
      invariant n > 0 ==> exists k: nat :: k < i && RamPage(e820[k], n - 1)
    {
      var e := e820[i];
      if e.kind == E820_RAM {
        var start, end := (e.addr + PAGE - 1) / PAGE, (e.addr + e.size) / PAGE;
        if start < end && end > n {
          n := end;
          Rounded(e.addr, e.addr + e.size, n - 1);
          assert RamPage(e820[i], n - 1);
        }
        forall p: nat | RamPage(e, p)
          ensures p < n
        {
          Rounded(e.addr, e.addr + e.size, p);
        }
      }
      i := i + 1;
    }
  }

  /** alloc.c:110-121 */
  method FreeRegion(tbl: array<nat>, start: nat, end: nat)
    requires forall p: nat :: Whole(start, end, p) ==> Idx(p + 1) < tbl.Length
    modifies tbl
    ensures forall p: nat :: Idx(p) < tbl.Length ==>
      Taken(tbl[..], p) == (Taken(old(tbl[..]), p) && !Whole(start, end, p))
  {
    hide Taken;
    var first, last := PageUp(start), PageDown(end);
    ghost var before := tbl[..];
    if last <= first {
      forall p: nat | Idx(p) < tbl.Length
        ensures !Whole(start, end, p)
      {
        Rounded(start, end, p);
      }
      return;
    }
    Rounded(start, end, end / PAGE - 1);
    assert Whole(start, end, end / PAGE - 1);
    MapFree(tbl, first / PAGE, (last - first) / PAGE);
    forall p: nat | Idx(p) < tbl.Length
      ensures Taken(tbl[..], p) == (Taken(before, p) && !Whole(start, end, p))
    {
      Rounded(start, end, p);
    }
  }

  /** alloc.c:132-156 */
  method InitHostAllocBitmap(e820: seq<Entry>, heapStart: nat, pmemEnd: nat, tbl: array<nat>)
    requires forall i: nat, p: nat :: i < |e820| && RamPage(e820[i], p) ==> Idx(p + 1) < tbl.Length
    modifies tbl
    ensures forall p: nat :: Idx(p) < tbl.Length ==>
      Taken(tbl[..], p) == (Taken(old(tbl[..]), p) && !Usable(e820, heapStart, pmemEnd, p))
  {
    hide Taken, Usable, Idx;
    ghost var before := tbl[..];
    var i := 0;
    NoneUsable(e820, heapStart, pmemEnd);
    while i < |e820|
      invariant 0 <= i <= |e820|
      invariant forall p: nat :: Idx(p) < tbl.Length ==>
        Taken(tbl[..], p) == (Taken(before, p) && !Usable(e820[..i], heapStart, pmemEnd, p))
    {
      var e := e820[i];
      UsableStep(e820, i, heapStart, pmemEnd);
      i := i + 1;
      if e.kind != E820_RAM {
        continue;
      }
      var start, end := e.addr, e.addr + e.size;
      if end < heapStart {
        continue;
      }
      if start > pmemEnd {
        continue;
      }
      if start < heapStart {
        start := heapStart;
      }
      if end > pmemEnd {
        end := pmemEnd;
      }
      forall p: nat | Whole(start, end, p)
        ensures Idx(p + 1) < tbl.Length
      {
        assert RamPage(e820[i - 1], p);
      }
      FreeRegion(tbl, start, end);
      assert forall p: nat :: Whole(start, end, p) <==> HeapPage(e, heapStart, pmemEnd, p);
    }
    assert e820[..i] == e820;
  }

  lemma NoneUsable(e820: seq<Entry>, lo: nat, hi: nat)
    ensures forall p: nat :: !Usable(e820[..0], lo, hi, p)
  {
  }

  lemma UsableStep(e820: seq<Entry>, i: nat, lo: nat, hi: nat)
    requires i < |e820|
    ensures forall p: nat :: Usable(e820[..i + 1], lo, hi, p) <==> Usable(e820[..i], lo, hi, p) || HeapPage(e820[i], lo, hi, p)
  {
    hide HeapPage;
    forall p: nat
      ensures Usable(e820[..i + 1], lo, hi, p) <==> Usable(e820[..i], lo, hi, p) || HeapPage(e820[i], lo, hi, p)
    {
      var more := e820[..i + 1];
      if Usable(e820[..i], lo, hi, p) {
        var k: nat :| k < i && HeapPage(e820[..i][k], lo, hi, p);
        assert more[k] == e820[..i][k];
      }
      if HeapPage(e820[i], lo, hi, p) {
        assert HeapPage(more[i], lo, hi, p);
      }
    }
  }

  const BITMAP_START: nat := 0x810_0000

  /** The bitmap, rounded up to pages, has a word to spare. */
  lemma Sizing(maxPage: nat)
    ensures PageUp(BITMAP_START) == BITMAP_START
    ensures var rounded := PageUp(maxPage / 8 + 8);
      && rounded - PAGE < maxPage / 8 + 8 <= rounded && (BITMAP_START + rounded) % PAGE == 0
      && rounded > 0 && 8 * (rounded / 8) == rounded && Idx(maxPage) < rounded / 8 && maxPage <= WORD * (rounded / 8)
  {
    var bytes := maxPage / 8;
    var q := (bytes + 8 + PAGE - 1) / PAGE;
    assert PageUp(bytes + 8) == PAGE * q && PAGE * q >= bytes + 8;
    EightsOf(q);
    WordsEnough(maxPage, bytes, 512 * q);
  }

  lemma EightsOf(q: nat)
    ensures PAGE * q / 8 == 512 * q
  {
  }

  lemma WordsEnough(maxPage: nat, bytes: nat, words: nat)
    requires bytes == maxPage / 8 && 8 * words >= bytes + 8
    ensures Idx(maxPage) < words && maxPage <= WORD * words
  {
  }

  lemma IdxMono(p: nat, q: nat)
    requires p <= q
    ensures Idx(p) <= Idx(q)
  {
  }

  /** alloc.c:194-239 with max_page as setup.c:57 sets it; None stands for fatal_failure. */
  method NaiveMemmapInit(e820: seq<Entry>, pmemEnd: nat) returns (r: Option<NaiveAllocator>, heapStart: nat, maxPage: nat)
    ensures forall i: nat, p: nat :: i < |e820| && RamPage(e820[i], p) ==> p < maxPage
    ensures maxPage > 0 ==> exists i: nat :: i < |e820| && RamPage(e820[i], maxPage - 1)
    ensures heapStart % 4096 == 0 && heapStart - 4096 < 0x810_0000 + maxPage / 8 + 8 <= heapStart
    ensures r.None? <==> heapStart >= pmemEnd
    ensures r.Some? ==>
      && r.value.Valid() && fresh(r.value.allocBitmap) && r.value.maxPage == maxPage
      && 0x810_0000 + 8 * r.value.allocBitmap.Length == heapStart && Idx(maxPage) < r.value.allocBitmap.Length
    ensures r.Some? ==> forall p: nat :: Idx(p) < r.value.allocBitmap.Length ==>
      (!Taken(r.value.allocBitmap[..], p) <==> Usable(e820, heapStart, pmemEnd, p))
  {
    hide Taken, Usable, PageUp, Idx, RamPage, Pow2;
    maxPage := GetMaxPfn(e820);
    var start := PageUp(BITMAP_START);
    var bytes := maxPage / 8;
    var rounded := PageUp(bytes + 8);
    heapStart := start + rounded;
    Sizing(maxPage);
    if heapStart >= pmemEnd {
      return None, heapStart, maxPage;
    }
    var tbl := new nat[rounded / 8](_ => Pow2(WORD) - 1);
    AllOnes(tbl[..]);
    forall i: nat, p: nat | i < |e820| && RamPage(e820[i], p)
      ensures Idx(p + 1) < tbl.Length
    {
      IdxMono(p + 1, maxPage);
    }
    InitHostAllocBitmap(e820, heapStart, pmemEnd, tbl);
    var a := new NaiveAllocator(tbl, maxPage);
    return Some(a), heapStart, maxPage;
  }

  lemma AllOnes(tbl: seq<nat>)
    requires forall j: nat :: j < |tbl| ==> tbl[j] == Pow2(WORD) - 1
    ensures forall p: nat :: Idx(p) < |tbl| ==> Taken(tbl, p)
  {
    hide Pow2, Bit;
    forall p: nat | Idx(p) < |tbl|
      ensures Taken(tbl, p)
    {
      OnesBelow(WORD, Off(p));
    }
  }

  lemma UsableAbove(e820: seq<Entry>, lo: nat, hi: nat, p: nat)
    ensures Usable(e820, lo, hi, p) ==> Whole(lo, hi, p)
  {
  }

  /** Afterwards nothing below the heap is free, and so every request for one page is answered with page 32, taken or not. */
  lemma OnePageAfterInit(tbl: seq<nat>, e820: seq<Entry>, heapStart: nat, pmemEnd: nat, max: nat)
    requires heapStart > 0x810_0000 && |tbl| > 0 && HALF + 1 < max
    requires forall p: nat :: Idx(p) < |tbl| ==> (!Taken(tbl, p) <==> Usable(e820, heapStart, pmemEnd, p))
    ensures forall p: nat :: p <= 32 ==> Taken(tbl, p)
    ensures FirstFit(tbl, 1, 1, max, 0) == Some(32) && !GrantFree(tbl, 1, 1, max)
  {
    hide Taken, FirstFit;
    forall p: nat | p <= HALF
      ensures Taken(tbl, p)
    {
      UsableAbove(e820, heapStart, pmemEnd, p);
    }
    Page32(tbl, max);
    assert Taken(tbl, HALF);
  }
}
