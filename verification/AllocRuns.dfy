/**
 Runs of the allocator: any sequence of alloc_pages calls and of map_free calls on ranges that are owned
 (alloc.c:86-108, 257-275). What a run keeps is exactly as good as its grants.
 */
module AllocRuns {
  import opened Bits
  import opened Bitmap
  import opened HostAlloc
  import opened Wrappers

  datatype Range = Range(start: nat, n: nat)

  predicate Owns(r: Range, p: nat) {
    r.start <= p < r.start + r.n
  }

  /** The bitmap and the ranges granted and not given back. */
  datatype Host = Host(tbl: seq<nat>, live: seq<Range>)

  datatype Step = Alloc(n: nat, align: nat) | Release(k: nat)

  /** One call: alloc_pages, or map_free on a range that is owned. */
  ghost predicate Next(h: Host, step: Step, h': Host, max: nat) {
    match step
    case Alloc(n, align) =>
      && align > 0
      && var r := FirstFit(h.tbl, n, align, max, 0);
      && r.Some? && Marked(h.tbl, h'.tbl, r.value, r.value + n, true)
      && h'.live == h.live + [Range(r.value, n)]
    case Release(k) =>
      && k < |h.live|
      && Marked(h.tbl, h'.tbl, h.live[k].start, h.live[k].start + h.live[k].n, false)
      && h'.live == h.live[..k] + h.live[k + 1..]
  }

  ghost predicate Apart(live: seq<Range>) {
    forall a: nat, b: nat, p: nat :: a < b < |live| && Owns(live[a], p) ==> !Owns(live[b], p)
  }

  ghost predicate Owned(live: seq<Range>, p: nat) {
    exists k: nat :: k < |live| && Owns(live[k], p)
  }

  /** Live ranges do not overlap, and the taken pages are those taken at the start and those of live ranges, not both. */
  ghost predicate Orderly(h: Host, init: seq<nat>, max: nat) {
    && |h.tbl| == |init| && WORD * |init| >= max && Apart(h.live)
    && (forall p: nat :: Idx(p) < |init| ==>
          (Taken(h.tbl, p) <==> Taken(init, p) || Owned(h.live, p)) && !(Taken(init, p) && Owned(h.live, p)))
    && (forall k: nat :: k < |h.live| ==> h.live[k].start + h.live[k].n < max)
  }

  ghost predicate SoundStep(h: Host, step: Step, max: nat) {
    step.Alloc? ==> step.align > 0 && GrantFree(h.tbl, step.n, step.align, max)
  }

  /** A step keeps the ranges in order exactly when the pages it grants were free. */
  lemma StepKeepsIff(h: Host, step: Step, h': Host, init: seq<nat>, max: nat)
    requires Orderly(h, init, max) && Next(h, step, h', max)
    ensures Orderly(h', init, max) <==> SoundStep(h, step, max)
  {
    hide Taken, FirstFit;
    match step
    case Alloc(n, align) =>
      FirstFitIs(h.tbl, n, align, max);
      var r := FirstFit(h.tbl, n, align, max, 0).value;
      if Free(h.tbl, r, n) {
        GrantKeeps(h, h', Range(r, n), init, max);
      } else {
        GrantBreaks(h, h', Range(r, n), init, max);
      }
    case Release(k) =>
      ReleaseKeeps(h, h', k, init, max);
  }

  lemma OwnedMore(live: seq<Range>, r: Range, p: nat)
    ensures Owned(live + [r], p) <==> Owned(live, p) || Owns(r, p)
  {
    hide Owns;
    var more := live + [r];
    if Owned(live, p) {
      var k: nat :| k < |live| && Owns(live[k], p);
      assert Owns(more[k], p);
    }
    if Owns(r, p) {
      assert Owns(more[|live|], p);
    }
  }

  lemma GrantKeeps(h: Host, h': Host, r: Range, init: seq<nat>, max: nat)
    requires Orderly(h, init, max) && Free(h.tbl, r.start, r.n) && r.start + r.n < max
    requires Marked(h.tbl, h'.tbl, r.start, r.start + r.n, true) && h'.live == h.live + [r]
    ensures Orderly(h', init, max)
  {
    hide Taken, Owned;
    forall p: nat | Idx(p) < |init|
      ensures (Taken(h'.tbl, p) <==> Taken(init, p) || Owned(h'.live, p)) && !(Taken(init, p) && Owned(h'.live, p))
    {
      OwnedMore(h.live, r, p);
      assert Taken(h.tbl, p) <==> Taken(init, p) || Owned(h.live, p);
    }
    forall a: nat, b: nat, p: nat | a < b < |h'.live| && Owns(h'.live[a], p)
      ensures !Owns(h'.live[b], p)
    {
      if b < |h.live| {
        assert Owns(h.live[a], p);
        assert !Owns(h.live[b], p);
      } else {
        LiveTaken(h, a, p, init, max);
      }
    }
  }

  lemma LiveTaken(h: Host, a: nat, p: nat, init: seq<nat>, max: nat)
    requires Orderly(h, init, max) && a < |h.live| && Owns(h.live[a], p)
    ensures Idx(p) < |h.tbl| && Taken(h.tbl, p)
  {
    hide Taken;
    assert p < max;
    assert Owned(h.live, p);
  }

  lemma GrantBreaks(h: Host, h': Host, r: Range, init: seq<nat>, max: nat)
    requires Orderly(h, init, max) && !Free(h.tbl, r.start, r.n)
    requires h'.live == h.live + [r]
    ensures !Orderly(h', init, max)
  {
    hide Taken, Owned;
    var p: nat :| r.start <= p < r.start + r.n && Idx(p) < |h.tbl| && Taken(h.tbl, p);
    OwnedMore(h.live, r, p);
    if Owned(h.live, p) {
      OwnedTwice(h.live, r, p);
    } else {
      assert Taken(init, p);
    }
  }

  lemma OwnedTwice(live: seq<Range>, r: Range, p: nat)
    requires Owned(live, p) && Owns(r, p)
    ensures !Apart(live + [r])
  {
    hide Owns;
    var k: nat :| k < |live| && Owns(live[k], p);
    var more := live + [r];
    assert Owns(more[k], p) && Owns(more[|live|], p);
  }

  lemma ReleaseKeeps(h: Host, h': Host, k: nat, init: seq<nat>, max: nat)
    requires Orderly(h, init, max) && Next(h, Release(k), h', max)
    ensures Orderly(h', init, max)
  {
    hide Taken, Owned;
    forall p: nat | Idx(p) < |init|
      ensures (Taken(h'.tbl, p) <==> Taken(init, p) || Owned(h'.live, p)) && !(Taken(init, p) && Owned(h'.live, p))
    {
      OwnedLess(h.live, k, p);
      assert Taken(h.tbl, p) <==> Taken(init, p) || Owned(h.live, p);
      assert !(Taken(init, p) && Owned(h.live, p));
    }
    forall a: nat, b: nat, p: nat | a < b < |h'.live| && Owns(h'.live[a], p)
      ensures !Owns(h'.live[b], p)
    {
      var a', b' := if a < k then a else a + 1, if b < k then b else b + 1;
      assert h'.live[a] == h.live[a'] && h'.live[b] == h.live[b'];
      assert a' < b' < |h.live| && Owns(h.live[a'], p);
    }
  }

  lemma OwnedLess(live: seq<Range>, k: nat, p: nat)
    requires k < |live| && Apart(live)
    ensures Owned(live[..k] + live[k + 1..], p) <==> Owned(live, p) && !Owns(live[k], p)
    ensures Owns(live[k], p) ==> Owned(live, p)
  {
    hide Owns;
    var less := live[..k] + live[k + 1..];
    if Owned(less, p) {
      var a: nat :| a < |less| && Owns(less[a], p);
      var a' := if a < k then a else a + 1;
      assert less[a] == live[a'] && Owns(live[a'], p);
    }
    if Owned(live, p) && !Owns(live[k], p) {
      var a: nat :| a < |live| && Owns(live[a], p);
      var a' := if a < k then a else a - 1;
      assert less[a'] == live[a];
    }
  }

  // ----- whole runs

  ghost predicate Run(trace: seq<Host>, steps: seq<Step>, max: nat) {
    |trace| == |steps| + 1 && forall i: nat :: i < |steps| ==> Next(trace[i], steps[i], trace[i + 1], max)
  }

  /** From nothing granted, a run stays in order up to any point exactly when every grant up to there was of free pages. */
  lemma {:induction false} RunOrderlyIff(trace: seq<Host>, steps: seq<Step>, init: seq<nat>, max: nat, m: nat)
    requires Run(trace, steps, max) && trace[0] == Host(init, []) && WORD * |init| >= max && m <= |steps|
    ensures (forall i: nat :: i <= m ==> Orderly(trace[i], init, max))
        <==> (forall i: nat :: i < m ==> SoundStep(trace[i], steps[i], max))
  {
    hide Orderly, SoundStep, Next;
    if m == 0 {
      NothingLive(init, max);
    } else {
      RunOrderlyIff(trace, steps, init, max, m - 1);
      assert Next(trace[m - 1], steps[m - 1], trace[m - 1 + 1], max);
      if Orderly(trace[m - 1], init, max) {
        StepKeepsIff(trace[m - 1], steps[m - 1], trace[m], init, max);
      }
    }
  }

  lemma NothingLive(init: seq<nat>, max: nat)
    requires WORD * |init| >= max
    ensures Orderly(Host(init, []), init, max)
  {
  }

  /** Requests on word boundaries of at most half a word: every run keeps its ranges apart and takes only free pages. */
  lemma AlignedRuns(trace: seq<Host>, steps: seq<Step>, init: seq<nat>, max: nat)
    requires Run(trace, steps, max) && trace[0] == Host(init, []) && WORD * |init| >= max
    requires forall i: nat :: i < |steps| && steps[i].Alloc? ==>
      steps[i].align > 0 && Off(steps[i].align) == 0 && steps[i].n <= HALF
    ensures forall i: nat :: i < |trace| ==> Orderly(trace[i], init, max)
  {
    hide Orderly, GrantFree;
    forall i: nat | i < |steps|
      ensures SoundStep(trace[i], steps[i], max)
    {
      if steps[i].Alloc? {
        AlignedSafe(steps[i].n, steps[i].align, max);
        SafeGrants(trace[i].tbl, steps[i].n, steps[i].align, max);
      }
    }
    RunOrderlyIff(trace, steps, init, max, |steps|);
  }

  /** The single pages that the page tables take: with the first 32 pages taken, two calls grant the same page. */
  lemma PagesOverlap(h: Host, h1: Host, h2: Host, max: nat)
    requires HALF + 1 < max && 0 < |h.tbl| && forall p: nat :: p < HALF ==> Taken(h.tbl, p)
    requires Next(h, Alloc(1, 1), h1, max) && Next(h1, Alloc(1, 1), h2, max)
    ensures h2.live == h.live + [Range(HALF, 1), Range(HALF, 1)] && !Apart(h2.live)
  {
    hide Taken, FirstFit, Marked;
    Page32(h.tbl, max);
    var k := |h.live|;
    assert h2.live[k] == h2.live[k + 1] == Range(HALF, 1);
    assert Owns(h2.live[k], HALF) && Owns(h2.live[k + 1], HALF);
  }

  // ----- single pages

  ghost predicate PageMarked(tbl: seq<nat>, tbl': seq<nat>, p: nat) {
    Marked(tbl, tbl', p, p + 1, true)
  }

  /** The next `k` calls for a single page are answered with pages that are free. */
  ghost predicate Supplied(tbl: seq<nat>, k: nat, max: nat)
    decreases k
  {
    k == 0
    || (var r := FirstFit(tbl, 1, 1, max, 0);
        && r.Some? && Idx(r.value) < |tbl| && !Taken(tbl, r.value)
        && forall tbl': seq<nat> :: PageMarked(tbl, tbl', r.value) ==> Supplied(tbl', k - 1, max))
  }

  /** How many of the first `n` pages are free. */
  function FreeBelow(tbl: seq<nat>, n: nat): nat
    requires n <= WORD && 0 < |tbl|
  {
    if n == 0 then 0 else FreeBelow(tbl, n - 1) + (if Taken(tbl, n - 1) then 0 else 1)
  }

  /** Taking a page takes one from the count if it was free and below `n`. */
  lemma {:induction false} FreeBelowTaken(tbl: seq<nat>, tbl': seq<nat>, p: nat, n: nat)
    requires 0 < |tbl| && n <= WORD && Idx(p) < |tbl| && PageMarked(tbl, tbl', p)
    ensures FreeBelow(tbl', n) == FreeBelow(tbl, n) - (if p < n && !Taken(tbl, p) then 1 else 0)
  {
    hide Taken;
    if n != 0 {
      FreeBelowTaken(tbl, tbl', p, n - 1);
      assert Idx(n - 1) < |tbl|;
    }
  }

  lemma {:induction false} SomeFree(tbl: seq<nat>, n: nat) returns (p: nat)
    requires 0 < |tbl| && n <= WORD && FreeBelow(tbl, n) > 0
    ensures p < n && !Taken(tbl, p)
  {
    hide Taken;
    if Taken(tbl, n - 1) {
      p := SomeFree(tbl, n - 1);
    } else {
      p := n - 1;
    }
  }

  lemma {:induction false} AllTakenBelow(tbl: seq<nat>, n: nat)
    requires 0 < |tbl| && n <= WORD && FreeBelow(tbl, n) == 0
    ensures forall p: nat :: p < n ==> Taken(tbl, p)
  {
    hide Taken;
    if n != 0 {
      AllTakenBelow(tbl, n - 1);
    }
  }

  /** A free page among the first 32 is found; otherwise the answer is page 32. */
  lemma NextPage(tbl: seq<nat>, max: nat)
    requires HALF + 1 < max && 0 < |tbl|
    ensures var r := FirstFit(tbl, 1, 1, max, 0);
      && r.Some? && Idx(r.value) < |tbl|
      && (FreeBelow(tbl, HALF) > 0 ==> r.value < HALF && !Taken(tbl, r.value))
      && (FreeBelow(tbl, HALF) == 0 ==> r.value == HALF)
  {
    hide Taken, FirstFit, MultipleOf;
    if FreeBelow(tbl, HALF) == 0 {
      AllTakenBelow(tbl, HALF);
      SinglePage(tbl, max);
    } else {
      var p := SomeFree(tbl, HALF);
      FirstFitIs(tbl, 1, 1, max);
      MultipleOne(p);
      assert LooksFree(tbl, p, 1) && Start(p, 1, 1, max);
      var r := FirstFit(tbl, 1, 1, max, 0);
      assert r.value <= p;
      assert !Seen(tbl, r.value);
    }
  }

  /** Exactly as many calls in a row are answered with free pages as there are free pages among the first 33. */
  lemma {:induction false} SuppliedIff(tbl: seq<nat>, k: nat, max: nat)
    requires HALF + 1 < max && 0 < |tbl|
    ensures Supplied(tbl, k, max) <==> k <= FreeBelow(tbl, HALF + 1)
    decreases k
  {
    hide Taken, FirstFit;
    if k != 0 {
      NextPage(tbl, max);
      var r := FirstFit(tbl, 1, 1, max, 0).value;
      assert FreeBelow(tbl, HALF + 1) == FreeBelow(tbl, HALF) + (if Taken(tbl, HALF) then 0 else 1);
      forall tbl': seq<nat> | PageMarked(tbl, tbl', r)
        ensures Supplied(tbl', k - 1, max) <==> k - 1 <= FreeBelow(tbl, HALF + 1) - (if Taken(tbl, r) then 0 else 1)
      {
        FreeBelowTaken(tbl, tbl', r, HALF + 1);
        SuppliedIff(tbl', k - 1, max);
      }
      CanMark(tbl, r);
    }
  }

  /** Marking a page that is in the bitmap can be done. */
  lemma CanMark(tbl: seq<nat>, p: nat)
    requires Idx(p) < |tbl|
    ensures exists tbl': seq<nat> :: PageMarked(tbl, tbl', p)
  {
    hide Bit;
    var j, k := Idx(p), Off(p);
    var tbl' := tbl[j := Or(tbl[j], Pow2(k))];
    forall q: nat | Idx(q) < |tbl|
      ensures Taken(tbl', q) == if p <= q < p + 1 then true else Taken(tbl, q)
    {
      if Idx(q) == j {
        OrBit(tbl[j], Pow2(k), Off(q));
        OneBit(k, Off(q));
      }
    }
    assert PageMarked(tbl, tbl', p);
  }

  lemma {:induction false} OneBit(n: nat, i: nat)
    ensures Bit(Pow2(n), i) == if i == n then 1 else 0
  {
    if n == 0 {
      if i != 0 {
        ShrZero(i - 1);
      }
    } else if i != 0 {
      OneBit(n - 1, i - 1);
    }
  }

  // ----- which pages come next

  /** The free pages from `p` on among the first 32, in order. */
  function FreeFrom(tbl: seq<nat>, p: nat): seq<nat>
    requires 0 < |tbl|
    decreases HALF - p
  {
    if p >= HALF then [] else (if Taken(tbl, p) then [] else [p]) + FreeFrom(tbl, p + 1)
  }

  /** The next single page that is granted, when these are the low pages that are free. */
  function Granted(lows: seq<nat>): nat {
    if |lows| == 0 then HALF else lows[0]
  }

  function Later(lows: seq<nat>): seq<nat> {
    if |lows| == 0 then [] else lows[1..]
  }

  predicate LowPages(lows: seq<nat>) {
    && (forall a: nat, b: nat :: a < b < |lows| ==> lows[a] < lows[b])
    && (forall a: nat :: a < |lows| ==> lows[a] < HALF)
  }

  lemma FreeStep(tbl: seq<nat>, p: nat)
    requires 0 < |tbl| && p < HALF
    ensures Taken(tbl, p) ==> FreeFrom(tbl, p) == FreeFrom(tbl, p + 1)
    ensures !Taken(tbl, p) ==> FreeFrom(tbl, p) == [p] + FreeFrom(tbl, p + 1)
  {
    hide Taken;
  }

  lemma {:induction false} FreeFromHas(tbl: seq<nat>, p: nat)
    requires 0 < |tbl|
    ensures forall q: nat :: q in FreeFrom(tbl, p) <==> p <= q < HALF && !Taken(tbl, q)
    decreases HALF - p
  {
    hide Taken;
    if p < HALF {
      FreeFromHas(tbl, p + 1);
    }
  }

  lemma {:induction false} FreeFromLow(tbl: seq<nat>, p: nat)
    requires 0 < |tbl|
    ensures LowPages(FreeFrom(tbl, p))
    decreases HALF - p
  {
    hide Taken, FreeFrom;
    FreeFromHas(tbl, p);
    var s := FreeFrom(tbl, p);
    if p < HALF {
      var rest := FreeFrom(tbl, p + 1);
      FreeFromLow(tbl, p + 1);
      FreeStep(tbl, p);
      if !Taken(tbl, p) {
        FreeFromHas(tbl, p + 1);
        AscendingMore(p, rest);
      }
    } else {
      NoneFrom(tbl, p);
    }
  }

  lemma AscendingMore(p: nat, rest: seq<nat>)
    requires LowPages(rest) && p < HALF && forall q: nat :: q in rest ==> p < q
    ensures LowPages([p] + rest)
  {
    var s := [p] + rest;
    forall a: nat | 0 < a < |s|
      ensures s[a] == rest[a - 1] > p
    {
      assert rest[a - 1] in rest;
    }
  }

  lemma {:induction false} GrantAbove(tbl: seq<nat>, p: nat)
    requires 0 < |tbl| && p <= HALF
    ensures p <= Granted(FreeFrom(tbl, p)) <= HALF
    decreases HALF - p
  {
    hide Taken;
    if p < HALF {
      GrantAbove(tbl, p + 1);
    }
  }

  /** What is granted is free or page 32, and the pages before it are taken. */
  lemma GrantIs(tbl: seq<nat>)
    requires 0 < |tbl|
    ensures var c := Granted(FreeFrom(tbl, 0));
      && c <= HALF && (c < HALF ==> !Taken(tbl, c)) && forall q: nat :: q < c ==> Taken(tbl, q)
  {
    hide Taken, FreeFrom;
    var lows := FreeFrom(tbl, 0);
    FreeFromHas(tbl, 0);
    FreeFromLow(tbl, 0);
    if |lows| > 0 {
      assert lows[0] in lows;
    }
    forall q: nat | q < Granted(lows)
      ensures Taken(tbl, q)
    {
      assert q !in lows;
    }
  }

  /** A request for one page gets the lowest free page below 32, or page 32. */
  lemma NextGrant(tbl: seq<nat>, max: nat)
    requires HALF + 1 < max && 0 < |tbl|
    ensures FirstFit(tbl, 1, 1, max, 0) == Some(Granted(FreeFrom(tbl, 0)))
  {
    hide Taken, FirstFit, MultipleOf, FreeFrom, Granted;
    var c := Granted(FreeFrom(tbl, 0));
    GrantIs(tbl);
    FirstFitIs(tbl, 1, 1, max);
    MultipleOne(c);
    assert LooksFree(tbl, c, 1) && Start(c, 1, 1, max);
    assert forall q: nat :: q < c ==> Seen(tbl, q);
    assert forall q: nat :: LooksFree(tbl, q, 1) ==> !Seen(tbl, q);
  }

  /** Taking it leaves the other low pages as they were. */
  lemma {:induction false} GrantTaken(tbl: seq<nat>, tbl': seq<nat>, c: nat, p: nat)
    requires 0 < |tbl| && PageMarked(tbl, tbl', c) && (c < p || c == Granted(FreeFrom(tbl, p)))
    ensures FreeFrom(tbl', p) == if c < p then FreeFrom(tbl, p) else Later(FreeFrom(tbl, p))
    decreases HALF - p
  {
    hide Taken, FreeFrom, PageMarked, Later, Granted;
    SameSize(tbl, tbl', c);
    if p >= HALF {
      NoneFrom(tbl, p);
      NoneFrom(tbl', p);
    } else {
      OneMarked(tbl, tbl', c, p);
      GrantAbove(tbl, p + 1);
      FirstOrRest(p, FreeFrom(tbl, p + 1));
      FreeStep(tbl, p);
      FreeStep(tbl', p);
      GrantTaken(tbl, tbl', c, p + 1);
    }
  }

  lemma SameSize(tbl: seq<nat>, tbl': seq<nat>, c: nat)
    requires PageMarked(tbl, tbl', c)
    ensures |tbl'| == |tbl|
  {
  }

  lemma NoneFrom(tbl: seq<nat>, p: nat)
    requires 0 < |tbl| && p >= HALF
    ensures FreeFrom(tbl, p) == [] && Later([]) == []
  {
  }

  lemma FirstOrRest(p: nat, rest: seq<nat>)
    ensures Granted([p] + rest) == p && Later([p] + rest) == rest
  {
  }

  lemma OneMarked(tbl: seq<nat>, tbl': seq<nat>, c: nat, p: nat)
    requires 0 < |tbl| && PageMarked(tbl, tbl', c) && p < HALF
    ensures Taken(tbl', p) == (p == c || Taken(tbl, p))
  {
    hide Taken;
    assert Idx(p) < |tbl|;
  }
}
