/**
 The sliding window of inflate.c: a circular buffer of 32768 bytes, handed to flush_window whenever it is full
 (inflate.c:165-166, 552-611). `w` is the local copy of the position that the C routines keep.
 */
module Window {
  import opened Bytes
  import opened Deflate

  const WSIZE: nat := 0x8000

  function Flatten(chunks: seq<seq<byte>>): seq<byte> {
    if |chunks| == 0 then [] else Flatten(chunks[..|chunks| - 1]) + chunks[|chunks| - 1]
  }

  /** No more than a window at a time. */
  ghost predicate Small(chunks: seq<seq<byte>>) {
    forall c :: c in chunks ==> |c| <= WSIZE
  }

  ghost predicate Full(chunks: seq<seq<byte>>) {
    forall c :: c in chunks ==> |c| == WSIZE
  }

  /** The first `k` windows of the output, full ones. */
  function WindowsOf(out: seq<byte>, k: nat): seq<seq<byte>>
    requires WSIZE * k <= |out|
  {
    if k == 0 then [] else WindowsOf(out, k - 1) + [out[WSIZE * (k - 1)..WSIZE * k]]
  }

  /** The output so far cut into the windows that are full. */
  function Windows(out: seq<byte>): seq<seq<byte>> {
    WindowsOf(out, |out| / WSIZE)
  }

  /** ... and what is in the window that is not. */
  function Rest(out: seq<byte>): (r: seq<byte>)
    ensures |r| < WSIZE
  {
    out[WSIZE * (|out| / WSIZE)..]
  }

  lemma {:induction false} WindowsOfFlatten(out: seq<byte>, k: nat)
    requires WSIZE * k <= |out|
    ensures Flatten(WindowsOf(out, k)) == out[..WSIZE * k] && Full(WindowsOf(out, k))
  {
    if k != 0 {
      WindowsOfFlatten(out, k - 1);
      var w := WindowsOf(out, k);
      assert w[..|w| - 1] == WindowsOf(out, k - 1);
      assert out[..WSIZE * (k - 1)] + out[WSIZE * (k - 1)..WSIZE * k] == out[..WSIZE * k];
    }
  }

  /** The cut loses nothing, and its windows are full. */
  lemma WindowsFlatten(out: seq<byte>)
    ensures Flatten(Windows(out)) + Rest(out) == out && Full(Windows(out))
    ensures (forall c :: c in Windows(out) ==> |c| == 0x8000) && |Rest(out)| < 0x8000
  {
    WindowsOfFlatten(out, |out| / WSIZE);
  }

  /** Full windows lie WSIZE apart. */
  lemma {:induction false} WindowAt(chunks: seq<seq<byte>>, k: nat)
    requires Full(chunks) && k < |chunks|
    ensures |Flatten(chunks)| == WSIZE * |chunks|
    ensures Flatten(chunks)[WSIZE * k..WSIZE * (k + 1)] == chunks[k]
  {
    var last := |chunks| - 1;
    FullLength(chunks);
    FullLength(chunks[..last]);
    if k < last {
      WindowAt(chunks[..last], k);
      assert Flatten(chunks)[WSIZE * k..WSIZE * (k + 1)] == Flatten(chunks[..last])[WSIZE * k..WSIZE * (k + 1)];
    }
  }

  lemma {:induction false} FullLength(chunks: seq<seq<byte>>)
    requires Full(chunks)
    ensures |Flatten(chunks)| == WSIZE * |chunks|
  {
    if |chunks| != 0 {
      FullLength(chunks[..|chunks| - 1]);
    }
  }

  lemma {:induction false} WindowsOfAre(out: seq<byte>, chunks: seq<seq<byte>>, k: nat)
    requires Full(chunks) && k <= |chunks| && |Flatten(chunks)| <= |out| && out[..|Flatten(chunks)|] == Flatten(chunks)
    ensures WSIZE * k <= |out| && WindowsOf(out, k) == chunks[..k]
  {
    hide Flatten, Full;
    FullLength(chunks);
    if k != 0 {
      WindowsOfAre(out, chunks, k - 1);
      WindowAt(chunks, k - 1);
      assert out[WSIZE * (k - 1)..WSIZE * k] == out[..|Flatten(chunks)|][WSIZE * (k - 1)..WSIZE * k];
      assert chunks[..k] == chunks[..k - 1] + [chunks[k - 1]];
    }
  }

  /** There is one way to cut the output into full windows and a rest. */
  lemma WindowsAre(chunks: seq<seq<byte>>, tail: seq<byte>)
    requires Full(chunks) && |tail| < WSIZE
    ensures Windows(Flatten(chunks) + tail) == chunks && Rest(Flatten(chunks) + tail) == tail
  {
    hide Flatten, Full, WindowsOf;
    var out := Flatten(chunks) + tail;
    FullLength(chunks);
    LengthParts(|chunks|, |tail|);
    WindowsOfAre(out, chunks, |chunks|);
    assert chunks[..|chunks|] == chunks;
  }

  lemma LengthParts(k: nat, r: nat)
    requires r < WSIZE
    ensures (WSIZE * k + r) / WSIZE == k
  {
  }

  /** Beyond `w` the buffer still has what was sent last: it holds the WSIZE bytes before the write position. */
  ghost predicate Mirrors(slide: seq<byte>, w: nat, sent: seq<byte>) {
    && |slide| == WSIZE && w <= WSIZE
    && forall i :: w <= i < WSIZE ==> slide[i] == History(sent, |sent| + i - WSIZE)
  }

  /** Where the byte `dist` positions back is kept. */
  function Source(w: nat, dist: nat): nat
    requires w < WSIZE && 1 <= dist <= WSIZE
  {
    if dist <= w then w - dist else w + WSIZE - dist
  }

  /** The slot at Source holds that byte. */
  lemma SourceByte(slide: seq<byte>, w: nat, sent: seq<byte>, dist: nat)
    requires Mirrors(slide, w, sent) && w < WSIZE && 1 <= dist <= WSIZE
    ensures Source(w, dist) < WSIZE
    ensures slide[Source(w, dist)] == History(sent + slide[..w], |sent| + w - dist)
  {
  }

  /** A match is copied one byte at a time, or in two stretches. */
  lemma {:induction false} CopySplit(out: seq<byte>, dist: nat, m: nat, n: nat)
    ensures CopyMatch(CopyMatch(out, dist, m), dist, n) == CopyMatch(out, dist, m + n)
    decreases m
  {
    if m != 0 {
      CopySplit(out + [History(out, |out| - dist)], dist, m - 1, n);
    }
  }

  lemma CopyNone(out: seq<byte>, dist: nat)
    ensures CopyMatch(out, dist, 0) == out
  {
  }

  lemma CopyOne(out: seq<byte>, dist: nat, n: nat)
    ensures CopyMatch(out, dist, n + 1)
         == CopyMatch(out, dist, n) + [History(CopyMatch(out, dist, n), |out| + n - dist)]
  {
    CopySplit(out, dist, n, 1);
    var r := CopyMatch(out, dist, n);
    assert CopyMatch(r, dist, 1) == r + [History(r, |r| - dist)];
  }

  /** `after` is `before` with the `e` bytes from `d` copied to `w`. */
  ghost predicate Copied(before: seq<byte>, after: seq<byte>, w: nat, d: nat, e: nat) {
    && |before| == |after| && w + e <= |before| && d + e <= |before|
    && forall i {:trigger after[i]} :: 0 <= i < |before| ==>
         after[i] == if w <= i < w + e then before[d + (i - w)] else before[i]
  }

  /** memcpy of `e` bytes that are all in place beforehand is the byte-at-a-time copy. */
  lemma {:induction false} BlockCopy(before: seq<byte>, after: seq<byte>, w: nat, e: nat, sent: seq<byte>, dist: nat)
    requires |before| == WSIZE && Mirrors(before, w, sent) && w < WSIZE && 1 <= dist <= WSIZE
    requires Copied(before, after, w, Source(w, dist), e) && (Source(w, dist) + e <= w || w <= Source(w, dist))
    ensures Mirrors(after, w + e, sent)
    ensures sent + after[..w + e] == CopyMatch(sent + before[..w], dist, e)
    decreases e
  {
    hide CopyMatch, History, Mirrors;
    var d, out := Source(w, dist), sent + before[..w];
    CopyNone(out, dist);
    if e == 0 {
      assert after == before;
    } else {
      var mid := after[w + e - 1 := before[w + e - 1]];
      CopiedLess(before, after, w, d, e);
      BlockCopy(before, mid, w, e - 1, sent, dist);
      CopyOne(out, dist, e - 1);
      LastByte(before, mid, w, e, sent, dist);
      OneMore(mid, after, w + (e - 1), sent);
    }
  }

  /** Writing one byte at the position moves the position on. */
  lemma OneMore(mid: seq<byte>, after: seq<byte>, w: nat, sent: seq<byte>)
    requires Mirrors(mid, w, sent) && w < WSIZE && |after| == WSIZE && mid == after[w := mid[w]]
    ensures Mirrors(after, w + 1, sent)
    ensures sent + after[..w + 1] == (sent + mid[..w]) + [after[w]]
  {
    assert after[..w + 1] == mid[..w] + [after[w]];
    forall i | w < i < WSIZE
      ensures after[i] == History(sent, |sent| + i - WSIZE)
    {
      assert mid[i] == after[i];
    }
  }

  lemma CopiedLess(before: seq<byte>, after: seq<byte>, w: nat, d: nat, e: nat)
    requires e > 0 && Copied(before, after, w, d, e)
    ensures Copied(before, after[w + e - 1 := before[w + e - 1]], w, d, e - 1)
    ensures after[w + e - 1] == before[d + e - 1]
  {
  }

  /** The last byte of the block is the one the byte-at-a-time rule wants, all others being in place. */
  lemma LastByte(before: seq<byte>, mid: seq<byte>, w: nat, e: nat, sent: seq<byte>, dist: nat)
    requires e > 0 && Mirrors(before, w, sent) && w < WSIZE && 1 <= dist <= WSIZE
    requires Copied(before, mid, w, Source(w, dist), e - 1) && w + e <= WSIZE && Source(w, dist) + e <= WSIZE
    requires Source(w, dist) + e <= w || w <= Source(w, dist)
    ensures before[Source(w, dist) + e - 1] == History(sent + mid[..w + (e - 1)], |sent| + w + e - 1 - dist)
  {
    var d, r := Source(w, dist), sent + mid[..w + (e - 1)];
    if d + e <= w {
      assert mid[d + e - 1] == before[d + e - 1];
      assert r[|sent| + (d + e - 1)] == mid[d + e - 1];
    } else {
      assert before[d + e - 1] == History(sent, |sent| + (d + e - 1) - WSIZE);
    }
  }

  class Buffer {
    const slide: array<byte>
    var outcnt: nat
    var flushed: seq<seq<byte>> // the windows passed to flush_window so far

    constructor ()
      ensures fresh(slide) && Valid(0) && flushed == [] && outcnt == 0
    {
      slide := new byte[WSIZE](_ => 0);
      outcnt, flushed := 0, [];
    }

    ghost function Sent(): seq<byte>
      reads this
    {
      Flatten(flushed)
    }

    ghost predicate Filling(w: nat)
      reads this, slide
    {
      slide.Length == WSIZE && Mirrors(slide[..], w, Sent()) && Full(flushed)
    }

    ghost predicate Valid(w: nat)
      reads this, slide
    {
      w < WSIZE && Filling(w)
    }

    /** All output so far. */
    ghost function Out(w: nat): seq<byte>
      requires Filling(w)
      reads this, slide
    {
      Sent() + slide[..][..w]
    }

    /** The windows sent so far are the full ones of the output. */
    lemma SentAre(w: nat)
      requires Valid(w)
      ensures flushed == Windows(Out(w)) && slide[..w] == Rest(Out(w))
    {
      WindowsAre(flushed, slide[..][..w]);
    }

    /** flush_output(w) */
    method FlushOutput(w: nat)
      requires w <= slide.Length == WSIZE && Full(flushed)
      modifies this
      ensures w == WSIZE ==> Full(flushed)
      ensures outcnt == 0 && flushed == old(flushed) + [slide[..w]]
      ensures Sent() == old(Sent()) + slide[..w]
    {
      flushed := flushed + [slide[..w]];
      assert flushed[..|flushed| - 1] == old(flushed);
      outcnt := 0;
    }

    /** inflate.c:556-560, 605-609, 662-666 */
    method FlushIfFull(w0: nat) returns (w: nat)
      requires Filling(w0)
      modifies this
      ensures w == (if w0 == WSIZE then 0 else w0) && Valid(w) && Out(w) == old(Out(w0))
    {
      w := w0;
      if w == WSIZE {
        FlushOutput(w);
        w := 0;
        assert slide[..WSIZE] == slide[..];
      }
    }

    /** inflate.c:554-560: one byte of output. */
    method Put(w0: nat, c: byte) returns (w: nat)
      requires Valid(w0)
      modifies this, slide
      ensures Valid(w) && Out(w) == old(Out(w0)) + [c]
    {
      ghost var before := slide[..];
      slide[w0] := c;
      assert slide[..] == before[w0 := c];
      assert slide[..][..w0 + 1] == before[..w0] + [c];
      w := FlushIfFull(w0 + 1);
    }

    /** memcpy.c:2-10: the source is read before it is overwritten, as the two ranges are apart or it lies ahead. */
    method MemCpy(dst: nat, src: nat, n: nat)
      requires dst + n <= slide.Length && src + n <= slide.Length && (src + n <= dst || dst <= src)
      modifies slide
      ensures Copied(old(slide[..]), slide[..], dst, src, n)
    {
      var i := 0;
      while i < n
        invariant i <= n
        invariant Copied(old(slide[..]), slide[..], dst, src, i)
      {
        slide[dst + i] := slide[src + i];
        i := i + 1;
      }
    }

    /** inflate.c:601-604: when the match overlaps itself, one byte after the other. */
    method SlowCopy(w0: nat, d0: nat, e0: nat, ghost dist: nat)
      requires Valid(w0) && 1 <= dist <= WSIZE && d0 == Source(w0, dist)
      requires w0 + e0 <= WSIZE && d0 + e0 <= WSIZE
      modifies slide
      ensures Filling(w0 + e0) && Out(w0 + e0) == CopyMatch(old(Out(w0)), dist, e0)
    {
      hide CopyMatch, Flatten;
      var w, d, e := w0, d0, e0;
      ghost var out := Out(w0);
      CopyNone(out, dist);
      while e > 0
        invariant 0 <= e <= e0 && w == w0 + (e0 - e) && d == d0 + (e0 - e)
        invariant Filling(w) && Out(w) == CopyMatch(out, dist, e0 - e)
      {
        ghost var before := slide[..];
        CopyOne(out, dist, e0 - e);
        SourceByte(before, w, Sent(), dist);
        assert d == Source(w, dist);
        slide[w] := slide[d];
        assert slide[..] == before[w := before[d]];
        assert slide[..][..w + 1] == before[..w] + [before[d]];
        w, d, e := w + 1, d + 1, e - 1;
      }
    }

    /** inflate.c:592-604: a stretch that neither index runs off the end of. */
    method CopyStretch(w: nat, d: nat, e: nat, ghost back: nat)
      requires Valid(w) && 1 <= back <= WSIZE && d == Source(w, back) && w + e <= WSIZE && d + e <= WSIZE
      modifies slide
      ensures Filling(w + e) && Out(w + e) == CopyMatch(old(Out(w)), back, e)
    {
      hide CopyMatch, Flatten, History, Full;
      if d > w || w - d >= e { // w - d >= e as an unsigned comparison
        ghost var before := slide[..];
        MemCpy(w, d, e);
        BlockCopy(before, slide[..], w, e, Sent(), back);
      } else {
        SlowCopy(w, d, e, back);
      }
    }

    /** inflate.c:589-610: copy `n0` bytes from `back` positions back, `d0` being the unreduced C index. */
    method CopyBack(w0: nat, d0: nat, n0: nat, ghost back: nat) returns (w: nat)
      requires Valid(w0) && 1 <= back <= WSIZE && n0 > 0 && d0 % WSIZE == Source(w0, back)
      modifies this, slide
      ensures Valid(w) && Out(w) == CopyMatch(old(Out(w0)), back, n0)
    {
      hide CopyMatch, Flatten, Mirrors, Copied, History, Full;
      w := w0;
      var d, n := d0, n0;
      ghost var out := Out(w0);
      CopyNone(out, back);
      while n > 0
        invariant 0 <= n <= n0 && Valid(w) && d % WSIZE == Source(w, back)
        invariant Out(w) == CopyMatch(out, back, n0 - n)
      {
        d := d % WSIZE; // d &= WSIZE-1
        var most := WSIZE - (if d > w then d else w);
        var e := if most > n then n else most;
        n := n - e;
        CopyStretch(w, d, e, back);
        CopySplit(out, back, n0 - n - e, e);
        SourceMoves(w, d, e, back);
        w, d := w + e, d + e;
        w := FlushIfFull(w);
      }
    }
  }

  /** Both indices move together around the buffer. */
  lemma SourceMoves(w: nat, d: nat, e: nat, dist: nat)
    requires w < WSIZE && 1 <= dist <= WSIZE && d == Source(w, dist) && w + e <= WSIZE && d + e <= WSIZE
    ensures (d + e) % WSIZE == Source(if w + e == WSIZE then 0 else w + e, dist)
  {
  }
}
