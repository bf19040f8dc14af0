/**
 What the scattering of flush_window (kunzip.c:98-136) is for: an image of any number of regions, each preceded by a
 header with its address and the stream offset of its end, comes out with every region's bytes at its address.
 */
module Regions {
  import opened Bytes
  import opened Crc
  import opened Scatter
  import opened Window
  import opened Words

  datatype Segment = Segment(start: nat, data: seq<byte>)

  /** struct unzip_region, kunzip.c:82-85 */
  function HeaderBytes(start: nat, end: nat): (h: seq<byte>)
    ensures |h| == HEADER
  {
    LongBytes(start) + LongBytes(end)
  }

  lemma HeaderLongs(start: nat, end: nat)
    requires start < LONG && end < LONG
    ensures Long(HeaderBytes(start, end), 0) == start && Long(HeaderBytes(start, end), 4) == end
  {
    LongOfBytes(start, HeaderBytes(start, end), 0);
    LongOfBytes(end, HeaderBytes(start, end), 4);
  }

  /** The stream offset behind a segment that starts, with its header, at `at`; offsets have 32 bits. */
  function EndOf(seg: Segment, at: nat): nat {
    (at + HEADER + |seg.data|) % LONG
  }

  /** The address has 32 bits, and the data stays a window's width below that. */
  predicate Loadable(seg: Segment) {
    seg.start < LONG && |seg.data| + WSIZE <= LONG
  }

  function OneImage(seg: Segment, at: nat): (s: seq<byte>)
    ensures |s| == HEADER + |seg.data|
  {
    HeaderBytes(seg.start, EndOf(seg, at)) + seg.data
  }

  /** The image, from stream offset `at` on. */
  function Image(segs: seq<Segment>, at: nat): seq<byte> {
    if |segs| == 0 then [] else OneImage(segs[0], at) + Image(segs[1..], EndOf(segs[0], at))
  }

  function PlaceBytes(mem: map<nat, byte>, start: nat, data: seq<byte>): map<nat, byte> {
    if |data| == 0 then mem
    else PlaceBytes(mem, start, data[..|data| - 1])[start + (|data| - 1) := data[|data| - 1]]
  }

  function Place(mem: map<nat, byte>, segs: seq<Segment>): map<nat, byte>
    decreases |segs|
  {
    if |segs| == 0 then mem else Place(PlaceBytes(mem, segs[0].start, segs[0].data), segs[1..])
  }

  // ----- what placing means

  predicate Covers(seg: Segment, a: nat) {
    seg.start <= a < seg.start + |seg.data|
  }

  lemma {:induction false} PlacedOne(mem: map<nat, byte>, start: nat, data: seq<byte>, a: nat)
    ensures Covers(Segment(start, data), a) ==>
      a in PlaceBytes(mem, start, data) && PlaceBytes(mem, start, data)[a] == data[a - start]
    ensures !Covers(Segment(start, data), a) ==> SameAt(PlaceBytes(mem, start, data), mem, a)
  {
    if |data| != 0 {
      PlacedOne(mem, start, data[..|data| - 1], a);
    }
  }

  predicate SameAt(m: map<nat, byte>, m': map<nat, byte>, a: nat) {
    (a in m <==> a in m') && (a in m && a in m' ==> m[a] == m'[a])
  }

  /** An address that no segment covers keeps what it had. */
  lemma {:induction false} PlacedElsewhere(mem: map<nat, byte>, segs: seq<Segment>, a: nat)
    requires forall i :: 0 <= i < |segs| ==> !Covers(segs[i], a)
    ensures SameAt(Place(mem, segs), mem, a)
    decreases |segs|
  {
    if |segs| != 0 {
      PlacedOne(mem, segs[0].start, segs[0].data, a);
      PlacedElsewhere(PlaceBytes(mem, segs[0].start, segs[0].data), segs[1..], a);
    }
  }

  /** Every other address has its byte from the last segment that covers it. */
  lemma {:induction false} PlacedLast(mem: map<nat, byte>, segs: seq<Segment>, i: nat, a: nat)
    requires i < |segs| && Covers(segs[i], a)
    requires forall j :: i < j < |segs| ==> !Covers(segs[j], a)
    ensures a in Place(mem, segs) && Place(mem, segs)[a] == segs[i].data[a - segs[i].start]
    decreases |segs|
  {
    var m := PlaceBytes(mem, segs[0].start, segs[0].data);
    if i == 0 {
      PlacedOne(mem, segs[0].start, segs[0].data, a);
      PlacedElsewhere(m, segs[1..], a);
    } else {
      PlacedLast(m, segs[1..], i - 1, a);
    }
  }

  // ----- one segment through the sink

  lemma {:induction false} PourAt(s: Sink, data: seq<byte>)
    requires s.ptr.At?
    ensures Pour(s, data).ptr == At(s.ptr.addr + |data|) && Pour(s, data).mem == PlaceBytes(s.mem, s.ptr.addr, data)
  {
    hide CrcByte;
    if |data| != 0 {
      PourAt(s, data[..|data| - 1]);
    }
  }

  lemma {:induction false} PourHeader(s: Sink, data: seq<byte>)
    requires s.ptr == Header(0) && |s.region| == HEADER && |data| <= HEADER
    ensures Pour(s, data).ptr == Header(|data|) && Pour(s, data).mem == s.mem
    ensures |Pour(s, data).region| == HEADER && Pour(s, data).region[..|data|] == data
  {
    hide CrcByte;
    if |data| != 0 {
      PourHeader(s, data[..|data| - 1]);
    }
  }

  /** Between segments: a header comes next. */
  ghost predicate Boundary(s: Sink) {
    Well(s) && (s.ptr == Header(0) || (s.ptr.At? && s.bytesOut == s.endOffset))
  }

  lemma {:induction false} RoomyStretch(s: Sink, data: seq<byte>)
    requires Well(s) && |data| <= Left(s) && Left(s) + WSIZE <= LONG
    ensures Roomy(s, data)
    decreases |data|
  {
    hide Emit;
    if |data| != 0 {
      EmitWell(s, data[0]);
      if |data| > 1 {
        RoomyStretch(Emit(s, data[0]), data[1..]);
      }
    }
  }

  lemma HeaderIn(s: Sink, start: nat, end: nat)
    requires Boundary(s) && start < LONG && end < LONG
    ensures var t := EmitAll(s, HeaderBytes(start, end));
      && Well(t) && t.ptr == At(start) && t.endOffset == end && t.bytesOut == Wrap(s.bytesOut + HEADER)
      && t.mem == s.mem && Roomy(s, HeaderBytes(start, end))
  {
    hide Store, Emit, Pour, EmitAll, HeaderBytes, Roomy, Long;
    var h := HeaderBytes(start, end);
    var s' := Due(s);
    if s.bytesOut == s.endOffset {
      EmitPending(s, h);
    }
    EmitStretch(s', h);
    PourHeader(s', h);
    PourCounts(s', h);
    EmitCounts(s', h);
    HeaderLongs(start, end);
    assert Pour(s', h).region == h;
    RoomyStretch(s', h);
    SameRun(s, h);
  }

  lemma SameRun(s: Sink, data: seq<byte>)
    requires Boundary(s) && |data| > 0 && Well(Due(s)) && Roomy(Due(s), data)
    ensures Roomy(s, data)
  {
    hide Store, Emit;
    if s.bytesOut == s.endOffset {
      EmitPending(s, data);
    }
  }

  lemma BodyIn(u: Sink, data: seq<byte>)
    requires Well(u) && u.ptr.At? && Left(u) == |data| && |data| + WSIZE <= LONG
    ensures var t := EmitAll(u, data);
      Boundary(t) && t.mem == PlaceBytes(u.mem, u.ptr.addr, data) && t.bytesOut == u.endOffset && Roomy(u, data)
  {
    hide Store, Emit, Pour, EmitAll, Roomy;
    if |data| == 0 {
      EmitNone(u, data);
    } else {
      EmitStretch(u, data);
      PourAt(u, data);
      PourCounts(u, data);
      EmitCounts(u, data);
    }
    RoomyStretch(u, data);
  }

  lemma SegmentIn(s: Sink, seg: Segment)
    requires Boundary(s) && Loadable(seg)
    ensures var t := EmitAll(s, OneImage(seg, s.bytesOut));
      && Boundary(t) && t.mem == PlaceBytes(s.mem, seg.start, seg.data) && t.bytesOut == EndOf(seg, s.bytesOut)
      && Roomy(s, OneImage(seg, s.bytesOut))
  {
    hide Emit, EmitAll, Roomy, PlaceBytes, HeaderBytes;
    var end := EndOf(seg, s.bytesOut);
    var h := HeaderBytes(seg.start, end);
    HeaderIn(s, seg.start, end);
    EndLeft(s.bytesOut, |seg.data|);
    BodyIn(EmitAll(s, h), seg.data);
    EmitSplit(s, h, seg.data);
    RoomySplit(s, h, seg.data);
  }

  lemma EndLeft(at: nat, n: nat)
    requires at < LONG && n < LONG
    ensures var out, end := Wrap(at + HEADER), (at + HEADER + n) % LONG;
      n == if out <= end then end - out else end + LONG - out
  {
    var x := at + HEADER + n;
    if x >= 2 * LONG {
      assert x % LONG == x - 2 * LONG;
    } else if x >= LONG {
      assert x % LONG == x - LONG;
    }
  }

  // ----- the whole image

  predicate AllLoadable(segs: seq<Segment>) {
    forall seg :: seg in segs ==> Loadable(seg)
  }

  /** An image comes out with each region in its place, and no header in it stops flush_window, however it is cut. */
  lemma {:induction false} ImageLoads(s: Sink, segs: seq<Segment>)
    requires Boundary(s) && AllLoadable(segs)
    ensures Roomy(s, Image(segs, s.bytesOut)) && EmitAll(s, Image(segs, s.bytesOut)).mem == Place(s.mem, segs)
    decreases |segs|
  {
    hide Emit, PlaceBytes, OneImage, Loadable;
    if |segs| != 0 {
      hide EmitAll, Roomy;
      var at := s.bytesOut;
      var first, rest := OneImage(segs[0], at), Image(segs[1..], EndOf(segs[0], at));
      SegmentIn(s, segs[0]);
      ImageLoads(EmitAll(s, first), segs[1..]);
      EmitSplit(s, first, rest);
      RoomySplit(s, first, rest);
    }
  }

  // ----- a header that stops flush_window

  /** A first header with an end inside itself: the loop never gets past it in a window that goes on. */
  lemma HeaderBehind(memory: map<nat, byte>, start: nat, end: nat, more: seq<byte>)
    requires start < LONG && end < HEADER && 0 < |more| <= WSIZE - HEADER
    ensures !Ends(Start(memory), HeaderBytes(start, end) + more)
  {
    hide Store, Emit, Pour, EmitAll, HeaderBytes, Proper, Ends, Place;
    var s, h := Start(memory), HeaderBytes(start, end);
    var window := h + more;
    HeaderIn(s, start, end);
    assert window[0..HEADER] == h;
    ProperStretch(s, window, 0, HEADER);
    StuckProper(EmitAll(s, h), window, HEADER);
    FlushEndsIff(s, window);
  }
}
