/**
 gunzip and kunzip (inflate.c:1069-1176, kunzip.c:139-170) from the end of the gzip header on: inflate, the windows
 on their way to memory, and the check of the trailer, RFC 1952 section 2.3.1. The windows are replayed after the
 decoder has run. Flushing never changes what is decoded, so the C program does the same, or stays for ever in the first
 window that flush_window does not get past.
 */
module Gunzip {
  import opened BitBuffer
  import opened Bytes
  import opened Crc
  import opened Deflate
  import opened Encoder
  import opened Inflate
  import opened Regions
  import opened Scatter
  import opened Window
  import opened Words

  /** What the trailer behind a stream of `pos` bits has to say about its output. */
  predicate TrailerRight(data: seq<byte>, pos: nat, out: seq<byte>) {
    LongAt(data, (pos + 7) / 8) == Crc32(out) && LongAt(data, (pos + 7) / 8 + 4) == |out| % LONG
  }

  method ReadByte(input: Input) returns (c: byte)
    modifies input`inptr
    ensures c == ByteAt(input.inbuf, old(input.inptr))
    ensures input.inptr == old(input.inptr) + (if old(input.inptr) < |input.inbuf| then 1 else 0)
  {
    c := 0;
    if input.inptr < |input.inbuf| {
      c := input.inbuf[input.inptr];
      input.inptr := input.inptr + 1;
    }
  }

  /** inflate.c:1156-1159; the or of disjoint bytes is their sum. */
  method ReadLong(input: Input) returns (x: nat)
    modifies input`inptr
    ensures x == LongAt(input.inbuf, old(input.inptr))
    ensures old(input.inptr) <= |input.inbuf| ==>
      input.inptr == if old(input.inptr) + 4 <= |input.inbuf| then old(input.inptr) + 4 else |input.inbuf|
  {
    var b0: nat := ReadByte(input);
    var b1: nat := ReadByte(input);
    var b2: nat := ReadByte(input);
    var b3: nat := ReadByte(input);
    x := b0 + 0x100 * b1 + 0x1_0000 * b2 + 0x100_0000 * b3;
  }

  /** inflate.c:1152-1175 */
  method CheckTrailer(input: Input, crc: nat, bytesOut: nat) returns (r: int)
    modifies input`inptr
    ensures r == 0 || r == -1
    ensures var at := old(input.inptr);
      at <= |input.inbuf| ==>
        (r == 0 <==> LongAt(input.inbuf, at) == Xor(crc, 0xffff_ffff) && LongAt(input.inbuf, at + 4) == bytesOut)
  {
    hide LongAt, Xor;
    ghost var at := input.inptr;
    var origCrc := ReadLong(input);
    if at + 4 > |input.inbuf| {
      LongPastEnd(input.inbuf, |input.inbuf|, at + 4);
    }
    var origLen := ReadLong(input);
    if origCrc != Xor(crc, ONES) {
      return -1;
    }
    if origLen != bytesOut {
      return -1;
    }
    return 0;
  }

  /** An error of the decoder is never code 0. */
  lemma {:induction false} FailsNonzero(x: nat, pos: nat, out: seq<byte>, fuel: nat)
    ensures RunBlocks(x, pos, out, fuel).Fail? ==> RunBlocks(x, pos, out, fuel).code != 0
    decreases fuel
  {
    hide RunBlock, Field;
    if fuel > 0 && RunBlocks(x, pos, out, fuel).Fail? {
      BlocksStep(x, pos, out, fuel);
      var block := RunBlock(x, pos + 1, out, fuel);
      if block.Done? {
        FailsNonzero(x, block.pos, block.out, fuel - 1);
      }
    }
  }

  /** flush_window for each window in turn, as long as it ends. */
  method FlushAll(sink: Output, chunks: seq<seq<byte>>) returns (ends: bool)
    requires sink.Valid() && Small(chunks)
    modifies sink, sink.unzipRegion
    ensures sink.Valid() && sink.unzipRegion == old(sink.unzipRegion)
    ensures ends <==> EndsAll(old(sink.State()), chunks)
    ensures ends ==> sink.State() == EmitAll(old(sink.State()), Flatten(chunks))
  {
    hide EmitAll, Emit, Ends, EndsAll, Well, IsTable, Flatten;
    ghost var s := sink.State();
    NoneFlushed(s, chunks);
    var i := 0;
    while i < |chunks|
      invariant 0 <= i <= |chunks|
      invariant sink.Valid() && sink.unzipRegion == old(sink.unzipRegion)
      invariant EndsAll(s, chunks[..i]) && sink.State() == EmitAll(s, Flatten(chunks[..i]))
    {
      OneFlushed(s, chunks, i);
      ghost var k, stuck;
      ends, k, stuck := sink.FlushWindow(chunks[i]);
      if !ends {
        return;
      }
      i := i + 1;
    }
    assert chunks[..i] == chunks;
    return true;
  }

  lemma NoneFlushed(s: Sink, chunks: seq<seq<byte>>)
    requires Well(s)
    ensures EndsAll(s, chunks[..0]) && EmitAll(s, Flatten(chunks[..0])) == s
  {
    EmitNone(s, []);
  }

  /** The next window ends the row exactly when flush_window does not end for it. */
  lemma OneFlushed(s: Sink, chunks: seq<seq<byte>>, i: nat)
    requires Well(s) && i < |chunks| && Small(chunks) && EndsAll(s, chunks[..i])
    ensures |s.region| == HEADER && Well(EmitAll(s, Flatten(chunks[..i])))
    ensures EndsAll(s, chunks[..i + 1]) <==> Ends(EmitAll(s, Flatten(chunks[..i])), chunks[i])
    ensures EndsAll(s, chunks) ==> EndsAll(s, chunks[..i + 1])
    ensures EmitAll(s, Flatten(chunks[..i + 1])) == EmitAll(EmitAll(s, Flatten(chunks[..i])), chunks[i])
  {
    hide EmitAll, Emit, Ends;
    var more := chunks[..i + 1];
    assert more[..i] == chunks[..i];
    EmitCounts(s, Flatten(chunks[..i]));
    EmitSplit(s, Flatten(chunks[..i]), chunks[i]);
    if EndsAll(s, chunks) {
      EndsBefore(s, chunks, i + 1);
    }
  }

  /** All windows of the output, the last one as far as it is filled. */
  function AllWindows(out: seq<byte>): seq<seq<byte>> {
    Windows(out) + [Rest(out)]
  }

  lemma AllWindowsFlatten(out: seq<byte>)
    ensures Flatten(AllWindows(out)) == out && Small(AllWindows(out)) && Small(Windows(out))
  {
    hide Windows, Rest;
    WindowsFlatten(out);
    assert AllWindows(out)[..|AllWindows(out)| - 1] == Windows(out);
  }

  lemma StartWell(memory: map<nat, byte>)
    ensures Well(Start(memory))
  {
  }

  /** How the run ends for the sink: the windows sent before the decoder is done. */
  ghost function Sent(run: Run): seq<seq<byte>> {
    match run
    case Done(_, out) => AllWindows(out)
    case Fail(_, out) => Windows(out)
    case _ => []
  }

  /**
   `ends` says whether the C function returns at all, and `r` what: 0 for success and -1 for any error. `fuel` only
   counts steps.
   */
  method Gunzip(data: seq<byte>, memory: map<nat, byte>, ghost fuel: nat) returns (ends: bool, r: int, sink: Output)
    requires |data| < LONG
    requires Inflated(data, fuel).Done? || Inflated(data, fuel).Fail?
    ensures fresh(sink) && fresh(sink.unzipRegion) && Well(Start(memory))
    ensures ends <==> EndsAll(Start(memory), Sent(Inflated(data, fuel)))
    ensures ends ==> sink.State() == EmitAll(Start(memory), Flatten(Sent(Inflated(data, fuel))))
    ensures ends ==> r == 0 || r == -1
    ensures ends ==> match Inflated(data, fuel)
      case Done(pos, out) => (pos + 7) / 8 + 2 <= |data| ==> (r == 0 <==> TrailerRight(data, pos, out))
      case _ => r == -1
  {
    hide EmitAll, EndsAll, Xor, CrcOf, LongAt, Mirrors, Full, Small, IsTable, RunBlocks, Flatten, Holds, Windows, Rest, Well;
    sink := new Output(memory);
    StartWell(memory);
    var inflater := new Inflater(data);
    ghost var run := Inflated(data, fuel);
    FailsNonzero(Stream(data), 0, [], fuel);
    AllWindowsFlatten(run.out);
    var e := inflater.Inflate(fuel);
    r := -1;
    ends := FlushAll(sink, inflater.win.flushed);
    if ends && e == 0 {
      EmitCounts(Start(memory), run.out);
      r := CheckTrailer(inflater.input, sink.crc, sink.bytesOut);
    }
  }

  /** A compressed image with the right trailer is unpacked to where its headers say. */
  method Kunzip(data: seq<byte>, memory: map<nat, byte>, ghost segs: seq<Segment>, ghost pos: nat, ghost fuel: nat)
    returns (ends: bool, r: int, sink: Output)
    requires |data| < LONG && Inflated(data, fuel) == Done(pos, Image(segs, 0))
    requires (pos + 7) / 8 + 2 <= |data| && TrailerRight(data, pos, Image(segs, 0)) && AllLoadable(segs)
    ensures ends && r == 0 && sink.mem == Place(memory, segs)
  {
    hide EmitAll, Emit, EndsAll, Place, Image, AllWindows, Roomy, Inflated, TrailerRight;
    AllWindowsFlatten(Image(segs, 0));
    ImageLoads(Start(memory), segs);
    RoomyEnds(Start(memory), AllWindows(Image(segs, 0)));
    ends, r, sink := Gunzip(data, memory, fuel);
  }

  // ----- a stream on which the program stays for ever

  /** Output that begins with a header whose end lies inside it, and goes on. */
  lemma HeaderStops(memory: map<nat, byte>, start: nat, end: nat, more: seq<byte>)
    requires start < LONG && end < HEADER && 0 < |more|
    ensures Well(Start(memory))
    ensures var out := HeaderBytes(start, end) + more;
      && !EndsAll(Start(memory), AllWindows(out))
      && (|out| >= WSIZE ==> !EndsAll(Start(memory), Windows(out)))
  {
    hide EmitAll, Emit, Ends, HeaderBytes, Flatten;
    StartWell(memory);
    var s, out := Start(memory), HeaderBytes(start, end) + more;
    var all := AllWindows(out);
    FirstWindow(out);
    var n := if |out| >= WSIZE then WSIZE else |out|;
    assert all[0] == out[..n] == HeaderBytes(start, end) + more[..n - HEADER];
    HeaderBehind(memory, start, end, more[..n - HEADER]);
    assert all[..1] == [all[0]] && all[..1][..0] == all[..0];
    NoneFlushed(s, all);
    assert !EndsAll(s, all[..1]);
    StopsAll(s, all, 1);
    if |out| >= WSIZE {
      assert Windows(out)[..1] == all[..1];
      StopsAll(s, Windows(out), 1);
    }
  }

  lemma {:induction false} WindowsCount(out: seq<byte>, k: nat)
    requires WSIZE * k <= |out|
    ensures |WindowsOf(out, k)| == k && (k > 0 ==> WindowsOf(out, k)[0] == out[..WSIZE])
  {
    if k > 1 {
      WindowsCount(out, k - 1);
    }
  }

  lemma FirstWindow(out: seq<byte>)
    ensures var n := if |out| >= WSIZE then WSIZE else |out|;
      |AllWindows(out)| > 0 && AllWindows(out)[0] == out[..n] && (|out| >= WSIZE ==> |Windows(out)| > 0)
  {
    WindowsCount(out, |out| / WSIZE);
  }

  /** Nine zeros in one stored block: all is well with the stream, and gunzip does not return. */
  lemma StreamHangs(memory: map<nat, byte>, tail: seq<byte>)
    ensures var out := HeaderBytes(0, 0) + [0];
      var data := Compressed(StoredBlocks(out)) + tail;
      && Inflated(data, StepsNeeded(StoredBlocks(out))).Done?
      && Well(Start(memory)) && !EndsAll(Start(memory), Sent(Inflated(data, StepsNeeded(StoredBlocks(out)))))
  {
    hide Inflated, Compressed, StoredBlocks, StepsNeeded, EndsAll, AllWindows, ExpandBlocks, StreamPieces, Width;
    var out := HeaderBytes(0, 0) + [0];
    var bs := StoredBlocks(out);
    StoredExpand(out, []);
    assert [] + out == out;
    StreamRoundTrip(bs, tail, StepsNeeded(bs));
    HeaderStops(memory, 0, 0, [0]);
  }

  // ----- files that are unpacked

  /** A stream and its trailer. */
  function FileOf(bs: seq<Block>): seq<byte>
    requires BlocksOk(bs)
  {
    Compressed(bs) + (LongBytes(Crc32(ExpandBlocks(bs, []))) + LongBytes(|ExpandBlocks(bs, [])| % LONG))
  }

  /** However an image has been compressed, with its trailer it is what Kunzip asks for. */
  lemma FileRight(bs: seq<Block>)
    requires BlocksOk(bs)
    ensures var out := ExpandBlocks(bs, []);
      var r := Inflated(FileOf(bs), StepsNeeded(bs));
      r.Done? && r.out == out && (r.pos + 7) / 8 + 2 <= |FileOf(bs)| && TrailerRight(FileOf(bs), r.pos, out)
  {
    hide Inflated, Compressed, StepsNeeded, ExpandBlocks, StreamPieces, Width, Crc32, LongAt, BlocksOk, LongBytes;
    var out := ExpandBlocks(bs, []);
    var (a, b) := (LongBytes(Crc32(out)), LongBytes(|out| % LONG));
    var n := |Compressed(bs)|;
    StreamRoundTrip(bs, a + b, StepsNeeded(bs));
    Crc32Bound(out);
    LongBehind(Compressed(bs), Crc32(out), b);
    LongBehind(Compressed(bs) + a, |out| % LONG, []);
    assert Compressed(bs) + (a + b) == Compressed(bs) + a + b == Compressed(bs) + a + b + [];
  }

  lemma LongBehind(front: seq<byte>, x: nat, back: seq<byte>)
    requires x < LONG
    ensures LongAt(front + LongBytes(x) + back, |front|) == x
  {
    hide LongBytes, Long;
    var s := front + LongBytes(x) + back;
    var four := [ByteAt(s, |front|), ByteAt(s, |front| + 1), ByteAt(s, |front| + 2), ByteAt(s, |front| + 3)];
    LongOfBytes(x, four, 0);
  }

  /** So there is a file for every list of regions, as long as it is shorter than 4 GiB; here with stored blocks. */
  lemma FileForImage(segs: seq<Segment>)
    ensures var bs := StoredBlocks(Image(segs, 0));
      var r := Inflated(FileOf(bs), StepsNeeded(bs));
      r.Done? && r.out == Image(segs, 0) && (r.pos + 7) / 8 + 2 <= |FileOf(bs)|
      && TrailerRight(FileOf(bs), r.pos, Image(segs, 0))
  {
    hide Inflated, Image, StoredBlocks, ExpandBlocks, FileOf, TrailerRight, StepsNeeded;
    StoredExpand(Image(segs, 0), []);
    assert [] + Image(segs, 0) == Image(segs, 0);
    FileRight(StoredBlocks(Image(segs, 0)));
  }
}
