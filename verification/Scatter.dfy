/**
 The output side of kunzip.c: flush_window (lines 98-136) takes the decompressed windows, keeps the CRC, and scatters
 the bytes over memory. The stream alternates between an 8-byte header, read into unzip_region, and the bytes that go
 to the address it names. As on i386 a long is four bytes, lowest first. Memory that a header names is taken to
 be apart from the decompressor's own.
 */
module Scatter {
  import opened Bytes
  import opened Crc
  import opened Window
  import opened Words

  /** output_ptr: inside unzip_region, or at an address. */
  datatype Ptr = Header(off: nat) | At(addr: nat)

  datatype Sink = Sink(ptr: Ptr, region: seq<byte>, mem: map<nat, byte>, bytesOut: nat, endOffset: nat, crc: nat)

  const HEADER: nat := 8

  // ----- the byte-at-a-time rule

  /** A sum in an unsigned long. */
  function Wrap(x: nat): nat {
    if x >= LONG then x - LONG else x
  }

  /** The end of a header or of a region: go on with the other. */
  function Switch(s: Sink): Sink
    requires |s.region| == HEADER
  {
    if s.ptr == Header(HEADER) then s.(ptr := At(Long(s.region, 0)), endOffset := Long(s.region, 4))
    else s.(ptr := Header(0), endOffset := Wrap(s.endOffset + HEADER))
  }

  function Due(s: Sink): Sink
    requires |s.region| == HEADER
  {
    if s.bytesOut == s.endOffset then Switch(s) else s
  }

  /** One byte to where the pointer points. */
  function Store(s: Sink, b: byte): Sink {
    var t := s.(bytesOut := Wrap(s.bytesOut + 1), crc := CrcByte(s.crc, b));
    match s.ptr
    case Header(off) =>
      if off < |s.region| then t.(ptr := Header(off + 1), region := s.region[off := b]) else t.(ptr := Header(off + 1))
    case At(a) => t.(ptr := At(a + 1), mem := s.mem[a := b])
  }

  function Emit(s: Sink, b: byte): (t: Sink)
    requires |s.region| == HEADER
    ensures |t.region| == HEADER
  {
    Due(Store(Due(s), b))
  }

  function EmitAll(s: Sink, data: seq<byte>): (t: Sink)
    requires |s.region| == HEADER
    ensures |t.region| == HEADER
    decreases |data|
  {
    if |data| == 0 then s else EmitAll(Emit(s, data[0]), data[1..])
  }

  /** How many bytes the header or region still takes; an end that lies behind is reached after a wrap-around. */
  function Left(s: Sink): nat
    requires s.bytesOut < LONG
  {
    if s.bytesOut <= s.endOffset then s.endOffset - s.bytesOut else s.endOffset + LONG - s.bytesOut
  }

  /** Numbers are 32-bit ones, and part way through a header what is left is the rest of the header. */
  ghost predicate Well(s: Sink) {
    && |s.region| == HEADER && s.bytesOut < LONG && s.endOffset < LONG
    && (s.ptr.Header? ==> s.ptr.off < HEADER && Left(s) == HEADER - s.ptr.off)
  }

  lemma EmitWell(s: Sink, b: byte)
    requires Well(s)
    ensures Well(Emit(s, b)) && Emit(s, b).bytesOut == Wrap(s.bytesOut + 1) && Emit(s, b).crc == CrcByte(s.crc, b)
    ensures Left(s) > 1 ==> Left(Emit(s, b)) == Left(s) - 1
  {
    hide CrcByte, Long;
  }

  /** How the stream is cut makes no difference. */
  lemma {:induction false} EmitSplit(s: Sink, a: seq<byte>, b: seq<byte>)
    requires |s.region| == HEADER
    ensures EmitAll(s, a + b) == EmitAll(EmitAll(s, a), b)
    decreases |a|
  {
    hide Emit;
    if |a| == 0 {
      assert a + b == b;
    } else {
      assert (a + b)[1..] == a[1..] + b;
      EmitSplit(Emit(s, a[0]), a[1..], b);
    }
  }

  /** Every byte is counted and enters the CRC, in order. */
  lemma {:induction false} EmitCounts(s: Sink, data: seq<byte>)
    requires Well(s)
    ensures Well(EmitAll(s, data)) && EmitAll(s, data).crc == CrcOf(s.crc, data)
    ensures EmitAll(s, data).bytesOut == (s.bytesOut + |data|) % LONG
    decreases |data|
  {
    hide Emit, CrcByte;
    if |data| != 0 {
      EmitWell(s, data[0]);
      EmitCounts(Emit(s, data[0]), data[1..]);
      CrcSplit(s.crc, data[..1], data[1..]);
      assert data == data[..1] + data[1..];
      OneByte(s.crc, data[0]);
      assert data[..1] == [data[0]];
      WrapAgain(s.bytesOut, |data|);
    }
  }

  lemma OneByte(c: nat, b: byte)
    ensures CrcOf(c, [b]) == CrcByte(c, b)
  {
    hide CrcByte;
    assert [b][..0] == [];
  }

  lemma WrapAgain(x: nat, n: nat)
    requires x < LONG && n > 0
    ensures (Wrap(x + 1) + (n - 1)) % LONG == (x + n) % LONG
  {
    if x + 1 >= LONG {
      assert x + n == (n - 1) + LONG;
    }
  }

  // ----- a stretch that does not pass an end

  function Pour(s: Sink, data: seq<byte>): Sink {
    if |data| == 0 then s else Store(Pour(s, data[..|data| - 1]), data[|data| - 1])
  }

  lemma {:induction false} PourCounts(s: Sink, data: seq<byte>)
    requires s.bytesOut < LONG && s.endOffset < LONG && |data| <= Left(s)
    ensures Pour(s, data).endOffset == s.endOffset && |Pour(s, data).region| == |s.region|
    ensures Pour(s, data).bytesOut == Wrap(s.bytesOut + |data|) && Left(Pour(s, data)) == Left(s) - |data|
  {
    hide CrcByte;
    if |data| != 0 {
      PourCounts(s, data[..|data| - 1]);
    }
  }

  /** Up to the end no header is due before the last byte. */
  lemma {:induction false} EmitStretch(s: Sink, data: seq<byte>)
    requires |s.region| == HEADER && s.bytesOut < LONG && s.endOffset < LONG && 0 < |data| <= Left(s)
    ensures |Pour(s, data).region| == HEADER && EmitAll(s, data) == Due(Pour(s, data))
  {
    hide CrcByte, Store, Switch;
    var last := |data| - 1;
    PourCounts(s, data[..last]);
    PourCounts(s, data);
    EmitLast(s, data[..last], data[last]);
    assert data == data[..last] + [data[last]];
    if last != 0 {
      EmitStretch(s, data[..last]);
    }
  }

  lemma EmitLast(s: Sink, a: seq<byte>, b: byte)
    requires |s.region| == HEADER
    ensures EmitAll(s, a + [b]) == Emit(EmitAll(s, a), b)
  {
    hide Emit;
    EmitSplit(s, a, [b]);
    EmitNone(Emit(EmitAll(s, a), b), [b][1..]);
  }

  lemma EmitNone(s: Sink, rest: seq<byte>)
    requires |s.region| == HEADER && |rest| == 0
    ensures EmitAll(s, rest) == s
  {
  }

  /** A region of no bytes: its end is due before the next byte. */
  lemma EmitPending(s: Sink, data: seq<byte>)
    requires Well(s) && |data| > 0 && s.bytesOut == s.endOffset
    ensures EmitAll(s, data) == EmitAll(Switch(s), data) && Emit(s, data[0]) == Emit(Switch(s), data[0])
    ensures Well(Switch(s)) && Left(Switch(s)) == HEADER
  {
    hide Store;
  }

  // ----- one round of the loop of flush_window, lines 110-134

  /** Where the inner loop is to stop, in the arithmetic of an unsigned long. */
  function Limit(s: Sink, n: nat, outcnt: nat): nat {
    var limit := (s.endOffset - s.bytesOut + n) % LONG;
    if limit > outcnt then outcnt else limit
  }

  /** The state and the window index after one round; with a limit not above `n` the inner loop writes nothing. */
  function Round(s: Sink, window: seq<byte>, n: nat): (r: (Sink, nat))
    requires Well(s) && n < |window| <= WSIZE
    ensures |r.0.region| == HEADER
  {
    var m := Limit(s, n, |window|);
    LimitIs(s, n, |window|);
    if m <= n then (Due(s), n)
    else
      PourCounts(s, window[n..m]);
      (Due(Pour(s, window[n..m])), m)
  }

  /** What the limit comes to: the end of the stretch or of the window, unless the sum wraps around. */
  lemma LimitIs(s: Sink, n: nat, outcnt: nat)
    requires s.bytesOut < LONG && s.endOffset < LONG && n < outcnt <= WSIZE
    ensures Left(s) + n < LONG ==>
      Limit(s, n, outcnt) == (if Left(s) + n > outcnt then outcnt else Left(s) + n)
    ensures Left(s) + n >= LONG ==> Limit(s, n, outcnt) < n && s.bytesOut != s.endOffset
    ensures n < Limit(s, n, outcnt) ==> Limit(s, n, outcnt) - n <= Left(s)
  {
    var x := s.endOffset - s.bytesOut + n;
    if x < 0 {
      assert x % LONG == x + LONG;
    } else if x >= LONG {
      assert x % LONG == x - LONG;
    }
  }

  /** No header that is completed within the window has its end so far behind, or so far ahead, that the limit wraps. */
  ghost predicate Proper(s: Sink, window: seq<byte>, n: nat)
    requires Well(s)
    decreases |window| - n
  {
    n >= |window| ||
      (Left(s) + n < LONG && (EmitWell(s, window[n]); Proper(Emit(s, window[n]), window, n + 1)))
  }

  lemma {:induction false} ProperStretch(s: Sink, window: seq<byte>, n: nat, m: nat)
    requires Well(s) && n < m <= |window| && m - n <= Left(s) && Left(s) + n < LONG
    ensures Well(EmitAll(s, window[n..m]))
    ensures Proper(s, window, n) <==> Proper(EmitAll(s, window[n..m]), window, m)
    decreases m - n
  {
    hide Emit;
    EmitWell(s, window[n]);
    EmitCounts(s, window[n..m]);
    assert window[n..m][1..] == window[n + 1..m];
    if n + 1 < m {
      ProperStretch(Emit(s, window[n]), window, n + 1, m);
    }
  }

  /** A round goes on by a stretch, or passes a region of no bytes, or changes nothing at all. */
  lemma RoundStep(s: Sink, window: seq<byte>, n: nat)
    requires Well(s) && n < |window| <= WSIZE
    ensures Round(s, window, n) == (s, n) <==> Left(s) + n >= LONG
    ensures Left(s) + n < LONG ==>
      var r := Round(s, window, n);
      var t, m := r.0, r.1;
      && Well(t) && n <= m <= |window| && (m == n ==> Left(s) == 0 && Left(t) == HEADER)
      && EmitAll(t, window[m..]) == EmitAll(s, window[n..])
      && (Proper(t, window, m) <==> Proper(s, window, n))
  {
    hide Emit, EmitAll, Pour, Switch, Limit, Proper, CrcByte;
    LimitIs(s, n, |window|);
    var m := Limit(s, n, |window|);
    if Left(s) == 0 {
      PassEmpty(s, window, n);
    } else if m > n {
      PassStretch(s, window, n, m);
    }
  }

  lemma PassEmpty(s: Sink, window: seq<byte>, n: nat)
    requires Well(s) && n < |window| <= WSIZE && s.bytesOut == s.endOffset
    ensures Well(Switch(s)) && Left(Switch(s)) == HEADER && Switch(s) != s
    ensures EmitAll(Switch(s), window[n..]) == EmitAll(s, window[n..])
    ensures Proper(Switch(s), window, n) <==> Proper(s, window, n)
  {
    hide Store, Emit, EmitAll;
    EmitPending(s, window[n..]);
    assert window[n..][0] == window[n];
  }

  lemma PassStretch(s: Sink, window: seq<byte>, n: nat, m: nat)
    requires Well(s) && n < m <= |window| && m - n <= Left(s) && Left(s) + n < LONG
    ensures |Pour(s, window[n..m]).region| == HEADER
    ensures var t := Due(Pour(s, window[n..m]));
      && Well(t) && EmitAll(t, window[m..]) == EmitAll(s, window[n..])
      && (Proper(t, window, m) <==> Proper(s, window, n))
  {
    hide Emit, EmitAll, Pour, Due, Proper;
    var a, b := window[n..m], window[m..];
    EmitStretch(s, a);
    EmitCounts(s, a);
    EmitSplit(s, a, b);
    assert a + b == window[n..];
    ProperStretch(s, window, n, m);
  }

  // ----- when the loop ends

  /** The state and the window index after at most `k` rounds from index `n` on. */
  function Rounds(s: Sink, window: seq<byte>, n: nat, k: nat): (Sink, nat)
    requires Well(s) && |window| <= WSIZE
    decreases k
  {
    if k == 0 || n >= |window| then (s, n)
    else
      RoundStep(s, window, n);
      var (t, m) := Round(s, window, n);
      Rounds(t, window, m, k - 1)
  }

  ghost predicate Ends(s: Sink, window: seq<byte>)
    requires Well(s) && |window| <= WSIZE
  {
    exists k: nat :: Rounds(s, window, 0, k).1 >= |window|
  }

  lemma {:induction false} EndsFrom(s: Sink, window: seq<byte>, n: nat) returns (k: nat)
    requires Well(s) && n <= |window| <= WSIZE && Proper(s, window, n)
    ensures Rounds(s, window, n, k) == (EmitAll(s, window[n..]), |window|)
    decreases |window| - n, if Left(s) == 0 then 1 else 0
  {
    hide Round, EmitAll, Emit;
    if n == |window| {
      EmitNone(s, window[n..]);
      k := 0;
    } else {
      RoundStep(s, window, n);
      ProperNow(s, window, n);
      var (t, m) := Round(s, window, n);
      k := EndsFrom(t, window, m);
      k := k + 1;
    }
  }

  lemma ProperNow(s: Sink, window: seq<byte>, n: nat)
    requires Well(s) && n < |window| && Proper(s, window, n)
    ensures Left(s) + n < LONG
  {
    hide Emit;
  }

  lemma {:induction false} NeverEnds(s: Sink, window: seq<byte>, n: nat, k: nat)
    requires Well(s) && n <= |window| <= WSIZE && !Proper(s, window, n)
    ensures Rounds(s, window, n, k).1 < |window|
    decreases k
  {
    hide Round, Emit, Well;
    if k != 0 {
      RoundStep(s, window, n);
      var (t, m) := Round(s, window, n);
      NeverEnds(t, window, m, k - 1);
    }
  }

  /** The loop over a window comes to an end exactly when no header completed in it makes the limit wrap. */
  lemma FlushEndsIff(s: Sink, window: seq<byte>)
    requires Well(s) && |window| <= WSIZE
    ensures Ends(s, window) <==> Proper(s, window, 0)
  {
    hide Rounds, Well, Proper;
    if Proper(s, window, 0) {
      var k := EndsFrom(s, window, 0);
    } else {
      forall k: nat
        ensures Rounds(s, window, 0, k).1 < |window|
      {
        NeverEnds(s, window, 0, k);
      }
    }
  }

  /** In plain numbers: the end lies behind by no more than the window index, or ahead by nearly the whole range. */
  lemma StuckIs(s: Sink, n: nat)
    requires Well(s)
    ensures Left(s) + n >= LONG <==>
      s.endOffset < s.bytesOut <= s.endOffset + n || s.endOffset + n >= s.bytesOut + LONG
  {
  }

  // ----- window after window

  /** flush_window ends for each of the windows in turn. */
  ghost predicate EndsAll(s: Sink, chunks: seq<seq<byte>>)
    requires Well(s)
  {
    |chunks| == 0 ||
      (var last := |chunks| - 1;
       && EndsAll(s, chunks[..last])
       && |chunks[last]| <= WSIZE
       && (EmitCounts(s, Flatten(chunks[..last])); Ends(EmitAll(s, Flatten(chunks[..last])), chunks[last])))
  }

  lemma {:induction false} EndsBefore(s: Sink, chunks: seq<seq<byte>>, i: nat)
    requires Well(s) && i <= |chunks| && EndsAll(s, chunks)
    ensures EndsAll(s, chunks[..i])
    decreases |chunks|
  {
    hide Ends, Flatten, Well;
    if i == |chunks| {
      assert chunks[..i] == chunks;
    } else {
      var last := |chunks| - 1;
      EndsBefore(s, chunks[..last], i);
      assert chunks[..last][..i] == chunks[..i];
    }
  }

  /** A window that is not got past stops all that follow. */
  lemma StopsAll(s: Sink, chunks: seq<seq<byte>>, i: nat)
    requires Well(s) && i <= |chunks| && !EndsAll(s, chunks[..i])
    ensures !EndsAll(s, chunks)
  {
    hide EndsAll, Well;
    if EndsAll(s, chunks) {
      EndsBefore(s, chunks, i);
    }
  }

  /** Every header read on the way names an end that is ahead, and a window's width clear of the 32-bit range. */
  ghost predicate Roomy(s: Sink, data: seq<byte>)
    requires Well(s)
    decreases |data|
  {
    |data| == 0 || (Left(s) + WSIZE <= LONG && (EmitWell(s, data[0]); Roomy(Emit(s, data[0]), data[1..])))
  }

  lemma {:induction false} RoomyProper(s: Sink, window: seq<byte>, n: nat)
    requires Well(s) && n <= |window| <= WSIZE && Roomy(s, window[n..])
    ensures Proper(s, window, n)
    decreases |window| - n
  {
    hide Emit;
    if n < |window| {
      EmitWell(s, window[n]);
      assert window[n..][1..] == window[n + 1..];
      RoomyProper(Emit(s, window[n]), window, n + 1);
    }
  }

  lemma {:induction false} RoomySplit(s: Sink, a: seq<byte>, b: seq<byte>)
    requires Well(s)
    ensures Well(EmitAll(s, a)) && (Roomy(s, a + b) <==> Roomy(s, a) && Roomy(EmitAll(s, a), b))
    decreases |a|
  {
    hide Emit;
    EmitCounts(s, a);
    if |a| == 0 {
      assert a + b == b;
    } else {
      assert (a + b)[1..] == a[1..] + b;
      EmitWell(s, a[0]);
      RoomySplit(Emit(s, a[0]), a[1..], b);
    }
  }

  /** Such a stream is taken to the end however it is cut into windows. */
  lemma {:induction false} RoomyEnds(s: Sink, chunks: seq<seq<byte>>)
    requires Well(s) && Small(chunks) && Roomy(s, Flatten(chunks))
    ensures EndsAll(s, chunks)
  {
    hide Emit, EmitAll, Roomy, Ends;
    if |chunks| != 0 {
      var last := |chunks| - 1;
      var before := Flatten(chunks[..last]);
      RoomySplit(s, before, chunks[last]);
      RoomyEnds(s, chunks[..last]);
      assert chunks[last][0..] == chunks[last];
      RoomyProper(EmitAll(s, before), chunks[last], 0);
      FlushEndsIff(EmitAll(s, before), chunks[last]);
    }
  }

  // ----- flush_window

  lemma PourNone(s: Sink, whole: seq<byte>, n: nat)
    requires n <= |whole|
    ensures Pour(s, whole[n..n]) == s
  {
  }

  lemma PourMore(s: Sink, whole: seq<byte>, n: nat, m: nat)
    requires n <= m < |whole|
    ensures Pour(s, whole[n..m + 1]) == Store(Pour(s, whole[n..m]), whole[m])
  {
    hide Store;
    assert whole[n..m + 1][..m - n] == whole[n..m];
  }

  lemma TableSize(tab: seq<nat>)
    requires IsTable(tab)
    ensures |tab| == 256
  {
  }

  lemma WrapIs(x: nat)
    requires x < 2 * LONG
    ensures Wrap(x) == x % LONG
  {
    if x >= LONG {
      assert x == (x - LONG) + LONG;
    }
  }

  function Offset(p: Ptr): nat {
    match p
    case Header(off) => off
    case At(a) => a
  }

  class Output {
    const crcTable: seq<nat>
    var outputPtr: Ptr
    var unzipRegion: array<byte>
    var mem: map<nat, byte>
    var bytesOut: nat
    var endOffset: nat
    var crc: nat

    /** gunzip_setup, kunzip.c:139-154 */
    constructor (memory: map<nat, byte>)
      ensures Valid() && fresh(unzipRegion) && State() == Start(memory)
      ensures crc == 0xffff_ffff && bytesOut == 0 && endOffset == 8 && outputPtr == Header(0) && mem == memory
    {
      bytesOut, endOffset, outputPtr := 0, HEADER, Header(0);
      unzipRegion := new byte[HEADER](_ => 0);
      mem := memory;
      var tab := MakeCrc();
      crcTable := tab;
      crc := ONES;
      new;
      assert unzipRegion[..] == seq(HEADER, _ => 0);
    }

    ghost function State(): Sink
      reads this, unzipRegion
    {
      Sink(outputPtr, unzipRegion[..], mem, bytesOut, endOffset, crc)
    }

    ghost predicate Valid()
      reads this, unzipRegion
    {
      Well(State()) && IsTable(crcTable)
    }

    /** Lines 115-124: a stretch of the window to where the pointer points. */
    method WriteStretch(window: seq<byte>, n0: nat, limit: nat)
      requires Valid() && limit <= |window| <= WSIZE
      requires n0 < limit ==> limit - n0 <= Left(State())
      modifies this, unzipRegion
      ensures unzipRegion == old(unzipRegion)
      ensures State() == if n0 < limit then Pour(old(State()), window[n0..limit]) else old(State())
    {
      hide Pour, CrcByte, IsTable, Update;
      ghost var s := State();
      var c, out, n := crc, outputPtr, n0;
      if n0 < limit {
        PourNone(s, window, n0);
      }
      while n < limit
        invariant n0 <= n && (n0 < limit ==> n <= limit) && (n0 >= limit ==> n == n0) && c >= 0
        invariant unzipRegion == old(unzipRegion) && bytesOut == s.bytesOut && endOffset == s.endOffset
        invariant outputPtr == s.ptr && crc == s.crc
        invariant out.Header? == s.ptr.Header? && Offset(out) == Offset(s.ptr) + (n - n0)
        invariant n0 >= limit ==> unzipRegion[..] == s.region && mem == s.mem && c == s.crc
        invariant n0 < limit ==>
          Sink(out, unzipRegion[..], mem, Wrap(bytesOut + (n - n0)), endOffset, c) == Pour(s, window[n0..n])
      {
        PourMore(s, window, n0, n);
        UpdateIsCrc(crcTable, c, window[n]);
        match out {
          case Header(off) =>
            unzipRegion[off] := window[n];
            out := Header(off + 1);
          case At(a) =>
            mem := mem[a := window[n]];
            out := At(a + 1);
        }
        TableSize(crcTable);
        c := Update(crcTable, c, window[n]);
        n := n + 1;
      }
      crc := c;
      WrapIs(bytesOut + (Offset(out) - Offset(outputPtr)));
      bytesOut := (bytesOut + Offset(out) - Offset(outputPtr)) % LONG;
      outputPtr := out;
    }

    /** Lines 125-133 */
    method NextRegion()
      requires unzipRegion.Length == HEADER && endOffset < LONG
      modifies this
      ensures unzipRegion == old(unzipRegion) && State() == Due(old(State()))
    {
      if bytesOut == endOffset {
        if outputPtr == Header(HEADER) {
          outputPtr := At(Long(unzipRegion[..], 0));
          endOffset := Long(unzipRegion[..], 4);
        } else {
          WrapIs(endOffset + HEADER);
          outputPtr := Header(0);
          endOffset := (endOffset + HEADER) % LONG;
        }
      }
    }

    /**
     Lines 105-136. When a round changes nothing, the C program is in it for ever; that is `ends` false here, with the
     state, after `k` rounds, that it stays in.
     */
    method FlushWindow(window: seq<byte>) returns (ends: bool, ghost k: nat, ghost stuck: nat)
      requires Valid() && |window| <= WSIZE
      modifies this, unzipRegion
      ensures Valid() && unzipRegion == old(unzipRegion)
      ensures ends <==> Ends(old(State()), window)
      ensures ends ==> State() == EmitAll(old(State()), window)
      ensures !ends ==> stuck < |window| && Rounds(old(State()), window, 0, k) == (State(), stuck)
      ensures !ends ==> Round(State(), window, stuck) == (State(), stuck)
    {
      hide EmitAll, Store, Pour, IsTable, Emit, Limit, Proper, Rounds, Ends, Switch;
      ghost var s0 := State();
      FlushEndsIff(s0, window);
      ghost var whole := EmitAll(s0, window);
      var n := 0;
      assert window[0..] == window;
      k, stuck := 0, 0;
      RoundsNone(s0, window);
      while n < |window|
        invariant 0 <= n <= |window| && Valid() && unzipRegion == old(unzipRegion)
        invariant EmitAll(State(), window[n..]) == whole
        invariant Proper(State(), window, n) <==> Proper(s0, window, 0)
        invariant Rounds(s0, window, 0, k) == (State(), n)
        decreases |window| - n, if bytesOut == endOffset then 1 else 0
      {
        ghost var s := State();
        RoundStep(s, window, n);
        RoundsMore(s0, window, k, s, n);
        LimitIs(s, n, |window|);
        var limit := (endOffset - bytesOut + n) % LONG;
        if limit > |window| {
          limit := |window|;
        }
        assert limit == Limit(s, n, |window|) by { LimitIsNow(s, n, |window|); }
        if limit > n {
          PourCounts(s, window[n..limit]);
        }
        WriteStretch(window, n, limit);
        var same := limit <= n && bytesOut != endOffset;
        NextRegion();
        assert State() == Round(s, window, n).0;
        if same {
          StuckProper(s, window, n);
          stuck := n;
          return false, k, stuck;
        }
        n := if limit > n then limit else n;
        k := k + 1;
      }
      EmitNone(State(), window[n..]);
      ProperEnd(State(), window);
      return true, k, 0;
    }
  }

  lemma RoundsNone(s: Sink, window: seq<byte>)
    requires Well(s) && |window| <= WSIZE
    ensures Rounds(s, window, 0, 0) == (s, 0)
  {
  }

  lemma ProperEnd(s: Sink, window: seq<byte>)
    requires Well(s)
    ensures Proper(s, window, |window|)
  {
  }

  lemma LimitIsNow(s: Sink, n: nat, outcnt: nat)
    ensures Limit(s, n, outcnt)
         == var limit := (s.endOffset - s.bytesOut + n) % LONG; if limit > outcnt then outcnt else limit
  {
  }

  lemma StuckProper(s: Sink, window: seq<byte>, n: nat)
    requires Well(s) && n < |window| && Left(s) + n >= LONG
    ensures !Proper(s, window, n)
  {
    hide Emit;
  }

  /** One round more. */
  lemma {:induction false} RoundsMore(s: Sink, window: seq<byte>, k: nat, t: Sink, n: nat)
    requires Well(s) && Well(t) && n < |window| <= WSIZE && Rounds(s, window, 0, k) == (t, n)
    ensures Rounds(s, window, 0, k + 1) == Round(t, window, n)
  {
    hide Round;
    RoundsFrom(s, window, 0, k);
  }

  lemma {:induction false} RoundsFrom(s: Sink, window: seq<byte>, m: nat, k: nat)
    requires Well(s) && m <= |window| <= WSIZE
    requires var r := Rounds(s, window, m, k); Well(r.0) && r.1 < |window|
    ensures var r := Rounds(s, window, m, k); Rounds(s, window, m, k + 1) == Round(r.0, window, r.1)
    decreases k
  {
    hide Round;
    if k == 0 {
      RoundStep(s, window, m);
      var (t, n) := Round(s, window, m);
      assert Rounds(t, window, n, 0) == (t, n);
    } else if m < |window| {
      RoundStep(s, window, m);
      var (t, n) := Round(s, window, m);
      RoundsFrom(t, window, n, k - 1);
    }
  }

  /** gunzip_setup: a header comes first. */
  function Start(memory: map<nat, byte>): Sink {
    Sink(Header(0), seq(HEADER, _ => 0), memory, 0, HEADER, ONES)
  }
}
