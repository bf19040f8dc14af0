/**
 inflate.c:517-1004: the block decoders and the loop over blocks, proved to do what the reference decoder of
 module Deflate does. Everything is stated for runs whose outcome C defines and that come to an end: the reference
 result is neither Undef nor NoFuel.
 */
module Inflate {
  import opened Bits
  import opened Bytes
  import opened Huffman
  import opened HuftTables
  import opened HuftBuild
  import opened HuftFits
  import opened HuftSetup
  import opened Deflate
  import opened BitBuffer
  import opened Window

  // ----- the constant tables, inflate.c:169-185

  const CPLENS: seq<nat> := [
    3, 4, 5, 6, 7, 8, 9, 10, 11, 13, 15, 17, 19, 23, 27, 31,
    35, 43, 51, 59, 67, 83, 99, 115, 131, 163, 195, 227, 258, 0, 0]
  const CPLEXT: seq<nat> := [
    0, 0, 0, 0, 0, 0, 0, 0, 1, 1, 1, 1, 2, 2, 2, 2,
    3, 3, 3, 3, 4, 4, 4, 4, 5, 5, 5, 5, 0, 99, 99]
  const CPDIST: seq<nat> := [
    1, 2, 3, 4, 5, 7, 9, 13, 17, 25, 33, 49, 65, 97, 129, 193,
    257, 385, 513, 769, 1025, 1537, 2049, 3073, 4097, 6145,
    8193, 12289, 16385, 24577]
  const CPDEXT: seq<nat> := [
    0, 0, 0, 0, 1, 1, 2, 2, 3, 3, 4, 4, 5, 5, 6, 6,
    7, 7, 8, 8, 9, 9, 10, 10, 11, 11,
    12, 12, 13, 13]
  const LBITS: nat := 9
  const DBITS: nat := 6

  const LITERALS: Coding := Coding(257, CPLENS, CPLEXT)
  const DISTANCES: Coding := Coding(0, CPDIST, CPDEXT)
  const CODELENGTHS: Coding := Coding(19, [], [])

  /** The table of lengths is the arithmetic of RFC 1951 section 3.2.5. */
  lemma LengthTable(s: nat)
    requires 257 <= s <= 285
    ensures CPLENS[s - 257] == LengthBase(s) && CPLEXT[s - 257] == LengthExtra(s)
  {
    hide LengthBase, LengthExtra;
    if s <= 266 {
      ShortLengths(s);
    } else if s <= 276 {
      MiddleLengths(s);
    } else {
      LongLengths(s);
    }
  }

  lemma ShortLengths(s: nat)
    requires 257 <= s <= 266
    ensures CPLENS[s - 257] == LengthBase(s) && CPLEXT[s - 257] == LengthExtra(s)
  {
    hide LengthBase, Pow2;
    LengthValues();
    assert s == 257 || s == 258 || s == 259 || s == 260 || s == 261 || s == 262 || s == 263 || s == 264 || s == 265 || s == 266;
  }

  lemma MiddleLengths(s: nat)
    requires 267 <= s <= 276
    ensures CPLENS[s - 257] == LengthBase(s) && CPLEXT[s - 257] == LengthExtra(s)
  {
    hide LengthBase, Pow2;
    LengthValues();
    assert s == 267 || s == 268 || s == 269 || s == 270 || s == 271 || s == 272 || s == 273 || s == 274 || s == 275 || s == 276;
  }

  lemma LongLengths(s: nat)
    requires 277 <= s <= 285
    ensures CPLENS[s - 257] == LengthBase(s) && CPLEXT[s - 257] == LengthExtra(s)
  {
    hide LengthBase, Pow2;
    LengthValues();
    assert s == 277 || s == 278 || s == 279 || s == 280 || s == 281 || s == 282 || s == 283 || s == 284 || s == 285;
  }

  lemma LengthValues()
    ensures LengthBase(257) == 3 && LengthBase(258) == 4 && LengthBase(259) == 5 && LengthBase(260) == 6 && LengthBase(261) == 7
    ensures LengthBase(262) == 8 && LengthBase(263) == 9 && LengthBase(264) == 10 && LengthBase(265) == 11 && LengthBase(266) == 13
    ensures LengthBase(267) == 15 && LengthBase(268) == 17 && LengthBase(269) == 19 && LengthBase(270) == 23 && LengthBase(271) == 27
    ensures LengthBase(272) == 31 && LengthBase(273) == 35 && LengthBase(274) == 43 && LengthBase(275) == 51 && LengthBase(276) == 59
    ensures LengthBase(277) == 67 && LengthBase(278) == 83 && LengthBase(279) == 99 && LengthBase(280) == 115 && LengthBase(281) == 131
    ensures LengthBase(282) == 163 && LengthBase(283) == 195 && LengthBase(284) == 227 && LengthBase(285) == 258
  {
  }

  /** So is the table of distances. */
  lemma DistTable(d: nat)
    requires d < 30
    ensures CPDIST[d] == DistBase(d) && CPDEXT[d] == DistExtra(d)
  {
    hide DistBase, Pow2;
    DistValues();
    if d <= 5 {
      assert d == 0 || d == 1 || d == 2 || d == 3 || d == 4 || d == 5;
    } else if d <= 11 {
      assert d == 6 || d == 7 || d == 8 || d == 9 || d == 10 || d == 11;
    } else if d <= 17 {
      assert d == 12 || d == 13 || d == 14 || d == 15 || d == 16 || d == 17;
    } else if d <= 23 {
      assert d == 18 || d == 19 || d == 20 || d == 21 || d == 22 || d == 23;
    } else {
      assert d == 24 || d == 25 || d == 26 || d == 27 || d == 28 || d == 29;
    }
  }

  lemma DistValues()
    ensures DistBase(0) == 1 && DistBase(1) == 2 && DistBase(2) == 3 && DistBase(3) == 4 && DistBase(4) == 5
    ensures DistBase(5) == 7 && DistBase(6) == 9 && DistBase(7) == 13 && DistBase(8) == 17 && DistBase(9) == 25
    ensures DistBase(10) == 33 && DistBase(11) == 49 && DistBase(12) == 65 && DistBase(13) == 97 && DistBase(14) == 129
    ensures DistBase(15) == 193 && DistBase(16) == 257 && DistBase(17) == 385 && DistBase(18) == 513 && DistBase(19) == 769
    ensures DistBase(20) == 1025 && DistBase(21) == 1537 && DistBase(22) == 2049 && DistBase(23) == 3073 && DistBase(24) == 4097
    ensures DistBase(25) == 6145 && DistBase(26) == 8193 && DistBase(27) == 12289 && DistBase(28) == 16385 && DistBase(29) == 24577
  {
  }

  /** No distance reaches further back than the window. */
  lemma BackBound(x: nat, pos: nat, d: nat)
    requires d < 30
    ensures 1 <= DistBase(d) + Field(x, pos, DistExtra(d)) <= WSIZE
  {
    FieldBound(x, pos, DistExtra(d));
    BackEnds(d);
    DistPositive(d);
  }

  /** The distances of each code end where those of the next begin, the last ones at the window size. */
  lemma {:induction false} BackEnds(d: nat)
    requires d < 30
    ensures DistBase(d) + Pow2(DistExtra(d)) <= WSIZE + 1
    decreases 30 - d
  {
    hide DistBase, Pow2, DistExtra;
    if d < 29 {
      BackEnds(d + 1);
      DistStep(d);
    } else {
      DistValues();
      LastDist();
    }
  }

  lemma DistStep(d: nat)
    requires d < 29
    ensures DistBase(d + 1) == DistBase(d) + Pow2(DistExtra(d))
  {
  }

  lemma LastDist()
    ensures Pow2(DistExtra(29)) == 8192
  {
  }

  lemma {:induction false} DistPositive(d: nat)
    requires d < 30
    ensures 1 <= DistBase(d)
  {
    if d > 0 {
      DistPositive(d - 1);
    }
  }

  // ----- walking tables through the bit buffer

  /** What a finished walk says in terms of the canonical code. */
  ghost predicate Decoded(dec: Symbol, lens: seq<nat>, coding: Coding, e: nat, v: nat)
    requires ValidCoding(lens, coding)
  {
    match dec
    case Sym(s) => s < |lens| && e == EntryE(coding, s) && v == EntryV(coding, s)
    case NoCode => e == 99
    case Undefined => true
  }

  /** One look-up of a walk, unfolded: the cell is there, and either it ends the walk or the walk goes on from it. */
  lemma WalkStep(heap: seq<Huft>, t: nat, look: nat, y: nat)
    requires Walk(heap, t, look, y).Hit?
    ensures var cell := t + Low(y, look);
      && 0 < t && cell < |heap| && heap[cell].Huft? && heap[cell].b <= look
      && (heap[cell].e <= 16 || heap[cell].e == 99 ==>
            Walk(heap, t, look, y) == Hit(heap[cell].e, heap[cell].v, heap[cell].b))
      && (heap[cell].e > 16 && heap[cell].e != 99 ==>
            var next := Walk(heap, heap[cell].v, heap[cell].e - 16, Shr(y, heap[cell].b));
            heap[cell].e <= 16 + BMAX && t < heap[cell].v < |heap| && next.Hit?
            && Walk(heap, t, look, y) == Hit(next.e, next.v, heap[cell].b + next.bits))
  {
    hide Shl, Rev, Low, Shr, Pow2;
  }

  lemma TableHit(heap: seq<Huft>, t: nat, look: nat, lens: seq<nat>, coding: Coding, y: nat)
    requires ValidCoding(lens, coding) && TableFor(heap, t, look, lens, coding) && DecodeSym(lens, y) != Undefined
    ensures Walk(heap, t, look, y).Hit?
    ensures Decoded(DecodeSym(lens, y), lens, coding, Walk(heap, t, look, y).e, Walk(heap, t, look, y).v)
    ensures DecodeSym(lens, y).Sym? ==> Walk(heap, t, look, y).bits == lens[DecodeSym(lens, y).sym]
  {
    assert Agrees(Walk(heap, t, look, y), lens, coding, DecodeSym(lens, y));
  }

  /**
   inflate.c:542-551 and again 574-583: decode one symbol with the table at `t0`. The bits are dropped unless the
   code is an invalid one (e == 99).
   */
  method DecodeSymbol(input: Input, heap: seq<Huft>, t0: nat, look: nat, b0: nat, k0: nat,
                      ghost pos: nat, ghost lens: seq<nat>, ghost coding: Coding)
    returns (e: nat, v: nat, b: nat, k: nat)
    requires input.Has(b0, k0, pos) && look <= BMAX
    requires ValidCoding(lens, coding) && TableFor(heap, t0, look, lens, coding)
    requires DecodeSym(lens, Shr(Stream(input.inbuf), pos)) != Undefined
    modifies input
    ensures Decoded(DecodeSym(lens, Shr(Stream(input.inbuf), pos)), lens, coding, e, v)
    ensures DecodeSym(lens, Shr(Stream(input.inbuf), pos)).Sym? && e != 99 ==>
      input.Has(b, k, pos + lens[DecodeSym(lens, Shr(Stream(input.inbuf), pos)).sym])
  {
    hide Shl, Rev, Low, Shr, Pow2, Walk, TableFor, Holds, Stream;
    ghost var x := Stream(input.inbuf);
    ghost var full := Walk(heap, t0, look, Shr(x, pos));
    TableHit(heap, t0, look, lens, coding, Shr(x, pos));
    var t: nat, n: nat := t0, look;
    b, k := input.NeedBits(n, b0, k0, pos);
    ghost var at: nat := pos;
    WalkStep(heap, t, n, Shr(x, at));
    var r := heap[t + Low(b, n)];
    while r.e > 16 && r.e != 99
      invariant input.Has(b, k, at) && n <= k && n <= BMAX && Low(b, n) == Field(x, at, n)
      invariant Walk(heap, t, n, Shr(x, at)).Hit?
      invariant Walk(heap, t, n, Shr(x, at)).e == full.e && Walk(heap, t, n, Shr(x, at)).v == full.v
      invariant at + Walk(heap, t, n, Shr(x, at)).bits == pos + full.bits
      invariant t + Low(b, n) < |heap| && r == heap[t + Low(b, n)] && r.Huft?
      decreases |heap| - t
    {
      WalkStep(heap, t, n, Shr(x, at));
      DumpIs(x, input.fetched, b, k, at, r.b);
      ShrShr(x, at, r.b);
      b, k, at := Shr(b, r.b), k - r.b, at + r.b;
      n := r.e - 16;
      b, k := input.NeedBits(n, b, k, at);
      t := r.v;
      WalkStep(heap, t, n, Shr(x, at));
      r := heap[t + Low(b, n)];
    }
    WalkStep(heap, t, n, Shr(x, at));
    e, v := r.e, r.v;
    if e == 99 {
      return;
    }
    DumpIs(x, input.fetched, b, k, at, r.b);
    b, k := Shr(b, r.b), k - r.b;
  }

  // ----- literals, lengths and distances

  /** What the entry of a literal or length symbol says. */
  lemma LiteralEntry(s: nat)
    requires s < 288
    ensures s < 256 ==> EntryE(LITERALS, s) == 16 && EntryV(LITERALS, s) == s
    ensures s == 256 ==> EntryE(LITERALS, s) == 15
    ensures 257 <= s <= 285 ==> EntryE(LITERALS, s) == LengthExtra(s) < 15 && EntryV(LITERALS, s) == LengthBase(s)
    ensures s > 285 ==> EntryE(LITERALS, s) == 99
  {
    hide LengthBase;
    if 257 <= s <= 285 {
      LengthTable(s);
    } else if s > 285 {
      assert s == 286 || s == 287;
    }
  }

  lemma DistanceEntry(d: nat)
    requires d < 30
    ensures EntryE(DISTANCES, d) == DistExtra(d) <= 13 && EntryV(DISTANCES, d) == DistBase(d)
  {
    hide DistBase;
    DistTable(d);
  }

  lemma CodingsValid(lit: seq<nat>, dist: seq<nat>)
    requires |lit| <= 288 && |dist| <= 30
    ensures ValidCoding(lit, LITERALS) && ValidCoding(dist, DISTANCES)
  {
    forall j | 0 <= j < 31
      ensures CPLEXT[j] < 15 || CPLEXT[j] == 99
    {
      if j < 29 {
        LengthTable(257 + j);
      } else {
        assert j == 29 || j == 30;
      }
    }
    forall j | 0 <= j < 30
      ensures CPDEXT[j] < 15
    {
      DistTable(j);
    }
  }

  lemma SymbolInSet(lens: seq<nat>, y: nat)
    ensures DecodeSym(lens, y).Sym? ==> DecodeSym(lens, y).sym < |lens|
  {
  }

  /** The bit position after the length symbol `s` and its extra bits, from the position after its code. */
  function AfterLength(p: nat, s: nat): nat
    requires 257 <= s <= 285
  {
    p + LengthExtra(s)
  }

  /** One symbol of the reference decoder, unfolded. */
  lemma RunStep(lit: seq<nat>, dist: seq<nat>, x: nat, pos: nat, out: seq<byte>, fuel: nat)
    requires |lit| <= 288 && |dist| <= 30
    requires RunCodes(lit, dist, x, pos, out, fuel).Done? || RunCodes(lit, dist, x, pos, out, fuel).Fail?
    ensures fuel > 0 && DecodeSym(lit, Shr(x, pos)) != Undefined
    ensures var run := RunCodes(lit, dist, x, pos, out, fuel);
      match DecodeSym(lit, Shr(x, pos))
      case NoCode => run == Fail(1, out)
      case Undefined => false
      case Sym(s) =>
        && s < |lit|
        && (s < 256 ==> run == RunCodes(lit, dist, x, pos + lit[s], out + [s], fuel - 1))
        && (s == 256 ==> run == Done(pos + lit[s], out))
        && (s > 285 ==> run == Fail(1, out))
        && (257 <= s <= 285 ==>
              run == RunMatch(lit, dist, x, AfterLength(pos + lit[s], s), out,
                              LengthBase(s) + Field(x, pos + lit[s], LengthExtra(s)), fuel))
  {
    hide DecodeSym, CopyMatch, LengthBase, DistBase, Shr, Low;
    SymbolInSet(lit, Shr(x, pos));
    if DecodeSym(lit, Shr(x, pos)).Sym? {
      var s := DecodeSym(lit, Shr(x, pos)).sym;
      if 257 <= s <= 285 {
        SymbolInSet(dist, Shr(x, AfterLength(pos + lit[s], s)));
      }
    }
  }

  /** The reference decoder from the distance code on, for a match of `len` bytes. */
  ghost function RunMatch(lit: seq<nat>, dist: seq<nat>, x: nat, pos: nat, out: seq<byte>, len: nat, fuel: nat): Run
    requires |lit| <= 288 && |dist| <= 30 && fuel > 0
  {
    match DecodeSym(dist, Shr(x, pos))
    case Undefined => Undef
    case NoCode => Fail(1, out)
    case Sym(d) =>
      if d >= |dist| then Undef
      else
        RunCodes(lit, dist, x, pos + dist[d] + DistExtra(d),
                 CopyMatch(out, DistBase(d) + Field(x, pos + dist[d], DistExtra(d)), len), fuel - 1)
  }

  /** The index the C code computes, reduced, is where the wanted byte is kept. */
  lemma SourceIndex(w: nat, back: nat)
    requires w < WSIZE && 1 <= back <= WSIZE
    ensures (w + 0x1_0000_0000 - back) % 0x1_0000_0000 % WSIZE == Source(w, back)
  {
  }

  class Inflater {
    const input: Input
    const win: Buffer
    const tables: Tables
    var bb: nat // bit buffer
    var bk: nat // bits in bit buffer

    constructor (data: seq<byte>)
      ensures input.inbuf == data && fresh(input) && fresh(win) && fresh(win.slide) && fresh(tables)
      ensures Ready(0) && Out() == [] && tables.heap == [] && win.flushed == []
      ensures input.Valid() && input.fetched == 0 && win.Valid(0)
    {
      input := new Input(data);
      win := new Buffer();
      tables := new Tables();
      bb, bk := 0, 0;
      new;
      NoBits(Stream(input.inbuf));
      assert Out() == [];
    }

    /** Between blocks: the position is `pos` and the window is in order. */
    ghost predicate Ready(pos: nat)
      reads this, input, win, win.slide
    {
      input.Has(bb, bk, pos) && win.Valid(win.outcnt)
    }

    ghost function X(): nat {
      Stream(input.inbuf)
    }

    ghost function Out(): seq<byte>
      requires win.Filling(win.outcnt)
      reads this, win, win.slide
    {
      win.Out(win.outcnt)
    }

    /** A routine that returned `r` did what the reference decoder did. */
    ghost predicate Returned(run: Run, r: nat)
      reads this, input, win, win.slide
    {
      match run
      case Done(pos, out) => r == 0 && Ready(pos) && Out() == out
      case Fail(code, out) => r == code && win.flushed == Windows(out)
      case _ => true
    }

    /** inflate.c:568-610: the rest of a match whose length symbol gave `e0` extra bits and base `v0`. */
    method InflateMatch(td: nat, bd: nat, e0: nat, v0: nat, b0: nat, k0: nat, w0: nat, ghost s: nat,
                        ghost lit: seq<nat>, ghost dist: seq<nat>, ghost pos: nat, ghost fuel: nat)
      returns (bad: bool, b: nat, k: nat, w: nat, ghost at: nat)
      requires |lit| <= 288 && |dist| <= 30 && ValidCoding(dist, DISTANCES) && fuel > 0 && 257 <= s <= 285
      requires input.Has(b0, k0, pos) && win.Valid(w0)
      requires e0 == LengthExtra(s) && v0 == LengthBase(s) && bd <= BMAX
      requires TableFor(tables.heap, td, bd, dist, DISTANCES)
      requires var run := RunMatch(lit, dist, X(), AfterLength(pos, s), win.Out(w0),
                                   LengthBase(s) + Field(X(), pos, LengthExtra(s)), fuel);
        run.Done? || run.Fail?
      modifies input, win, win.slide
      ensures var run := RunMatch(lit, dist, X(), AfterLength(pos, s), old(win.Out(w0)),
                                  LengthBase(s) + Field(X(), pos, LengthExtra(s)), fuel);
        if bad then run == Fail(1, old(win.Out(w0))) && win.flushed == Windows(old(win.Out(w0)))
        else input.Has(b, k, at) && win.Valid(w) && run == RunCodes(lit, dist, X(), at, win.Out(w), fuel - 1)
    {
      hide Shl, Rev, Low, Shr, Pow2, Walk, TableFor, Holds, Stream, LengthBase, DistBase, RunCodes, CopyMatch, LengthExtra;
      hide EntryE, EntryV, DecodeSym, Mirrors, Full, Flatten, Windows;
      LengthPositive(s);
      w, at := w0, pos;
      b, k := input.NeedBits(e0, b0, k0, at);
      var n := v0 + Low(b, e0);
      DumpIs(X(), input.fetched, b, k, at, e0);
      b, k, at := Shr(b, e0), k - e0, at + e0;

      SymbolInSet(dist, Shr(X(), at));
      var e, v;
      e, v, b, k := DecodeSymbol(input, tables.heap, td, bd, b, k, at, dist, DISTANCES);
      if e == 99 {
        if DecodeSym(dist, Shr(X(), at)).Sym? {
          DistanceEntry(DecodeSym(dist, Shr(X(), at)).sym);
          assert false;
        }
        win.SentAre(w0);
        return true, b, k, w, at;
      }
      ghost var d := DecodeSym(dist, Shr(X(), at)).sym;
      DistanceEntry(d);
      at := at + dist[d];
      b, k := input.NeedBits(e, b, k, at);
      var back := v + Low(b, e);
      BackBound(X(), at, d);
      SourceIndex(w, back);
      var index := (w + 0x1_0000_0000 - back) % 0x1_0000_0000; // w - t->v.n - (b & mask_bits[e]), unsigned
      DumpIs(X(), input.fetched, b, k, at, e);
      b, k, at := Shr(b, e), k - e, at + e;
      w := win.CopyBack(w, index, n, back);
      bad := false;
    }

    /** inflate.c:517-622 */
    method InflateCodes(tl: nat, td: nat, bl: nat, bd: nat,
                        ghost lit: seq<nat>, ghost dist: seq<nat>, ghost pos: nat, ghost fuel: nat)
      returns (r: nat)
      requires |lit| <= 288 && |dist| <= 30 && ValidCoding(lit, LITERALS) && ValidCoding(dist, DISTANCES)
      requires Ready(pos) && bl <= BMAX && bd <= BMAX
      requires TableFor(tables.heap, tl, bl, lit, LITERALS) && TableFor(tables.heap, td, bd, dist, DISTANCES)
      requires RunCodes(lit, dist, X(), pos, Out(), fuel).Done? || RunCodes(lit, dist, X(), pos, Out(), fuel).Fail?
      modifies this, input, win, win.slide
      ensures Returned(RunCodes(lit, dist, X(), pos, old(Out()), fuel), r)
    {
      hide Shl, Rev, Low, Shr, Pow2, Walk, TableFor, Holds, Stream, LengthBase, DistBase, RunCodes, CopyMatch;
      hide LengthExtra, DistExtra, RunMatch, EntryE, EntryV, DecodeSym, Mirrors, Full, Flatten, Windows;
      ghost var run := RunCodes(lit, dist, X(), pos, Out(), fuel);
      var b, k, w := bb, bk, win.outcnt;
      ghost var at: nat, left: nat := pos, fuel;
      while true
        invariant input.Has(b, k, at) && win.Valid(w)
        invariant run == RunCodes(lit, dist, X(), at, win.Out(w), left)
        decreases left
      {
        RunStep(lit, dist, X(), at, win.Out(w), left);
        ghost var dec := DecodeSym(lit, Shr(X(), at));
        var e, v;
        e, v, b, k := DecodeSymbol(input, tables.heap, tl, bl, b, k, at, lit, LITERALS);
        if dec.Sym? {
          LiteralEntry(dec.sym);
        }
        if e == 99 {
          win.SentAre(w);
          return 1;
        }
        at := at + lit[dec.sym];
        if e == 16 {
          w := win.Put(w, v);
        } else {
          if e == 15 {
            break;
          }
          var bad;
          bad, b, k, w, at := InflateMatch(td, bd, e, v, b, k, w, dec.sym, lit, dist, at, left);
          if bad {
            return 1;
          }
        }
        left := left - 1;
      }
      win.outcnt := w;
      bb, bk := b, k;
      r := 0;
    }

    /** inflate.c:658-668 */
    method CopyRaw(b0: nat, k0: nat, w0: nat, n0: nat, ghost start: nat) returns (b: nat, k: nat, w: nat)
      requires input.Has(b0, k0, start) && win.Valid(w0)
      modifies input, win, win.slide
      ensures input.Has(b, k, start + 8 * n0) && win.Valid(w)
      ensures win.Out(w) == old(win.Out(w0)) + RawBytes(X(), start, n0)
    {
      hide Shl, Rev, Low, Shr, Pow2, Stream, Flatten, Mirrors, Full, RawBytes, Holds;
      ghost var out := win.Out(w0);
      b, k, w := b0, k0, w0;
      RawNone(X(), start);
      var n := n0;
      while n > 0
        invariant 0 <= n <= n0 && input.Has(b, k, start + 8 * (n0 - n)) && win.Valid(w)
        invariant win.Out(w) == out + RawBytes(X(), start, n0 - n)
      {
        ghost var now := start + 8 * (n0 - n);
        b, k := input.NeedBits(8, b, k, now);
        ByteBound(X(), now);
        RawNext(X(), start, n0 - n);
        w := win.Put(w, Low(b, 8));
        assert win.Out(w) == out + (RawBytes(X(), start, n0 - n) + [Field(X(), now, 8)]);
        DumpIs(X(), input.fetched, b, k, now, 8);
        b, k := Shr(b, 8), k - 8;
        n := n - 1;
      }
    }

    /** inflate.c:642-654: to the byte boundary, then the length and its complement. */
    method StoredLength(b0: nat, k0: nat, ghost pos: nat) returns (bad: bool, n: nat, b: nat, k: nat)
      requires input.Has(b0, k0, pos)
      modifies input
      ensures var p := pos + (if pos % 8 == 0 then 0 else 8 - pos % 8);
        && n == Field(X(), p, 16)
        && (bad <==> n + Field(X(), p + 16, 16) != 0xffff)
        && (!bad ==> input.Has(b, k, p + 32))
    {
      hide Shl, Rev, Low, Shr, Pow2, Stream;
      b, k := b0, k0;
      n := k % 8; // k & 7
      ToByteBoundary(pos, k, input.fetched);
      DumpIs(X(), input.fetched, b, k, pos, n);
      ghost var at: nat := pos + n;
      b, k := Shr(b, n), k - n;

      b, k := input.NeedBits(16, b, k, at);
      n := Low(b, 16);
      SixteenBits(X(), at);
      DumpIs(X(), input.fetched, b, k, at, 16);
      b, k := Shr(b, 16), k - 16;
      b, k := input.NeedBits(16, b, k, at + 16);
      SixteenBits(X(), at + 16);
      bad := n != 0xffff - Low(b, 16); // (~b) & 0xffff
      if !bad {
        DumpIs(X(), input.fetched, b, k, at + 16, 16);
        b, k := Shr(b, 16), k - 16;
      }
    }

    /** inflate.c:626-678 */
    method InflateStored(ghost pos: nat) returns (r: nat)
      requires Ready(pos)
      modifies this, input, win, win.slide
      ensures Returned(RunStored(X(), pos, old(Out())), r)
    {
      hide Shl, Rev, Low, Shr, Pow2, Stream, Flatten, Mirrors, Full, RawBytes, Holds, Windows;
      ghost var p := pos + (if pos % 8 == 0 then 0 else 8 - pos % 8);
      win.SentAre(win.outcnt);
      var bad, n, b, k := StoredLength(bb, bk, pos);
      if bad {
        return 1;
      }
      var w;
      b, k, w := CopyRaw(b, k, win.outcnt, n, p + 32);
      win.outcnt := w;
      bb, bk := b, k;
      r := 0;
    }

    /** inflate.c:682-732 */
    method InflateFixed(ghost pos: nat, ghost fuel: nat) returns (r: nat)
      requires Ready(pos)
      requires var run := RunCodes(FixedLit(), FixedDist(), X(), pos, Out(), fuel); run.Done? || run.Fail?
      modifies this, input, win, win.slide, tables
      ensures Returned(RunCodes(FixedLit(), FixedDist(), X(), pos, old(Out()), fuel), r)
      ensures |tables.heap| >= old(|tables.heap|)
    {
      hide Shl, Rev, Low, Shr, Pow2, Stream, Flatten, Mirrors, Full, Holds, RunCodes, TableFor, FitsLengths, KraftSum, MaxLen;
      hide MinLen, Extends, Windows;
      var l := seq(288, _ => 0);
      var i := 0;
      while i < 144
        invariant 0 <= i <= 144 && |l| == 288 && forall s :: 0 <= s < i ==> l[s] == FixedLit()[s]
      {
        l := l[i := 8];
        i := i + 1;
      }
      while i < 256
        invariant 144 <= i <= 256 && |l| == 288 && forall s :: 0 <= s < i ==> l[s] == FixedLit()[s]
      {
        l := l[i := 9];
        i := i + 1;
      }
      while i < 280
        invariant 256 <= i <= 280 && |l| == 288 && forall s :: 0 <= s < i ==> l[s] == FixedLit()[s]
      {
        l := l[i := 7];
        i := i + 1;
      }
      while i < 288
        invariant 280 <= i <= 288 && |l| == 288 && forall s :: 0 <= s < i ==> l[s] == FixedLit()[s]
      {
        l := l[i := 8];
        i := i + 1;
      }
      assert l == FixedLit();
      FixedSets();
      CodingsValid(l, FixedDist());
      var tl, bl;
      r, tl, bl := tables.HuftBuild(l, LITERALS, 7);
      if r != 0 {
        return;
      }
      i := 0;
      while i < 30
        invariant 0 <= i <= 30 && |l| == 288 && forall s :: 0 <= s < i ==> l[s] == 5
      {
        l := l[i := 5];
        i := i + 1;
      }
      assert l[..30] == FixedDist();
      ghost var before := tables.heap;
      var td, bd;
      r, td, bd := tables.HuftBuild(l[..30], DISTANCES, 5);
      if r > 1 {
        return;
      }
      TableForExtends(before, tables.heap, tl, bl, FixedLit(), LITERALS);
      r := InflateCodes(tl, td, bl, bd, FixedLit(), FixedDist(), pos, fuel);
      r := if r != 0 then 1 else 0;
    }

    /** inflate.c:786-793: the lengths of the code length code, into the start of ll[]. */
    method ReadCodeLengthCode(nb: nat, ll0: seq<nat>, b0: nat, k0: nat, ghost pos: nat)
      returns (ll: seq<nat>, b: nat, k: nat)
      requires nb <= 19 && |ll0| == 316 && input.Has(b0, k0, pos)
      modifies input
      ensures |ll| == 316 && ll[..19] == CodeLengthCode(X(), pos, nb)
      ensures input.Has(b, k, pos + 3 * nb)
    {
      hide Shl, Rev, Low, Shr, Pow2, Stream, Holds, CodeLengthCode;
      ll, b, k := ll0, b0, k0;
      var j := 0;
      while j < nb
        invariant 0 <= j <= nb && |ll| == 316 && input.Has(b, k, pos + 3 * j)
        invariant forall i :: 0 <= i < j ==> ll[ORDER[i]] == Field(X(), pos + 3 * i, 3)
      {
        b, k := input.NeedBits(3, b, k, pos + 3 * j);
        OrderInjective(j);
        ll := ll[ORDER[j] := Low(b, 3)];
        DumpIs(X(), input.fetched, b, k, pos + 3 * j, 3);
        b, k := Shr(b, 3), k - 3;
        j := j + 1;
      }
      ll := ZeroRest(nb, ll);
      CodeLengthCodeIs(X(), pos, nb, ll[..19]);
    }

    /** inflate.c:792-793 */
    method ZeroRest(nb: nat, ll0: seq<nat>) returns (ll: seq<nat>)
      requires nb <= 19 && |ll0| == 316
      ensures |ll| == 316
      ensures forall i :: 0 <= i < 19 ==> ORDER[i] < 19 && ll[ORDER[i]] == if i < nb then ll0[ORDER[i]] else 0
    {
      ll := ll0;
      var j := nb;
      forall i | 0 <= i < 19
        ensures ORDER[i] < 19
      {
        OrderPlace(i);
      }
      while j < 19
        invariant nb <= j <= 19 && |ll| == 316
        invariant forall i :: 0 <= i < 19 ==> ORDER[i] < 19
        invariant forall i :: 0 <= i < j ==> ll[ORDER[i]] == if i < nb then ll0[ORDER[i]] else 0
      {
        OrderInjective(j);
        ll := ll[ORDER[j] := 0];
        j := j + 1;
      }
    }

    /**
     inflate.c:812-852: `n` code lengths, by one look-up each in the table at `tl`. `bad` is the error return for a
     repeat that runs past the end.
     */
    method ReadCodeLengths(tl: nat, bl: nat, n: nat, ll0: seq<nat>, b0: nat, k0: nat,
                           ghost code: seq<nat>, ghost pos: nat)
      returns (bad: bool, ll: seq<nat>, b: nat, k: nat, ghost at: nat)
      requires |code| == 19 && ValidCoding(code, CODELENGTHS) && (forall s :: 0 <= s < 19 ==> code[s] <= bl <= BMAX)
      requires |ll0| == 316 && n <= 316 && input.Has(b0, k0, pos)
      requires TableFor(tables.heap, tl, bl, code, CODELENGTHS)
      requires ReadLengths(code, X(), pos, n, 0, []) != UndefLengths
      modifies input
      ensures |ll| == 316
      ensures match ReadLengths(code, X(), pos, n, 0, [])
        case BadLengths => bad
        case UndefLengths => true
        case Lengths(p, lens) => !bad && ll[..n] == lens && at == p && input.Has(b, k, p)
    {
      hide Shl, Rev, Low, Shr, Pow2, Stream, Holds, TableFor, Walk, DecodeSym, ReadLengths;
      ghost var result := ReadLengths(code, X(), pos, n, 0, []);
      ll, b, k, at := ll0, b0, k0, pos;
      var i: nat, l: nat := 0, 0;
      assert ll[..0] == [];
      while i < n
        invariant i <= n && |ll| == 316 && l <= 15 && input.Has(b, k, at)
        invariant forall s :: 0 <= s < i ==> ll[s] <= 15
        invariant result == ReadLengths(code, X(), at, n, l, ll[..i])
        decreases n - i
      {
        LengthsStep(code, X(), at, n, l, ll[..i]);
        ghost var s := DecodeSym(code, Shr(X(), at)).sym;
        b, k := input.NeedBits(bl, b, k, at);
        OneLookup(tables.heap, tl, bl, code, Shr(X(), at));
        var td := tables.heap[tl + Low(b, bl)];
        DumpIs(X(), input.fetched, b, k, at, td.b);
        b, k, at := Shr(b, td.b), k - td.b, at + td.b;
        var j := td.v;
        if j < 16 {
          l := j;
          assert ll[i := l][..i + 1] == ll[..i] + [l];
          ll := ll[i := l];
          i := i + 1;
        } else {
          var bits, least := if j == 16 then 2 else if j == 17 then 3 else 7, if j == 18 then 11 else 3;
          b, k := input.NeedBits(bits, b, k, at);
          var times := least + Low(b, bits);
          DumpIs(X(), input.fetched, b, k, at, bits);
          b, k, at := Shr(b, bits), k - bits, at + bits;
          if i + times > n {
            return true, ll, b, k, at;
          }
          if j != 16 {
            l := 0;
          }
          ll, i := FillLengths(ll, i, times, l);
        }
      }
      bad := false;
      LengthsDone(code, X(), at, n, l, ll[..n]);
    }

    /** inflate.c:827-828, 837-838, 848-849 */
    method FillLengths(ll0: seq<nat>, i0: nat, times: nat, l: nat) returns (ll: seq<nat>, i: nat)
      requires i0 + times <= |ll0|
      ensures |ll| == |ll0| && i == i0 + times && ll[..i] == ll0[..i0] + Repeat(l, times)
    {
      ll, i := ll0, i0;
      var j := times;
      while j > 0
        invariant 0 <= j <= times && i == i0 + (times - j) && |ll| == |ll0|
        invariant ll[..i] == ll0[..i0] + Repeat(l, times - j)
      {
        assert ll[i := l][..i + 1] == ll[..i] + [l];
        assert Repeat(l, times - j + 1) == Repeat(l, times - j) + [l];
        ll := ll[i := l];
        i, j := i + 1, j - 1;
      }
    }

    /** inflate.c:766-775 */
    method ReadCounts(ghost pos: nat) returns (nl: nat, nd: nat, nb: nat, b: nat, k: nat)
      requires Ready(pos)
      modifies input
      ensures nl == 257 + Field(X(), pos, 5) && nd == 1 + Field(X(), pos + 5, 5) && nb == 4 + Field(X(), pos + 10, 4)
      ensures nb <= 19 && input.Has(b, k, pos + 14)
    {
      hide Shl, Rev, Low, Shr, Pow2, Stream, Holds;
      b, k := input.NeedBits(5, bb, bk, pos);
      nl := 257 + Low(b, 5);
      DumpIs(X(), input.fetched, b, k, pos, 5);
      b, k := Shr(b, 5), k - 5;
      b, k := input.NeedBits(5, b, k, pos + 5);
      nd := 1 + Low(b, 5);
      DumpIs(X(), input.fetched, b, k, pos + 5, 5);
      b, k := Shr(b, 5), k - 5;
      b, k := input.NeedBits(4, b, k, pos + 10);
      nb := 4 + Low(b, 4);
      FourBits(X(), pos + 10);
      DumpIs(X(), input.fetched, b, k, pos + 10, 4);
      b, k := Shr(b, 4), k - 4;
    }

    /** inflate.c:798-804 */
    method BuildCodeLengthTable(code: seq<nat>) returns (r: nat, tl: nat, bl: nat)
      requires |code| == 19 && forall s :: 0 <= s < 19 ==> code[s] <= 7
      modifies tables
      ensures r == SetCode(code) && ValidCoding(code, CODELENGTHS)
      ensures |tables.heap| >= old(|tables.heap|)
      ensures r == 0 ==> bl <= BMAX && TableFor(tables.heap, tl, bl, code, CODELENGTHS)
      ensures r == 0 ==> forall s :: 0 <= s < 19 ==> code[s] <= bl
    {
      hide Shl, Rev, Low, Shr, Pow2, TableFor, FitsLengths, KraftSum, Clamp, Extends, MinLen;
      SmallSetFits(code);
      r, tl, bl := tables.HuftBuild(code, CODELENGTHS, 7);
      SmallSetLook(code);
    }

    /** inflate.c:867-909: the two trees, then the codes. */
    method InflateTrees(lit: seq<nat>, dist: seq<nat>, ghost pos: nat, ghost fuel: nat) returns (r: nat)
      requires 0 < |lit| <= 286 && forall s :: 0 <= s < |lit| ==> lit[s] <= 15
      requires 0 < |dist| <= 30 && forall s :: 0 <= s < |dist| ==> dist[s] <= 15
      requires Ready(pos)
      requires var run := RunTrees(lit, dist, X(), pos, Out(), fuel); run.Done? || run.Fail?
      modifies this, input, win, win.slide, tables
      ensures Returned(RunTrees(lit, dist, X(), pos, old(Out()), fuel), r)
      ensures |tables.heap| >= old(|tables.heap|)
    {
      hide Shl, Rev, Low, Shr, Pow2, Stream, Flatten, Mirrors, Full, Holds, RunCodes, TableFor, FitsLengths, KraftSum, Extends;
      hide MinLen, Clamp, Windows;
      win.SentAre(win.outcnt);
      CodingsValid(lit, dist);
      LiteralFits(lit);
      var tl, bl, td, bd;
      r, tl, bl := tables.HuftBuild(lit, LITERALS, LBITS);
      if r != 0 {
        return;
      }
      ghost var before := tables.heap;
      r, td, bd := tables.HuftBuild(dist, DISTANCES, DBITS);
      if r != 0 {
        return;
      }
      DistanceFits(dist);
      TableForExtends(before, tables.heap, tl, bl, lit, LITERALS);
      r := InflateCodes(tl, td, bl, bd, lit, dist, pos, fuel);
      r := if r != 0 then 1 else 0;
    }

    /** inflate.c:736-910 */
    method InflateDynamic(ghost pos: nat, ghost fuel: nat) returns (r: nat)
      requires Ready(pos)
      requires var run := RunDynamic(X(), pos, Out(), fuel); run.Done? || run.Fail?
      modifies this, input, win, win.slide, tables
      ensures Returned(RunDynamic(X(), pos, old(Out()), fuel), r)
      ensures |tables.heap| >= old(|tables.heap|)
    {
      hide Shl, Rev, Low, Shr, Pow2, Stream, Flatten, Mirrors, Full, Holds, TableFor, KraftSum, CodeLengthCode, ReadLengths;
      hide RunTrees, MaxLen, Windows;
      win.SentAre(win.outcnt);
      var nl, nd, nb, b, k := ReadCounts(pos);
      if nl > 286 || nd > 30 {
        return 1;
      }
      var ll := seq(316, _ => 0);
      ll, b, k := ReadCodeLengthCode(nb, ll, b, k, pos + 14);
      ghost var code := ll[..19];
      var tl, bl;
      r, tl, bl := BuildCodeLengthTable(ll[..19]);
      if r != 0 {
        return;
      }
      var bad;
      ghost var at;
      bad, ll, b, k, at := ReadCodeLengths(tl, bl, nl + nd, ll, b, k, code, pos + 14 + 3 * nb);
      if bad {
        return 1;
      }
      bb, bk := b, k;
      assert ll[..nl + nd][..nl] == ll[..nl] && ll[..nl + nd][nl..] == ll[nl..nl + nd];
      r := InflateTrees(ll[..nl], ll[nl..nl + nd], at, fuel);
    }

    /** inflate.c:914-957. `e` is the last-block flag. */
    method InflateBlock(ghost pos: nat, ghost fuel: nat) returns (r: nat, e: nat)
      requires Ready(pos)
      requires var run := RunBlock(X(), pos + 1, Out(), fuel); run.Done? || run.Fail?
      modifies this, input, win, win.slide, tables
      ensures Returned(RunBlock(X(), pos + 1, old(Out()), fuel), r) && e == Field(X(), pos, 1)
      ensures |tables.heap| >= old(|tables.heap|)
    {
      hide Shl, Rev, Low, Shr, Pow2, Stream, Flatten, Mirrors, Full, Holds, RunDynamic, RunCodes, RunStored, Windows;
      win.SentAre(win.outcnt);
      var b, k := bb, bk;
      b, k := input.NeedBits(1, b, k, pos);
      e := Low(b, 1);
      DumpIs(X(), input.fetched, b, k, pos, 1);
      b, k := Shr(b, 1), k - 1;
      b, k := input.NeedBits(2, b, k, pos + 1);
      var t := Low(b, 2);
      DumpIs(X(), input.fetched, b, k, pos + 1, 2);
      b, k := Shr(b, 2), k - 2;
      bb, bk := b, k;
      if t == 2 {
        r := InflateDynamic(pos + 3, fuel);
      } else if t == 0 {
        r := InflateStored(pos + 3);
      } else if t == 1 {
        r := InflateFixed(pos + 3, fuel);
      } else {
        r := 2;
      }
    }

    /** inflate.c:989-995: whole bytes left in the bit buffer go back to the input; inptr is a C unsigned int. */
    method UndoLookahead(ghost pos: nat)
      requires input.Has(bb, bk, pos) && |input.inbuf| < 0x1_0000_0000
      modifies this`bk, input`inptr
      ensures input.fetched < 0x1_0000_0000 ==>
        (input.inptr == (pos + 7) / 8 <==> input.fetched <= |input.inbuf|)
      ensures (pos + 7) / 8 + 2 <= |input.inbuf| ==> input.inptr == (pos + 7) / 8
    {
      hide Holds, Stream;
      BufferedBytes(X(), input.fetched, bb, bk, pos);
      ghost var all := bk;
      while bk >= 8
        invariant bk <= all && bk % 8 == all % 8
        invariant 8 * input.inptr == 8 * (if input.fetched <= |input.inbuf| then input.fetched else |input.inbuf|) - (all - bk)
          + (if input.inptr > |input.inbuf| then 8 * 0x1_0000_0000 else 0)
        invariant 0 <= input.inptr < 0x1_0000_0000
      {
        bk := bk - 8;
        input.inptr := if input.inptr == 0 then 0xffff_ffff else input.inptr - 1;
      }
      LookaheadUndone(pos, input.fetched, |input.inbuf|, all, bk, input.inptr);
    }

    /** inflate.c:961-1004, on a new input with an unused window; `fuel` only counts steps. */
    method Inflate(ghost fuel: nat) returns (r: nat)
      requires input.Valid() && input.fetched == 0 && |input.inbuf| < 0x1_0000_0000
      requires win.Valid(0) && win.flushed == []
      requires Inflated(input.inbuf, fuel).Done? || Inflated(input.inbuf, fuel).Fail?
      modifies this, input, win, win.slide, tables
      ensures match Inflated(input.inbuf, fuel)
        case Done(pos, out) =>
          && r == 0
          && win.flushed == Windows(out) + [Rest(out)] && win.outcnt == 0
          && (input.fetched < 0x1_0000_0000 ==>
                (input.inptr == (pos + 7) / 8 <==> input.fetched <= |input.inbuf|))
          && ((pos + 7) / 8 + 2 <= |input.inbuf| ==> input.inptr == (pos + 7) / 8)
        case Fail(code, out) => r == code && win.flushed == Windows(out)
        case _ => true
      ensures |tables.heap| == old(|tables.heap|)
    {
      hide Shl, Rev, Low, Shr, Pow2, Stream, Mirrors, Full, RunBlock, Windows;
      win.outcnt, bk, bb := 0, 0, 0;
      assert Ready(0) && Out() == [] by { EmptyBuffer(X()); }
      ghost var run := RunBlocks(X(), 0, [], fuel);
      ghost var at: nat, left: nat := 0, fuel;
      var h := 0;
      while true
        invariant Ready(at) && run == RunBlocks(X(), at, Out(), left)
        invariant |tables.heap| == old(|tables.heap|)
        decreases left
      {
        BlocksStep(X(), at, Out(), left);
        ghost var block := RunBlock(X(), at + 1, Out(), left);
        tables.hufts := 0;
        var mark := |tables.heap|;
        var e;
        r, e := InflateBlock(at, left);
        if r != 0 {
          tables.MallocRelease(mark);
          return;
        }
        tables.MallocRelease(mark);
        if tables.hufts > h {
          h := tables.hufts;
        }
        at := block.pos;
        if e != 0 {
          break;
        }
        left := left - 1;
      }
      win.SentAre(win.outcnt);
      UndoLookahead(at);
      win.FlushOutput(win.outcnt);
      r := 0;
    }
  }

  /** One block of the reference decoder, unfolded. */
  lemma BlocksStep(x: nat, pos: nat, out: seq<byte>, fuel: nat)
    requires RunBlocks(x, pos, out, fuel).Done? || RunBlocks(x, pos, out, fuel).Fail?
    ensures fuel > 0
    ensures var block := RunBlock(x, pos + 1, out, fuel);
      && (block.Done? || block.Fail?)
      && (block.Fail? ==> block.code != 0)
      && RunBlocks(x, pos, out, fuel)
         == if block.Done? && Field(x, pos, 1) == 0 then RunBlocks(x, block.pos, block.out, fuel - 1) else block
  {
    hide RunCodes, RunStored, RunDynamic, Shl, Shr, Low, Pow2;
    if fuel > 0 {
      BlockFails(x, pos + 1, out, fuel);
    }
  }

  lemma EmptyBuffer(x: nat)
    ensures Holds(x, 0, 0, 0, 0)
  {
  }

  lemma BufferedBytes(x: nat, fetched: nat, b: nat, k: nat, pos: nat)
    requires Holds(x, fetched, b, k, pos)
    ensures 8 * fetched - k == pos && k <= 23
    ensures fetched - k / 8 == (pos + 7) / 8
  {
  }

  /** With nine look-up bits two levels are enough for codes of fifteen bits. */
  lemma LiteralFits(lit: seq<nat>)
    requires 0 < |lit| <= 286 && forall s :: 0 <= s < |lit| ==> lit[s] <= 15
    ensures ValidLengths(lit) && (MaxLen(lit) > 0 ==> FitsLengths(lit, LBITS))
  {
    hide FitsLengths, KraftSum;
    if MaxLen(lit) > 0 {
      EasyFits(lit, LBITS);
    }
  }

  /** With six look-up bits a full table has more slots than there are distance codes. */
  lemma DistanceFits(dist: seq<nat>)
    requires 0 < |dist| <= 30 && forall s :: 0 <= s < |dist| ==> dist[s] <= 15
    requires SetCode(dist) == 0
    ensures ValidLengths(dist) && (MaxLen(dist) > 0 ==> FitsLengths(dist, DBITS))
  {
    hide FitsLengths, KraftSum;
    if MaxLen(dist) > 0 {
      var l := Clamp(DBITS, MinLen(dist), MaxLen(dist));
      if MaxLen(dist) > 2 * l {
        Pow2Mono(6, l);
        SmallPowers();
      }
      EasyFits(dist, DBITS);
    }
  }

  /** Code length codes have at most seven bits, so one table does. */
  lemma SmallSetFits(code: seq<nat>)
    requires |code| == 19 && forall s :: 0 <= s < 19 ==> code[s] <= 7
    ensures ValidLengths(code) && ValidCoding(code, CODELENGTHS)
    ensures MaxLen(code) > 0 ==> FitsLengths(code, 7)
  {
    hide FitsLengths;
    if MaxLen(code) > 0 {
      EasyFits(code, 7);
    }
  }

  lemma SmallSetLook(code: seq<nat>)
    requires |code| == 19 && forall s :: 0 <= s < 19 ==> code[s] <= 7
    ensures Clamp(7, MinLen(code), MaxLen(code)) == MaxLen(code)
    ensures forall s :: 0 <= s < 19 ==> code[s] <= MaxLen(code)
  {
    if MinLen(code) > 0 {
      assert MinLen(code) in code;
    }
  }

  // ----- the code length code

  /** Where each length stands in ORDER. */
  const PLACE: seq<nat> := [3, 17, 15, 13, 11, 9, 7, 5, 4, 6, 8, 10, 12, 14, 16, 18, 0, 1, 2]

  lemma OrderPlace(i: nat)
    requires i < 19
    ensures ORDER[i] < 19 && PLACE[ORDER[i]] == i
  {
    if i < 10 {
      assert i == 0 || i == 1 || i == 2 || i == 3 || i == 4 || i == 5 || i == 6 || i == 7 || i == 8 || i == 9;
    } else {
      assert i == 10 || i == 11 || i == 12 || i == 13 || i == 14 || i == 15 || i == 16 || i == 17 || i == 18;
    }
  }

  lemma PlaceOrder(s: nat)
    requires s < 19
    ensures PLACE[s] < 19 && ORDER[PLACE[s]] == s
  {
    if s < 10 {
      assert s == 0 || s == 1 || s == 2 || s == 3 || s == 4 || s == 5 || s == 6 || s == 7 || s == 8 || s == 9;
    } else {
      assert s == 10 || s == 11 || s == 12 || s == 13 || s == 14 || s == 15 || s == 16 || s == 17 || s == 18;
    }
  }

  lemma OrderInjective(j: nat)
    requires j < 19
    ensures ORDER[j] < 19 && forall i: nat :: i < j ==> ORDER[i] < 19 && ORDER[i] != ORDER[j]
  {
    OrderPlace(j);
    forall i: nat | i < j
      ensures ORDER[i] < 19 && ORDER[i] != ORDER[j]
    {
      OrderPlace(i);
    }
  }

  lemma {:induction false} CodeLengthAt(x: nat, pos: nat, n: nat, i: nat)
    requires n <= 19 && i < 19
    ensures ORDER[i] < 19
    ensures CodeLengthCode(x, pos, n)[ORDER[i]] == if i < n then Field(x, pos + 3 * i, 3) else 0
    decreases n
  {
    OrderPlace(i);
    if n != 0 {
      CodeLengthAt(x, pos, n - 1, i);
      OrderPlace(n - 1);
    }
  }

  lemma CodeLengthCodeIs(x: nat, pos: nat, n: nat, lens: seq<nat>)
    requires n <= 19 && |lens| == 19
    requires forall i :: 0 <= i < 19 ==> ORDER[i] < 19
    requires forall i :: 0 <= i < 19 ==> lens[ORDER[i]] == if i < n then Field(x, pos + 3 * i, 3) else 0
    ensures lens == CodeLengthCode(x, pos, n)
  {
    hide CodeLengthCode;
    forall s | 0 <= s < 19
      ensures lens[s] == CodeLengthCode(x, pos, n)[s]
    {
      PlaceOrder(s);
      CodeLengthAt(x, pos, n, PLACE[s]);
    }
  }

  /** No code being longer than the look-up, one look-up is the whole walk. */
  lemma OneLookup(heap: seq<Huft>, t: nat, look: nat, code: seq<nat>, y: nat)
    requires |code| == 19 && ValidCoding(code, CODELENGTHS) && TableFor(heap, t, look, code, CODELENGTHS)
    requires DecodeSym(code, y).Sym? && DecodeSym(code, y).sym < 19 && code[DecodeSym(code, y).sym] <= look
    ensures t + Low(y, look) < |heap|
    ensures var r := heap[t + Low(y, look)];
      r.Huft? && r.v == DecodeSym(code, y).sym && r.b == code[DecodeSym(code, y).sym]
  {
    hide Shl, Rev, Low, Shr, Pow2, DecodeSym;
    assert Agrees(Walk(heap, t, look, y), code, CODELENGTHS, DecodeSym(code, y));
  }

  /** One code length of the reference decoder, unfolded. */
  lemma LengthsStep(code: seq<nat>, x: nat, pos: nat, n: nat, prev: nat, lens: seq<nat>)
    requires |code| == 19 && |lens| < n && prev <= 15 && forall j :: 0 <= j < |lens| ==> lens[j] <= 15
    requires ReadLengths(code, x, pos, n, prev, lens) != UndefLengths
    ensures DecodeSym(code, Shr(x, pos)).Sym? && DecodeSym(code, Shr(x, pos)).sym < 19
    ensures var s := DecodeSym(code, Shr(x, pos)).sym;
      var p := pos + code[s];
      var result := ReadLengths(code, x, pos, n, prev, lens);
      if s < 16 then result == ReadLengths(code, x, p, n, s, lens + [s])
      else
        var bits := if s == 16 then 2 else if s == 17 then 3 else 7;
        var times := (if s == 18 then 11 else 3) + Field(x, p, bits);
        var what := if s == 16 then prev else 0;
        if |lens| + times > n then result == BadLengths
        else result == ReadLengths(code, x, p + bits, n, what, lens + Repeat(what, times))
  {
    hide DecodeSym, Shr, Low;
    SymbolInSet(code, Shr(x, pos));
  }

  lemma LengthsDone(code: seq<nat>, x: nat, pos: nat, n: nat, prev: nat, lens: seq<nat>)
    requires |code| == 19 && |lens| == n && prev <= 15 && forall j :: 0 <= j < |lens| ==> lens[j] <= 15
    ensures ReadLengths(code, x, pos, n, prev, lens) == Lengths(pos, lens)
  {
  }

  // ----- the fixed codes

  lemma {:induction false} CountConcat(a: seq<nat>, b: seq<nat>, k: nat)
    ensures Count(a + b, k) == Count(a, k) + Count(b, k)
  {
    if |b| == 0 {
      assert a + b == a;
    } else {
      CountConcat(a, b[..|b| - 1], k);
      assert (a + b)[..|a + b| - 1] == a + b[..|b| - 1];
    }
  }

  lemma {:induction false} CountRepeat(v: nat, n: nat, lens: seq<nat>, k: nat)
    requires |lens| == n && forall s :: 0 <= s < n ==> lens[s] == v
    ensures Count(lens, k) == if k == v then n else 0
  {
    if n != 0 {
      CountRepeat(v, n - 1, lens[..n - 1], k);
    }
  }

  lemma FixedLitCount(k: nat)
    ensures Count(FixedLit(), k) == if k == 7 then 24 else if k == 8 then 152 else if k == 9 then 112 else 0
  {
    hide Count;
    var a, b, c, d := seq<nat>(144, _ => 8), seq<nat>(112, _ => 9), seq<nat>(24, _ => 7), seq<nat>(8, _ => 8);
    CountConcat(a + b + c, d, k);
    CountConcat(a + b, c, k);
    CountConcat(a, b, k);
    CountRepeat(8, 144, a, k);
    CountRepeat(9, 112, b, k);
    CountRepeat(7, 24, c, k);
    CountRepeat(8, 8, d, k);
    assert FixedLit() == a + b + c + d;
  }

  lemma FixedLitUsed()
    ensures ValidLengths(FixedLit()) && MaxLen(FixedLit()) == 9 && MinLen(FixedLit()) == 7
    ensures KraftSum(FixedLit()) == Pow2(BMAX)
  {
    hide Pow2, KraftSum, Count, FixedLit;
    var c := Counts(FixedLit());
    assert ValidLengths(FixedLit()) by { FixedLitLengths(); }
    forall k: nat | k <= BMAX
      ensures c[k] == if k == 7 then 24 else if k == 8 then 152 else if k == 9 then 112 else 0
    {
      FixedLitCount(k);
    }
    ExtremeLengths(FixedLit(), 7, 9);
    UsedBelow(c, 7, 6);
    assert Used(c, 7) == 24;
    assert Used(c, 8) == 200;
    assert Used(c, 9) == 512;
    SmallPowers();
    ShareAtEnd(c, 9);
    KraftIsUsed(FixedLit());
  }

  lemma FixedLitLengths()
    ensures ValidLengths(FixedLit())
  {
  }

  lemma FixedDistUsed()
    ensures ValidLengths(FixedDist()) && MaxLen(FixedDist()) == 5 && MinLen(FixedDist()) == 5
    ensures KraftSum(FixedDist()) < Pow2(BMAX)
  {
    hide Pow2, KraftSum;
    var c := Counts(FixedDist());
    forall k: nat | k <= BMAX
      ensures c[k] == if k == 5 then 30 else 0
    {
      CountRepeat(5, 30, FixedDist(), k);
    }
    ExtremeLengths(FixedDist(), 5, 5);
    UsedBelow(c, 5, 4);
    assert Used(c, 5) == 30;
    SmallPowers();
    ShareAtEnd(c, 5);
    KraftIsUsed(FixedDist());
  }

  /** Both fixed sets are usable, and their tables are right. */
  lemma FixedSets()
    ensures ValidLengths(FixedLit()) && ValidLengths(FixedDist())
    ensures KraftSum(FixedLit()) == Pow2(BMAX) && FitsLengths(FixedLit(), 7)
    ensures KraftSum(FixedDist()) < Pow2(BMAX) && FitsLengths(FixedDist(), 5)
  {
    hide Pow2, KraftSum, FitsLengths, FixedLit, FixedDist, MaxLen, MinLen;
    FixedLitUsed();
    FixedDistUsed();
    EasyFits(FixedLit(), 7);
    EasyFits(FixedDist(), 5);
  }

  /** Whole bytes given back; the pointer may have wrapped around below 0. */
  lemma LookaheadUndone(pos: nat, fetched: nat, size: nat, all: nat, bk: nat, inptr: nat)
    requires fetched - all / 8 == (pos + 7) / 8 && all <= 23 && bk <= all && bk < 8 && bk % 8 == all % 8
    requires 8 * inptr == 8 * (if fetched <= size then fetched else size) - (all - bk)
                          + (if inptr > size then 8 * 0x1_0000_0000 else 0)
    requires inptr < 0x1_0000_0000 && size < 0x1_0000_0000
    ensures fetched < 0x1_0000_0000 ==> (inptr == (pos + 7) / 8 <==> fetched <= size)
    ensures (pos + 7) / 8 + 2 <= size ==> inptr == (pos + 7) / 8
  {
    assert all - bk == 8 * (all / 8);
  }

  lemma ToByteBoundary(pos: nat, k: nat, fetched: nat)
    requires pos + k == 8 * fetched
    ensures k % 8 == if pos % 8 == 0 then 0 else 8 - pos % 8
  {
  }

  lemma SixteenBits(x: nat, pos: nat)
    ensures Field(x, pos, 16) <= 0xffff
  {
    FieldBound(x, pos, 16);
    assert Pow2(12) == 4096;
    assert Pow2(16) == 65536;
  }

  lemma RawNone(x: nat, pos: nat)
    ensures RawBytes(x, pos, 0) == []
  {
  }

  /** The raw bytes, one more at the end. */
  lemma {:induction false} RawNext(x: nat, pos: nat, n: nat)
    ensures Field(x, pos + 8 * n, 8) < 256
    ensures RawBytes(x, pos, n + 1) == RawBytes(x, pos, n) + [Field(x, pos + 8 * n, 8)]
    decreases n
  {
    hide Shl, Rev, Low, Shr, Pow2;
    ByteBound(x, pos + 8 * n);
    if n != 0 {
      RawNext(x, pos + 8, n - 1);
    }
  }

  lemma {:induction false} LengthPositive(s: nat)
    requires 257 <= s <= 285
    ensures LengthBase(s) > 0 && LengthExtra(s) <= 5
  {
    if 257 < s < 285 {
      LengthPositive(s - 1);
    }
  }
}
