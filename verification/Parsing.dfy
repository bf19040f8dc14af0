/**
 The other direction: whatever the reference decoder decodes to the end is a list of blocks as an encoder may write it.
 So the streams it accepts are exactly those.
 */
module Parsing {
  import opened Bits
  import opened Bytes
  import opened Huffman
  import opened Deflate
  import opened DeflateFacts
  import opened Encoder
  import opened Inflate

  /** The stream from `pos` on starts with these pieces, and `end` is behind them. */
  ghost predicate Reads(x: nat, pos: nat, ps: seq<Piece>, end: nat) {
    Shr(x, pos) == Pack(ps, Shr(x, end)) && end == pos + Width(ps)
  }

  lemma ReadsPiece(x: nat, pos: nat, w: nat)
    ensures Reads(x, pos, [Piece(Field(x, pos, w), w)], pos + w) && Field(x, pos, w) < Pow2(w)
  {
    hide Shl, Shr, Low, Pow2, Pack, Width;
    var p := Piece(Field(x, pos, w), w);
    LowShr(Shr(x, pos), w);
    LowBound(Shr(x, pos), w);
    ShrShr(x, pos, w);
    PackOne(p, Shr(x, pos + w));
  }

  lemma ReadsMore(x: nat, pos: nat, a: seq<Piece>, mid: nat, b: seq<Piece>, end: nat)
    requires Reads(x, pos, a, mid) && Reads(x, mid, b, end)
    ensures Reads(x, pos, a + b, end)
  {
    hide Shr, Pack, Width;
    PackAppend(a, b, Shr(x, end));
  }

  lemma ReadsNothing(x: nat, pos: nat)
    ensures Reads(x, pos, [], pos)
  {
  }

  lemma ReadsSym(lens: seq<nat>, s: nat, x: nat, pos: nat)
    requires DecodeSym(lens, Shr(x, pos)) == Sym(s) && Usable(lens)
    ensures s < |lens| && lens[s] > 0 && Reads(x, pos, [SymPiece(lens, s)], pos + lens[s])
  {
    hide Shl, Shr, Low, Pow2, Pack, Width, Rev, KraftSum;
    var y := Shr(x, pos);
    assert Matches(lens, s, y) by {
      SymMatches(lens, s, y);
    }
    var k := lens[s];
    LowIsRev(k, y);
    LowShr(y, k);
    ShrShr(x, pos, k);
    PackOne(SymPiece(lens, s), Shr(x, pos + k));
  }

  lemma SymMatches(lens: seq<nat>, s: nat, x: nat)
    requires DecodeSym(lens, x) == Sym(s)
    ensures Matches(lens, s, x)
  {
    hide Matches;
  }

  lemma LowIsRev(k: nat, x: nat)
    ensures Rev(k, Rev(k, x)) == Low(x, k)
  {
    hide Shr, Low, Pow2, Rev;
    LowBound(x, k);
    LowNest(x, k, k);
    RevSame(k, x, Low(x, k));
    RevTwice(k, Low(x, k));
  }

  // ----- coded data

  lemma TokenReads(lit: seq<nat>, dist: seq<nat>, x: nat, pos: nat, s: nat, d: nat) returns (t: Token)
    requires Usable(lit) && Usable(dist) && |dist| <= 30
    requires DecodeSym(lit, Shr(x, pos)) == Sym(s) && s < |lit| && 257 <= s <= 285
    requires var p2 := pos + lit[s] + LengthExtra(s); DecodeSym(dist, Shr(x, p2)) == Sym(d) && d < |dist|
    ensures var p1 := pos + lit[s];
      var p3 := p1 + LengthExtra(s) + dist[d];
      && t == Match(s, Field(x, p1, LengthExtra(s)), d, Field(x, p3, DistExtra(d))) && TokenOk(lit, dist, t)
      && Reads(x, pos, TokenPieces(lit, dist, t), p3 + DistExtra(d))
  {
    hide Shl, Shr, Low, Pow2, Pack, Width, DecodeSym, KraftSum, EncodeSym, Reads, Field, LengthExtra, DistExtra;
    var p1 := pos + lit[s];
    var p2 := p1 + LengthExtra(s);
    var p3 := p2 + dist[d];
    var (e, f) := (Field(x, p1, LengthExtra(s)), Field(x, p3, DistExtra(d)));
    t := Match(s, e, d, f);
    var (a, b, c, g) := ([SymPiece(lit, s)], [Piece(e, LengthExtra(s))], [SymPiece(dist, d)], [Piece(f, DistExtra(d))]);
    ReadsSym(lit, s, x, pos);
    ReadsPiece(x, p1, LengthExtra(s));
    ReadsSym(dist, d, x, p2);
    ReadsPiece(x, p3, DistExtra(d));
    ReadsMore(x, pos, a, p1, b, p2);
    ReadsMore(x, pos, a + b, p2, c, p3);
    ReadsMore(x, pos, a + b + c, p3, g, p3 + DistExtra(d));
    assert TokenPieces(lit, dist, t) == a + b + c + g;
  }

  lemma {:induction false} CodesRead(lit: seq<nat>, dist: seq<nat>, x: nat, pos: nat, out: seq<byte>, fuel: nat)
    returns (ts: seq<Token>)
    requires Usable(lit) && Usable(dist) && |lit| <= 288 && |dist| <= 30 && RunCodes(lit, dist, x, pos, out, fuel).Done?
    ensures var r := RunCodes(lit, dist, x, pos, out, fuel);
      && |lit| > 256 && lit[256] > 0 && TokensOk(lit, dist, ts) && Reads(x, pos, CodePieces(lit, dist, ts), r.pos)
      && r.out == ExpandAll(ts, out)
    decreases fuel
  {
    hide Shl, Shr, Low, Pow2, Pack, Width, DecodeSym, KraftSum, EncodeSym, Reads, LengthBase, DistBase, LengthExtra, DistExtra,
         CopyMatch;
    var r := RunCodes(lit, dist, x, pos, out, fuel);
    var s := DecodeSym(lit, Shr(x, pos)).sym;
    ReadsSym(lit, s, x, pos);
    var p1 := pos + lit[s];
    if s == 256 {
      ts := [];
    } else if s < 256 {
      var more := CodesRead(lit, dist, x, p1, out + [s], fuel - 1);
      ts := PrependToken(lit, dist, x, pos, out, Literal(s), p1, more, r.pos);
    } else {
      var p2 := p1 + LengthExtra(s);
      var d := DecodeSym(dist, Shr(x, p2)).sym;
      var t := TokenReads(lit, dist, x, pos, s, d);
      var next := p2 + dist[d] + DistExtra(d);
      var more := CodesRead(lit, dist, x, next, Expand(t, out), fuel - 1);
      ts := PrependToken(lit, dist, x, pos, out, t, next, more, r.pos);
    }
  }

  lemma PrependToken(lit: seq<nat>, dist: seq<nat>, x: nat, pos: nat, out: seq<byte>, t: Token, mid: nat, more: seq<Token>,
                     end: nat) returns (ts: seq<Token>)
    requires |lit| > 256 && TokenOk(lit, dist, t) && TokensOk(lit, dist, more)
    requires Reads(x, pos, TokenPieces(lit, dist, t), mid) && Reads(x, mid, CodePieces(lit, dist, more), end)
    ensures TokensOk(lit, dist, ts) && Reads(x, pos, CodePieces(lit, dist, ts), end)
    ensures ExpandAll(ts, out) == ExpandAll(more, Expand(t, out))
  {
    hide Reads, TokenOk, TokenPieces, Expand;
    ts := [t] + more;
    assert ts[0] == t && ts[1..] == more;
    ReadsMore(x, pos, TokenPieces(lit, dist, t), mid, CodePieces(lit, dist, more), end);
    assert TokensOk(lit, dist, ts) by {
      assert forall t' :: t' in ts ==> t' == t || t' in more;
    }
  }

  // ----- headers

  lemma StepReads(code: seq<nat>, x: nat, pos: nat, st: LenStep)
    requires Usable(code) && |code| == 19 && DecodeSym(code, Shr(x, pos)) == Sym(StepSym(st))
    requires if st.Plain? then st.n < 16 else st.k == Field(x, pos + code[StepSym(st)], StepBits(st))
    ensures StepOk(code, st) && Reads(x, pos, StepPieces(code, st), pos + code[StepSym(st)] + StepBits(st))
  {
    hide Shl, Shr, Low, Pow2, Pack, Width, DecodeSym, KraftSum, EncodeSym, Reads, Field;
    ReadsSym(code, StepSym(st), x, pos);
    if !st.Plain? {
      var p := pos + code[StepSym(st)];
      ReadsPiece(x, p, StepBits(st));
      ReadsMore(x, pos, [SymPiece(code, StepSym(st))], p, [Piece(st.k, StepBits(st))], p + StepBits(st));
      assert StepPieces(code, st) == [SymPiece(code, StepSym(st))] + [Piece(st.k, StepBits(st))];
    }
  }

  /** The step that the decoder takes next. */
  lemma StepTaken(code: seq<nat>, x: nat, pos: nat, n: nat, prev: nat, lens: seq<nat>) returns (st: LenStep)
    requires Usable(code) && |code| == 19 && |lens| < n && prev <= 15 && forall j :: 0 <= j < |lens| ==> lens[j] <= 15
    requires ReadLengths(code, x, pos, n, prev, lens).Lengths?
    ensures StepSym(st) < 19 && NextPrev(st, prev) <= 15 && |lens| + |StepLens(st, prev)| <= n && 0 < |StepLens(st, prev)|
    ensures var next, lens' := pos + code[StepSym(st)] + StepBits(st), lens + StepLens(st, prev);
      && StepOk(code, st) && Reads(x, pos, StepPieces(code, st), next)
      && (forall j :: 0 <= j < |lens'| ==> lens'[j] <= 15)
      && ReadLengths(code, x, pos, n, prev, lens) == ReadLengths(code, x, next, n, NextPrev(st, prev), lens')
  {
    hide Shl, Shr, Low, Pow2, DecodeSym, KraftSum, EncodeSym, Reads, Field, StepPieces, StepOk;
    var s := DecodeSym(code, Shr(x, pos)).sym;
    var p := pos + code[s];
    st := if s < 16 then Plain(s) else if s == 16 then Again(Field(x, p, 2))
          else if s == 17 then Zeros(Field(x, p, 3)) else ManyZeros(Field(x, p, 7));
    StepReads(code, x, pos, st);
  }

  lemma {:induction false} LensRead(code: seq<nat>, x: nat, pos: nat, n: nat, prev: nat, lens: seq<nat>)
    returns (steps: seq<LenStep>)
    requires Usable(code) && |code| == 19 && |lens| <= n && prev <= 15 && forall j :: 0 <= j < |lens| ==> lens[j] <= 15
    requires ReadLengths(code, x, pos, n, prev, lens).Lengths?
    ensures var r := ReadLengths(code, x, pos, n, prev, lens);
      StepsOk(code, steps) && Reads(x, pos, LenPieces(code, steps), r.pos) && r.lens == lens + AllLens(steps, prev)
    decreases n - |lens|
  {
    hide DecodeSym, KraftSum, Reads, StepOk, StepPieces, ReadLengths, StepLens, NextPrev, AllLens, LenPieces, StepSym, StepBits;
    var r := ReadLengths(code, x, pos, n, prev, lens);
    if |lens| == n {
      steps := [];
      NoSteps(code, x, pos, prev, lens);
    } else {
      var st := StepTaken(code, x, pos, n, prev, lens);
      var next, lens' := pos + code[StepSym(st)] + StepBits(st), lens + StepLens(st, prev);
      var more := LensRead(code, x, next, n, NextPrev(st, prev), lens');
      steps := PrependStep(code, x, pos, st, next, more, r.pos, prev);
      assert lens + AllLens(steps, prev) == lens' + AllLens(more, NextPrev(st, prev));
    }
  }

  lemma NoSteps(code: seq<nat>, x: nat, pos: nat, prev: nat, lens: seq<nat>)
    requires |code| == 19 && prev <= 15 && forall j :: 0 <= j < |lens| ==> lens[j] <= 15
    ensures ReadLengths(code, x, pos, |lens|, prev, lens) == Lengths(pos, lens)
    ensures StepsOk(code, []) && Reads(x, pos, LenPieces(code, []), pos) && lens + AllLens([], prev) == lens
  {
    ReadsNothing(x, pos);
  }

  lemma PrependStep(code: seq<nat>, x: nat, pos: nat, st: LenStep, mid: nat, more: seq<LenStep>, end: nat, prev: nat)
    returns (steps: seq<LenStep>)
    requires StepOk(code, st) && StepsOk(code, more)
    requires Reads(x, pos, StepPieces(code, st), mid) && Reads(x, mid, LenPieces(code, more), end)
    ensures StepsOk(code, steps) && Reads(x, pos, LenPieces(code, steps), end)
    ensures AllLens(steps, prev) == StepLens(st, prev) + AllLens(more, NextPrev(st, prev))
  {
    hide Reads, StepOk, StepPieces, StepLens, NextPrev;
    steps := [st] + more;
    assert steps[0] == st && steps[1..] == more;
    ReadsMore(x, pos, StepPieces(code, st), mid, LenPieces(code, more), end);
    assert StepsOk(code, steps) by {
      assert forall st' :: st' in steps ==> st' == st || st' in more;
    }
  }

  lemma {:induction false} ThreesRead(x: nat, pos: nat, vals: seq<nat>)
    requires forall k: nat :: k < |vals| ==> vals[k] == Field(x, pos + 3 * k, 3)
    ensures Reads(x, pos, ThreeBitPieces(vals), pos + 3 * |vals|)
    decreases |vals|
  {
    hide Reads, Field;
    ReadsNothing(x, pos);
    if |vals| != 0 {
      ReadsPiece(x, pos, 3);
      assert vals[0] == Field(x, pos + 3 * 0, 3);
      forall k: nat | k < |vals| - 1
        ensures vals[1..][k] == Field(x, pos + 3 + 3 * k, 3)
      {
        assert vals[k + 1] == Field(x, pos + 3 * (k + 1), 3);
      }
      ThreesRead(x, pos + 3, vals[1..]);
      ReadsMore(x, pos, [Piece(vals[0], 3)], pos + 3, ThreeBitPieces(vals[1..]), pos + 3 * |vals|);
    }
  }

  /** The code length code was sent in its order, and the rest of it is zero. */
  lemma OrderRead(x: nat, pos: nat, nb: nat)
    requires 4 <= nb <= 19
    ensures var code := CodeLengthCode(x, pos, nb);
      && Reads(x, pos, ThreeBitPieces(Ordered(code, nb)), pos + 3 * nb)
      && forall s: nat :: s < 19 && PLACE[s] >= nb ==> code[s] == 0
  {
    hide Reads, Field, CodeLengthCode;
    var code := CodeLengthCode(x, pos, nb);
    forall s: nat | s < 19 && PLACE[s] >= nb
      ensures code[s] == 0
    {
      PlaceOrder(s);
      CodeLengthAt(x, pos, nb, PLACE[s]);
    }
    forall k: nat | k < nb
      ensures Ordered(code, nb)[k] == Field(x, pos + 3 * k, 3)
    {
      CodeLengthAt(x, pos, nb, k);
    }
    ThreesRead(x, pos, Ordered(code, nb));
  }

  lemma CountsRead(h: Preamble, x: nat, pos: nat)
    requires HeaderOk(h) && Field(x, pos, 5) == h.nl - 257 && Field(x, pos + 5, 5) == |AllLens(h.steps, 0)| - h.nl - 1
    requires Field(x, pos + 10, 4) == h.nb - 4
    ensures Reads(x, pos, CountPieces(h), pos + 14)
  {
    hide Reads, Field, Pow2, AllLens, SetsOk, CodeOk, StepsOk;
    var (a, b, c) := ([Piece(Field(x, pos, 5), 5)], [Piece(Field(x, pos + 5, 5), 5)], [Piece(Field(x, pos + 10, 4), 4)]);
    ReadsPiece(x, pos, 5);
    ReadsPiece(x, pos + 5, 5);
    ReadsPiece(x, pos + 10, 4);
    ReadsMore(x, pos, a, pos + 5, b, pos + 10);
    ReadsMore(x, pos, a + b, pos + 10, c, pos + 14);
  }

  lemma DynamicRead(x: nat, pos: nat, out: seq<byte>, fuel: nat) returns (h: Preamble, ts: seq<Token>)
    requires RunDynamic(x, pos, out, fuel).Done?
    ensures var r := RunDynamic(x, pos, out, fuel);
      DynamicOk(h, ts) && Reads(x, pos, DynamicPieces(h, ts), r.pos) && r.out == ExpandAll(ts, out)
  {
    hide Reads, Shl, Shr, Low, Pow2, RunCodes, ReadLengths, CodeLengthCode, KraftSum, SetCode, MaxLen, AllLens, StepsOk, TokensOk,
         CodePieces, LenPieces, ThreeBitPieces, CountPieces, ExpandAll, Ordered;
    var nl, nd, nb := 257 + Field(x, pos, 5), 1 + Field(x, pos + 5, 5), 4 + Field(x, pos + 10, 4);
    FourBits(x, pos + 10);
    var code, p := CodeLengthCode(x, pos + 14, nb), pos + 14 + 3 * nb;
    UsableSet(code);
    var lengths := ReadLengths(code, x, p, nl + nd, 0, []);
    var steps := LensRead(code, x, p, nl + nd, 0, []);
    var lens := lengths.lens;
    assert [] + AllLens(steps, 0) == AllLens(steps, 0) == lens;
    h := Preamble(code, nb, steps, nl);
    OrderRead(x, pos + 14, nb);
    UsableSet(lens[..nl]);
    UsableSet(lens[nl..]);
    ts := CodesRead(lens[..nl], lens[nl..], x, lengths.pos, out, fuel);
    CountsRead(h, x, pos);
    var end := RunDynamic(x, pos, out, fuel).pos;
    var codes := CodePieces(LitOf(h), DistOf(h), ts);
    ReadsMore(x, p, LenPieces(code, steps), lengths.pos, codes, end);
    ReadsMore(x, pos + 14, ThreeBitPieces(Ordered(code, nb)), p, LenPieces(code, steps) + codes, end);
    ReadsMore(x, pos, CountPieces(h), pos + 14, ThreeBitPieces(Ordered(code, nb)) + (LenPieces(code, steps) + codes), end);
  }

  // ----- blocks

  lemma {:induction false} RawRead(x: nat, pos: nat, n: nat)
    ensures Reads(x, pos, RawPieces(RawBytes(x, pos, n)), pos + 8 * n)
    decreases n
  {
    hide Reads, Field;
    ReadsNothing(x, pos);
    if n != 0 {
      var data := RawBytes(x, pos, n);
      ByteBound(x, pos);
      ReadsPiece(x, pos, 8);
      RawRead(x, pos + 8, n - 1);
      assert data[1..] == RawBytes(x, pos + 8, n - 1);
      ReadsMore(x, pos, [Piece(data[0], 8)], pos + 8, RawPieces(data[1..]), pos + 8 * n);
    }
  }

  lemma StoredRead(x: nat, pos: nat, out: seq<byte>) returns (pad: nat, data: seq<byte>)
    requires RunStored(x, pos, out).Done?
    ensures var r := RunStored(x, pos, out);
      |data| <= 0xffff && Reads(x, pos, StoredPieces(pad, data, pos), r.pos) && r.out == out + data
  {
    hide Reads, Field, Low, Pow2, RawPieces, RawBytes;
    var w := PadBits(pos);
    var p := pos + w;
    pad := Field(x, pos, w);
    data := RawBytes(x, p + 32, Field(x, p, 16));
    ReadsPiece(x, pos, w);
    SmallLow(pad, w);
    ReadsPiece(x, p, 16);
    ReadsPiece(x, p + 16, 16);
    RawRead(x, p + 32, |data|);
    var (a, b, c) := ([Piece(pad, w)], [Piece(|data|, 16)], [Piece(0xffff - |data|, 16)]);
    var end := p + 32 + 8 * |data|;
    ReadsMore(x, p + 16, c, p + 32, RawPieces(data), end);
    ReadsMore(x, p, b, p + 16, c + RawPieces(data), end);
    ReadsMore(x, pos, a, p, b + (c + RawPieces(data)), end);
  }

  lemma BlockRead(x: nat, pos: nat, out: seq<byte>, fuel: nat) returns (b: Block)
    requires RunBlock(x, pos, out, fuel).Done?
    ensures var r := RunBlock(x, pos, out, fuel);
      BlockOk(b) && Reads(x, pos, BlockPieces(b, pos), r.pos) && r.out == ExpandBlock(b, out)
  {
    hide Reads, Field, Low, Pow2, KraftSum, RunCodes, RunStored, RunDynamic, CodePieces, StoredPieces, DynamicPieces,
         DynamicOk, TokensOk, FixedLit, FixedDist, ExpandAll;
    var r := RunBlock(x, pos, out, fuel);
    FixedUsable();
    ReadsPiece(x, pos, 2);
    var kind := [Piece(Field(x, pos, 2), 2)];
    if Field(x, pos, 2) == 0 {
      var pad, data := StoredRead(x, pos + 2, out);
      b := Stored(pad, data);
      ReadsMore(x, pos, kind, pos + 2, StoredPieces(pad, data, pos + 2), r.pos);
    } else if Field(x, pos, 2) == 1 {
      var ts := CodesRead(FixedLit(), FixedDist(), x, pos + 2, out, fuel);
      b := Fixed(ts);
      ReadsMore(x, pos, kind, pos + 2, CodePieces(FixedLit(), FixedDist(), ts), r.pos);
    } else {
      var h, ts := DynamicRead(x, pos + 2, out, fuel);
      b := Dynamic(h, ts);
      ReadsMore(x, pos, kind, pos + 2, DynamicPieces(h, ts), r.pos);
    }
  }

  lemma {:induction false} BlocksRead(x: nat, pos: nat, out: seq<byte>, fuel: nat) returns (bs: seq<Block>)
    requires RunBlocks(x, pos, out, fuel).Done?
    ensures var r := RunBlocks(x, pos, out, fuel);
      BlocksOk(bs) && Reads(x, pos, StreamPieces(bs, pos), r.pos) && r.out == ExpandBlocks(bs, out)
    decreases fuel
  {
    hide Reads, Low, Pow2, Shr, RunBlock, BlockPieces, ExpandBlock, BlockOk;
    var r, first := RunBlocks(x, pos, out, fuel), RunBlock(x, pos + 1, out, fuel);
    var b := BlockRead(x, pos + 1, out, fuel);
    var ps := BlockPieces(b, pos + 1);
    ReadsPiece(x, pos, 1);
    OneBit(x, pos);
    EndsAt(x, pos + 1, ps, first.pos);
    if Field(x, pos, 1) == 1 {
      bs := [b];
      ReadsMore(x, pos, [Piece(1, 1)], pos + 1, ps, r.pos);
    } else {
      var more := BlocksRead(x, first.pos, first.out, fuel - 1);
      bs := [b] + more;
      assert bs[1..] == more;
      assert BlocksOk(bs) by {
        assert forall b' :: b' in bs ==> b' == b || b' in more;
      }
      ReadsMore(x, pos + 1, ps, first.pos, StreamPieces(more, first.pos), r.pos);
      ReadsMore(x, pos, [Piece(0, 1)], pos + 1, ps + StreamPieces(more, first.pos), r.pos);
    }
  }

  lemma OneBit(x: nat, pos: nat)
    ensures Field(x, pos, 1) <= 1
  {
    hide Field;
    FieldBound(x, pos, 1);
    assert Pow2(1) == 2;
  }

  lemma EndsAt(x: nat, pos: nat, ps: seq<Piece>, end: nat)
    requires Reads(x, pos, ps, end)
    ensures end == pos + Width(ps)
  {
  }

  // ----- what is accepted

  /** These bytes are this list of blocks, up to bit `pos`, and then anything. */
  ghost predicate Writes(bytes: seq<byte>, bs: seq<Block>, pos: nat): (w: bool)
    ensures w ==> BlocksOk(bs)
  {
    BlocksOk(bs) && Reads(Stream(bytes), 0, StreamPieces(bs, 0), pos)
  }

  lemma AcceptedWrites(bytes: seq<byte>, fuel: nat) returns (bs: seq<Block>)
    requires Inflated(bytes, fuel).Done?
    ensures var r := Inflated(bytes, fuel); Writes(bytes, bs, r.pos) && ExpandBlocks(bs, []) == r.out
  {
    hide RunBlocks, StreamPieces, ExpandBlocks, Stream, Reads, BlocksOk;
    bs := BlocksRead(Stream(bytes), 0, [], fuel);
  }

  lemma WrittenAccepted(bytes: seq<byte>, bs: seq<Block>, pos: nat)
    requires Writes(bytes, bs, pos)
    ensures Inflated(bytes, StepsNeeded(bs)) == Done(pos, ExpandBlocks(bs, []))
  {
    hide RunBlocks, StreamPieces, ExpandBlocks, Stream, BlocksOk, StepsNeeded, Shr, Pack, Width;
    BlocksBack(bs, Stream(bytes), 0, [], Shr(Stream(bytes), pos), StepsNeeded(bs));
  }

  ghost predicate Accepted(bytes: seq<byte>, pos: nat, out: seq<byte>) {
    exists fuel: nat :: Inflated(bytes, fuel) == Done(pos, out)
  }

  ghost predicate Written(bytes: seq<byte>, pos: nat, out: seq<byte>) {
    exists bs: seq<Block> :: Writes(bytes, bs, pos) && ExpandBlocks(bs, []) == out
  }

  /** The decoder comes to an end without error exactly on the streams an encoder may write, and gives what they mean. */
  lemma AcceptedIff(bytes: seq<byte>, pos: nat, out: seq<byte>)
    ensures Accepted(bytes, pos, out) <==> Written(bytes, pos, out)
  {
    hide ExpandBlocks, Inflated, Writes;
    if Accepted(bytes, pos, out) {
      var fuel: nat :| Inflated(bytes, fuel) == Done(pos, out);
      var bs := AcceptedWrites(bytes, fuel);
      assert Writes(bytes, bs, pos);
    }
    if Written(bytes, pos, out) {
      var bs: seq<Block> :| Writes(bytes, bs, pos) && ExpandBlocks(bs, []) == out;
      WrittenAccepted(bytes, bs, pos);
    }
  }
}
