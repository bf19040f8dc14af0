/**
 Streams written out byte by byte, and what they stand for: the fixed codes, matches with and without extra bits, a stored
 block, a file with its trailer, and an image of two regions.
 */
module Worked {
  import opened Bits
  import opened Bytes
  import opened Crc
  import opened Huffman
  import opened Deflate
  import opened DeflateFacts
  import opened CodeTables
  import opened Encoder
  import opened Gunzip
  import opened Inflate
  import opened Regions
  import opened Words

  // ----- pieces and bytes as one number

  ghost predicate Packs(ps: seq<Piece>, x: nat, w: nat) {
    Pack(ps, 0) == x && Width(ps) == w
  }

  /** x << n, for the widths that occur as a product. */
  function Times(n: nat, x: nat): nat {
    if n == 0 then x else if n == 1 then 2 * x else if n == 2 then 4 * x else if n == 3 then 8 * x
    else if n == 4 then 0x10 * x else if n == 5 then 0x20 * x else if n == 7 then 0x80 * x
    else if n == 8 then 0x100 * x else if n == 16 then 0x1_0000 * x else Shl(x, n)
  }

  lemma TimesIs(n: nat, x: nat)
    ensures Times(n, x) == Shl(x, n)
  {
    assert Shl(x, 2) == 2 * Shl(x, 1) == 4 * x;
    assert Shl(x, 4) == 2 * Shl(x, 3) == 4 * Shl(x, 2);
    assert Shl(x, 5) == 2 * Shl(x, 4);
    assert Shl(x, 7) == 2 * Shl(x, 6) == 4 * Shl(x, 5);
    ByteShift(x);
    ByteShift(Shl(x, 8));
    ShlShl(x, 8, 8);
  }

  lemma Before(v: nat, n: nat, ps: seq<Piece>, x: nat, w: nat)
    requires Packs(ps, x, w)
    ensures Packs([Piece(v, n)] + ps, v + Times(n, x), n + w)
  {
    hide Pack, Width, Shl, Pow2, Times;
    PackAppend([Piece(v, n)], ps, 0);
    PackOne(Piece(v, n), x);
    PackOne(Piece(v, n), 0);
    TimesIs(n, x);
  }

  lemma {:induction false} StreamInjective(a: seq<byte>, b: seq<byte>)
    requires |a| == |b| && Stream(a) == Stream(b)
    ensures a == b
  {
    hide Stream;
    if |a| != 0 {
      StreamStep(a);
      StreamStep(b);
      StreamInjective(a[1..], b[1..]);
      assert a == [a[0]] + a[1..] && b == [b[0]] + b[1..];
    }
  }

  /** The stream from byte `i` on, once it is known from the next. */
  lemma StreamFrom(data: seq<byte>, i: nat, x: nat)
    requires i < |data| && Stream(data[i + 1..]) == x
    ensures Stream(data[i..]) == data[i] + 0x100 * x
  {
    hide Stream;
    StreamStep(data[i..]);
    assert data[i..][1..] == data[i + 1..];
  }

  lemma StreamEnd(data: seq<byte>)
    ensures Stream(data[|data|..]) == 0
  {
    assert data[|data|..] == [];
  }

  /** The pieces fill these bytes: so they are what an encoder writes, and are decoded whatever follows. */
  lemma BytesAre(bs: seq<Block>, data: seq<byte>, x: nat, w: nat)
    requires BlocksOk(bs) && Packs(StreamPieces(bs, 0), x, w) && Stream(data[0..]) == x && |data| == (w + 7) / 8
    ensures Compressed(bs) == data
    ensures forall tail: seq<byte> :: Inflated(data + tail, StepsNeeded(bs)) == Done(w, ExpandBlocks(bs, []))
  {
    hide Pack, Width, Pow2, Stream, CutBytes, StreamPieces, BlocksOk, StepsNeeded, ExpandBlocks, Inflated;
    StreamFits(bs, 0);
    PackBound(StreamPieces(bs, 0), 0);
    Pow2Mono(w, 8 * |data|);
    StreamOfCut(x, |data|);
    assert data[0..] == data;
    StreamInjective(CutBytes(x, |data|), data);
    forall tail: seq<byte>
      ensures Inflated(data + tail, StepsNeeded(bs)) == Done(w, ExpandBlocks(bs, []))
    {
      StreamRoundTrip(bs, tail, StepsNeeded(bs));
    }
  }

  // ----- fixed codes

  /** Tokens with the fixed codes, and the end mark, are this number of so many bits. */
  ghost predicate FixedPack(ts: seq<Token>, x: nat, w: nat) {
    && |FixedLit()| > 256 && TokensOk(FixedLit(), FixedDist(), ts)
    && Packs(CodePieces(FixedLit(), FixedDist(), ts), x, w)
  }

  lemma EndMark()
    ensures FixedPack([], 0, 7)
  {
    hide Pack, Width, Shl, FixedLit, FixedDist, CodeOf;
    FixedLitCode(256);
    PackOne(SymPiece(FixedLit(), 256), 0);
    ShlOne(7);
    RevZero(7);
  }

  /** A literal below 144, whose code as sent is `c`. */
  lemma LiteralBefore(b: byte, c: nat, ts: seq<Token>, x: nat, w: nat)
    requires b < 144 && Rev(8, 0x30 + b) == c && FixedPack(ts, x, w)
    ensures FixedPack([Literal(b)] + ts, c + 0x100 * x, 8 + w)
  {
    hide FixedLit, FixedDist, CodeOf, Packs, Rev;
    FixedLitCode(b);
    FixedUsable();
    var more := [Literal(b)] + ts;
    assert more[1..] == ts;
    Before(c, 8, CodePieces(FixedLit(), FixedDist(), ts), x, w);
  }

  /** Length code `s` is sent as `cs`, of `k` bits, with `n` extra bits, and distance code `d` as `cd`, with `m`. */
  datatype Sent = Sent(cs: nat, k: nat, n: nat, cd: nat, m: nat)

  ghost predicate SentAs(t: Token, c: Sent) {
    && t.Match? && TokenOk(FixedLit(), FixedDist(), t) && LengthExtra(t.s) == c.n && DistExtra(t.d) == c.m
    && SymPiece(FixedLit(), t.s) == Piece(c.cs, c.k) && SymPiece(FixedDist(), t.d) == Piece(c.cd, 5)
  }

  lemma MatchBefore(t: Token, c: Sent, ts: seq<Token>, x: nat, w: nat)
    requires SentAs(t, c) && FixedPack(ts, x, w)
    ensures FixedPack([t] + ts, c.cs + Times(c.k, t.e + Times(c.n, c.cd + Times(5, t.f + Times(c.m, x)))),
                      c.k + (c.n + (5 + (c.m + w))))
  {
    hide FixedLit, FixedDist, Packs, SymPiece, LengthExtra, DistExtra, Pow2, Times;
    var more := [t] + ts;
    var ps := CodePieces(FixedLit(), FixedDist(), ts);
    assert more[1..] == ts;
    var y := c.cd + Times(5, t.f + Times(c.m, x));
    Before(t.f, c.m, ps, x, w);
    var ps1 := [Piece(t.f, c.m)] + ps;
    Before(c.cd, 5, ps1, t.f + Times(c.m, x), c.m + w);
    var ps2 := [Piece(c.cd, 5)] + ps1;
    Before(t.e, c.n, ps2, y, 5 + (c.m + w));
    var ps3 := [Piece(t.e, c.n)] + ps2;
    Before(c.cs, c.k, ps3, t.e + Times(c.n, y), c.n + (5 + (c.m + w)));
    assert CodePieces(FixedLit(), FixedDist(), more) == [Piece(c.cs, c.k)] + ps3;
  }

  /** One last block. */
  lemma OneBlock(b: Block)
    requires BlockOk(b)
    ensures BlocksOk([b]) && StreamPieces([b], 0) == [Piece(1, 1)] + BlockPieces(b, 1)
    ensures StepsNeeded([b]) == BlockSteps(b) && ExpandBlocks([b], []) == ExpandBlock(b, [])
  {
    hide BlockOk, BlockPieces, BlockSteps, ExpandBlock;
    assert [b][1..] == [];
  }

  lemma FixedBlock(ts: seq<Token>)
    requires |FixedLit()| > 256 && TokensOk(FixedLit(), FixedDist(), ts)
    ensures BlockOk(Fixed(ts)) && BlockPieces(Fixed(ts), 1) == [Piece(1, 2)] + CodePieces(FixedLit(), FixedDist(), ts)
    ensures BlockSteps(Fixed(ts)) == |ts| + 1 && ExpandBlock(Fixed(ts), []) == ExpandAll(ts, [])
  {
    hide FixedLit, FixedDist, TokensOk, ExpandAll, CodePieces;
  }

  lemma OneFixed(ts: seq<Token>, x: nat, w: nat)
    requires FixedPack(ts, x, w)
    ensures BlocksOk([Fixed(ts)]) && Packs(StreamPieces([Fixed(ts)], 0), 3 + 8 * x, 3 + w)
    ensures StepsNeeded([Fixed(ts)]) == |ts| + 1 && ExpandBlocks([Fixed(ts)], []) == ExpandAll(ts, [])
  {
    hide FixedLit, FixedDist, TokensOk, Packs, ExpandAll, CodePieces, BlocksOk, StreamPieces, BlockPieces, BlockOk, BlockSteps,
         StepsNeeded, ExpandBlocks, ExpandBlock;
    var ps := CodePieces(FixedLit(), FixedDist(), ts);
    FixedBlock(ts);
    OneBlock(Fixed(ts));
    Before(1, 2, ps, x, w);
    Before(1, 1, [Piece(1, 2)] + ps, 1 + 4 * x, 2 + w);
  }

  /** Such a block in bytes, decoded whatever follows. */
  lemma FixedBytes(ts: seq<Token>, data: seq<byte>, x: nat, w: nat)
    requires FixedPack(ts, x, w) && Stream(data[0..]) == 3 + 8 * x && |data| == (w + 10) / 8
    ensures BlocksOk([Fixed(ts)]) && Compressed([Fixed(ts)]) == data
    ensures forall tail: seq<byte> :: Inflated(data + tail, |ts| + 1) == Done(3 + w, ExpandAll(ts, []))
  {
    hide FixedPack, Packs, BlocksOk, StreamPieces, Stream, StepsNeeded, ExpandBlocks, Inflated, Compressed, ExpandAll;
    OneFixed(ts, x, w);
    BytesAre([Fixed(ts)], data, 3 + 8 * x, 3 + w);
  }

  // ----- the streams

  /** 73 04 00 is the letter A. */
  lemma LetterA()
    ensures BlocksOk([Fixed([Literal(0x41)])]) && Compressed([Fixed([Literal(0x41)])]) == [0x73, 0x04, 0x00]
    ensures forall tail: seq<byte> :: Inflated([0x73, 0x04, 0x00] + tail, 2) == Done(18, [0x41])
  {
    hide FixedPack, BlocksOk, Stream, Inflated, Compressed, ExpandAll, Rev, Times;
    var data: seq<byte> := [0x73, 0x04, 0x00];
    var ts := [Literal(0x41)];
    EndMark();
    EightReversed(7, 1);
    LiteralBefore(0x41, 0x8e, [], 0, 7);
    assert [Literal(0x41)] + [] == ts;
    StreamEnd(data);
    StreamFrom(data, 2, 0);
    StreamFrom(data, 1, 0);
    StreamFrom(data, 0, 4);
    FixedBytes(ts, data, 0x8e, 15);
    OneLiteral(0x41);
  }

  // ----- codes as they are sent

  /** Four bits reversed. */
  const NIBBLES: seq<nat> := [0, 8, 4, 12, 2, 10, 6, 14, 1, 9, 5, 13, 3, 11, 7, 15]

  lemma FourReversed(x: nat)
    requires x < 16
    ensures Rev(4, x) == NIBBLES[x]
  {
    hide Pow2;
    SmallPowers();
    NoBits(0);
    assert x / 2 / 2 == x / 4 && x / 4 / 2 == x / 8;
    assert Rev(1, x / 8) == x / 8 % 2;
    assert Rev(2, x / 4) == 2 * (x / 4 % 2) + Rev(1, x / 8);
    assert Rev(3, x / 2) == 4 * (x / 2 % 2) + Rev(2, x / 4);
    Nibble(x);
  }

  lemma Nibble(x: nat)
    requires x < 16
    ensures NIBBLES[x] == 8 * (x % 2) + 4 * (x / 2 % 2) + 2 * (x / 4 % 2) + x / 8 % 2
  {
    assert x == 0 || x == 1 || x == 2 || x == 3 || x == 4 || x == 5 || x == 6 || x == 7
      || x == 8 || x == 9 || x == 10 || x == 11 || x == 12 || x == 13 || x == 14 || x == 15;
  }

  lemma EightReversed(hi: nat, lo: nat)
    requires hi < 16 && lo < 16
    ensures Rev(8, 0x10 * hi + lo) == 0x10 * NIBBLES[lo] + NIBBLES[hi]
  {
    hide Rev, Shl, Shr, Low;
    var x := 0x10 * hi + lo;
    FourReversed(lo);
    FourReversed(hi);
    RevSplit(4, 4, x);
    LowNibble(hi, lo);
    RevSame(4, x, lo);
  }

  lemma LowNibble(hi: nat, lo: nat)
    requires lo < 16
    ensures Shr(0x10 * hi + lo, 4) == hi && Low(0x10 * hi + lo, 4) == lo == Low(lo, 4)
    ensures forall y: nat :: Shl(y, 4) == 0x10 * y && Shl(y, 3) == 8 * y && Shl(y, 1) == 2 * y
  {
    hide Low, Shr, Pow2;
    forall y: nat
      ensures Shl(y, 4) == 0x10 * y && Shl(y, 3) == 8 * y && Shl(y, 1) == 2 * y
    {
      assert Shl(y, 2) == 2 * Shl(y, 1) == 4 * y && Shl(y, 4) == 2 * Shl(y, 3) == 4 * Shl(y, 2);
    }
    SmallPowers();
    LowShrUnique(lo, hi, 4);
    SmallLow(lo, 4);
  }

  lemma SevenReversed(lo: nat)
    requires lo < 16
    ensures Rev(7, lo) == 8 * NIBBLES[lo]
  {
    hide Rev, Shl, Pow2;
    SmallPowers();
    FourReversed(lo);
    RevShort(4, 3, lo);
    LowNibble(0, lo);
  }

  lemma FiveReversed(lo: nat)
    requires lo < 16
    ensures Rev(5, lo) == 2 * NIBBLES[lo]
  {
    hide Rev, Shl, Pow2;
    SmallPowers();
    FourReversed(lo);
    RevShort(4, 1, lo);
    LowNibble(0, lo);
  }

  lemma OneLiteral(b: byte)
    ensures ExpandAll([Literal(b)], []) == [b]
  {
    assert [Literal(b)][1..] == [];
  }

  /** With its trailer it is what gunzip accepts after the gzip header. */
  lemma LetterFile()
    ensures BlocksOk([Fixed([Literal(0x41)])])
    ensures FileOf([Fixed([Literal(0x41)])]) == [0x73, 0x04, 0x00, 0x8b, 0x9e, 0xd9, 0xd3, 0x01, 0x00, 0x00, 0x00]
  {
    hide BlocksOk, Inflated, Compressed, ExpandBlocks, Crc32, FixedPack;
    LetterA();
    CrcOfA();
    assert ExpandBlocks([Fixed([Literal(0x41)])], []) == [0x41] by {
      EndMark();
      EightReversed(7, 1);
      assert [Literal(0x41)] + [] == [Literal(0x41)];
      LiteralBefore(0x41, 0x8e, [], 0, 7);
      OneFixed([Literal(0x41)], 0x8e, 15);
      OneLiteral(0x41);
    }
    CrcBytes();
  }

  lemma CrcBytes()
    ensures LongBytes(0xd3d9_9e8b) == [0x8b, 0x9e, 0xd9, 0xd3] && LongBytes(1 % LONG) == [0x01, 0x00, 0x00, 0x00]
  {
  }

  /** Length code 285 and distance code 3 take no extra bits. */
  lemma LastMatch()
    ensures SentAs(Match(285, 0, 3, 0), Sent(0xa3, 8, 0, 24, 0))
  {
    hide FixedLit, FixedDist, Rev, CodeOf;
    FixedLitCode(285);
    FixedDistCode(3);
    EightReversed(12, 5);
    FiveReversed(3);
  }

  const FOUR: seq<byte> := [0x61, 0x62, 0x63, 0x64]

  lemma FourTokens() returns (ts: seq<Token>)
    ensures ts == [Literal(0x61), Literal(0x62), Literal(0x63), Literal(0x64), Match(285, 0, 3, 0)]
    ensures FixedPack(ts, 27089059793289, 52)
  {
    hide FixedPack, Rev, SentAs;
    EndMark();
    LastMatch();
    EightReversed(9, 1);
    EightReversed(9, 2);
    EightReversed(9, 3);
    EightReversed(9, 4);
    var t := Match(285, 0, 3, 0);
    MatchBefore(t, Sent(0xa3, 8, 0, 24, 0), [], 0, 7);
    assert FixedPack([t] + [], 6307, 20);
    LiteralBefore(0x64, 0x29, [t] + [], 6307, 20);
    LiteralBefore(0x63, 0xc9, [Literal(0x64)] + ([t] + []), 1614633, 28);
    LiteralBefore(0x62, 0x49, [Literal(0x63)] + ([Literal(0x64)] + ([t] + [])), 413346249, 36);
    ts := [Literal(0x62)] + ([Literal(0x63)] + ([Literal(0x64)] + ([t] + [])));
    LiteralBefore(0x61, 0x89, ts, 105816639817, 44);
    ts := [Literal(0x61)] + ts;
  }

  lemma ExpandMore(t: Token, ts: seq<Token>, more: seq<Token>, out: seq<byte>)
    requires TokenSound(t) && (forall u :: u in ts ==> TokenSound(u)) && more == [t] + ts
    ensures (forall u :: u in more ==> TokenSound(u)) && ExpandAll(more, out) == ExpandAll(ts, Expand(t, out))
  {
    assert more[1..] == ts;
  }

  lemma FourExpand(ts: seq<Token>)
    requires ts == [Literal(0x61), Literal(0x62), Literal(0x63), Literal(0x64), Match(285, 0, 3, 0)]
    ensures ExpandAll(ts, []) == CopyMatch(FOUR, 4, 258)
  {
    hide CopyMatch, ExpandAll, DistBase, LengthBase;
    var t := Match(285, 0, 3, 0);
    LengthValues();
    DistValues();
    ExpandMore(t, [], [t], FOUR);
    ExpandMore(Literal(0x64), [t], ts[3..], [0x61, 0x62, 0x63]);
    ExpandMore(Literal(0x63), ts[3..], ts[2..], [0x61, 0x62]);
    ExpandMore(Literal(0x62), ts[2..], ts[1..], [0x61]);
    ExpandMore(Literal(0x61), ts[1..], ts, []);
    NothingMore(CopyMatch(FOUR, 4, 258));
    assert Expand(t, FOUR) == CopyMatch(FOUR, 4, 258);
    assert Expand(Literal(0x64), [0x61, 0x62, 0x63]) == FOUR;
    assert Expand(Literal(0x63), [0x61, 0x62]) == [0x61, 0x62, 0x63];
    assert Expand(Literal(0x62), [0x61]) == [0x61, 0x62];
    assert Expand(Literal(0x61), []) == [0x61];
  }

  lemma NothingMore(out: seq<byte>)
    ensures ExpandAll([], out) == out
  {
  }

  /** Each byte is the one four places before it. */
  lemma {:induction false} FourByte(i: nat)
    requires i < 262
    ensures CopyMatch(FOUR, 4, 258)[i] == 0x61 + i % 4
  {
    hide CopyMatch;
    if i < 4 {
      assert CopyMatch(FOUR, 4, 258)[i] == FOUR[i];
    } else {
      CopyByte(FOUR, 4, 258, i);
      FourByte(i - 4);
    }
  }

  /** 4b 4c 4a 4e 19 c5 00 is abcd and a match of 258 bytes four places back, 55 bits in all. */
  lemma FourLetters()
    ensures forall tail: seq<byte> :: Inflated([0x4b, 0x4c, 0x4a, 0x4e, 0x19, 0xc5, 0x00] + tail, 6)
                                   == Done(55, seq<byte>(262, i requires 0 <= i => 0x61 + i % 4))
  {
    hide FixedPack, BlocksOk, Stream, Inflated, Compressed, ExpandAll, CopyMatch;
    var data: seq<byte> := [0x4b, 0x4c, 0x4a, 0x4e, 0x19, 0xc5, 0x00];
    var ts := FourTokens();
    FourStream(data);
    FixedBytes(ts, data, 27089059793289, 52);
    FourExpand(ts);
    forall i: nat | i < 262
      ensures CopyMatch(FOUR, 4, 258)[i] == 0x61 + i % 4
    {
      FourByte(i);
    }
    assert CopyMatch(FOUR, 4, 258) == seq<byte>(262, i requires 0 <= i => 0x61 + i % 4);
  }

  lemma FourStream(data: seq<byte>)
    requires data == [0x4b, 0x4c, 0x4a, 0x4e, 0x19, 0xc5, 0x00]
    ensures Stream(data[0..]) == 3 + 8 * 27089059793289
  {
    hide Stream;
    StreamEnd(data);
    StreamFrom(data, 6, 0);
    StreamFrom(data, 5, 0);
    StreamFrom(data, 4, 0xc5);
    StreamFrom(data, 3, 0xc519);
    StreamFrom(data, 2, 0xc5_194e);
    StreamFrom(data, 1, 0xc519_4e4a);
    StreamFrom(data, 0, 0xc5_194e_4a4c);
  }

  // ----- extra bits

  lemma NineBytes()
    ensures SentAs(Match(263, 0, 0, 0), Sent(0x70, 7, 0, 0, 0)) && LengthBase(263) == 9 && DistBase(0) == 1
  {
    hide FixedLit, FixedDist, Rev, CodeOf, LengthBase, DistBase;
    FixedLitCode(263);
    FixedDistCode(0);
    SevenReversed(7);
    FiveReversed(0);
    LengthValues();
    DistValues();
  }

  lemma TwentyBytes()
    ensures SentAs(Match(269, 1, 6, 1), Sent(0x58, 7, 2, 12, 2)) && LengthBase(269) == 19 && DistBase(6) == 9
  {
    hide FixedLit, FixedDist, Rev, CodeOf, LengthBase, DistBase;
    FixedLitCode(269);
    FixedDistCode(6);
    SevenReversed(13);
    FiveReversed(6);
    LengthValues();
    DistValues();
  }

  lemma ExtraTokens() returns (ts: seq<Token>)
    ensures ts == [Literal(0x61), Match(263, 0, 0, 0), Literal(0x62), Match(269, 1, 6, 1)]
    ensures FixedPack(ts, 6105372586121, 51)
  {
    hide FixedPack, Rev, SentAs;
    EndMark();
    NineBytes();
    TwentyBytes();
    EightReversed(9, 1);
    EightReversed(9, 2);
    var t := Match(269, 1, 6, 1);
    MatchBefore(t, Sent(0x58, 7, 2, 12, 2), [], 0, 7);
    assert FixedPack([t] + [], 22744, 23);
    LiteralBefore(0x62, 0x49, [t] + [], 22744, 23);
    ts := [Literal(0x62)] + ([t] + []);
    MatchBefore(Match(263, 0, 0, 0), Sent(0x70, 7, 0, 0, 0), ts, 5822537, 31);
    ts := [Match(263, 0, 0, 0)] + ts;
    assert FixedPack(ts, 23849111664, 43);
    LiteralBefore(0x61, 0x89, ts, 23849111664, 43);
    ts := [Literal(0x61)] + ts;
  }

  lemma ExtraExpand(ts: seq<Token>)
    requires ts == [Literal(0x61), Match(263, 0, 0, 0), Literal(0x62), Match(269, 1, 6, 1)]
    ensures ExpandAll(ts, []) == CopyMatch(CopyMatch([0x61], 1, 9) + [0x62], 10, 20)
  {
    hide CopyMatch, ExpandAll, DistBase, LengthBase;
    NineBytes();
    TwentyBytes();
    var ten := CopyMatch([0x61], 1, 9);
    ExpandMore(Match(269, 1, 6, 1), [], ts[3..], ten + [0x62]);
    ExpandMore(Literal(0x62), ts[3..], ts[2..], ten);
    ExpandMore(Match(263, 0, 0, 0), ts[2..], ts[1..], [0x61]);
    ExpandMore(Literal(0x61), ts[1..], ts, []);
    NothingMore(CopyMatch(ten + [0x62], 10, 20));
    assert Expand(Match(269, 1, 6, 1), ten + [0x62]) == CopyMatch(ten + [0x62], 10, 20);
    assert Expand(Literal(0x62), ten) == ten + [0x62];
    assert Expand(Match(263, 0, 0, 0), [0x61]) == ten;
    assert Expand(Literal(0x61), []) == [0x61];
  }

  lemma {:induction false} TenByte(i: nat)
    requires i < 10
    ensures CopyMatch([0x61], 1, 9)[i] == 0x61
  {
    hide CopyMatch;
    if i == 0 {
      assert CopyMatch([0x61], 1, 9)[0] == [0x61][0];
    } else {
      CopyByte([0x61], 1, 9, i);
      TenByte(i - 1);
    }
  }

  lemma {:induction false} ExtraByte(i: nat)
    requires i < 31
    ensures CopyMatch(CopyMatch([0x61], 1, 9) + [0x62], 10, 20)[i] == if i > 0 && i % 10 == 0 then 0x62 else 0x61
  {
    hide CopyMatch;
    var front := CopyMatch([0x61], 1, 9) + [0x62];
    if i < 11 {
      assert CopyMatch(front, 10, 20)[i] == front[i];
      if i < 10 {
        TenByte(i);
      }
    } else {
      CopyByte(front, 10, 20, i);
      ExtraByte(i - 10);
    }
  }

  /** 4b 84 83 24 6c 2c 00 is a, nine more, b, and 20 bytes ten places back, length and distance each with two extra bits. */
  lemma ExtraBits()
    ensures forall tail: seq<byte> :: Inflated([0x4b, 0x84, 0x83, 0x24, 0x6c, 0x2c, 0x00] + tail, 5)
                                   == Done(54, seq<byte>(31, i requires 0 <= i => if i > 0 && i % 10 == 0 then 0x62 else 0x61))
  {
    hide FixedPack, BlocksOk, Stream, Inflated, Compressed, ExpandAll, CopyMatch;
    var data: seq<byte> := [0x4b, 0x84, 0x83, 0x24, 0x6c, 0x2c, 0x00];
    var ts := ExtraTokens();
    ExtraStream(data);
    FixedBytes(ts, data, 6105372586121, 51);
    ExtraExpand(ts);
    var out := CopyMatch(CopyMatch([0x61], 1, 9) + [0x62], 10, 20);
    forall i: nat | i < 31
      ensures out[i] == if i > 0 && i % 10 == 0 then 0x62 else 0x61
    {
      ExtraByte(i);
    }
    assert out == seq<byte>(31, i requires 0 <= i => if i > 0 && i % 10 == 0 then 0x62 else 0x61);
  }

  lemma ExtraStream(data: seq<byte>)
    requires data == [0x4b, 0x84, 0x83, 0x24, 0x6c, 0x2c, 0x00]
    ensures Stream(data[0..]) == 3 + 8 * 6105372586121
  {
    hide Stream;
    StreamEnd(data);
    StreamFrom(data, 6, 0);
    StreamFrom(data, 5, 0);
    StreamFrom(data, 4, 0x2c);
    StreamFrom(data, 3, 0x2c6c);
    StreamFrom(data, 2, 0x2c_6c24);
    StreamFrom(data, 1, 0x2c6c_2483);
    StreamFrom(data, 0, 0x2c_6c24_8384);
  }

  // ----- a stored block

  /** 01 02 00 fd ff 41 42 is AB. */
  lemma StoredAB()
    ensures forall tail: seq<byte> :: Inflated([0x01, 0x02, 0x00, 0xfd, 0xff, 0x41, 0x42] + tail, 1) == Done(56, [0x41, 0x42])
  {
    hide BlocksOk, Stream, Inflated, Compressed, StreamPieces, StepsNeeded, ExpandBlocks;
    var data: seq<byte> := [0x01, 0x02, 0x00, 0xfd, 0xff, 0x41, 0x42];
    var b := Stored(0, [0x41, 0x42]);
    StreamEnd(data);
    StreamFrom(data, 6, 0);
    StreamFrom(data, 5, 0x42);
    StreamFrom(data, 4, 0x4241);
    StreamFrom(data, 3, 0x42_41ff);
    StreamFrom(data, 2, 0x4241_fffd);
    StreamFrom(data, 1, 0x42_41ff_fd00);
    StreamFrom(data, 0, 0x4241_fffd_0002);
    OneBlock(b);
    StoredPack();
    BytesAre([b], data, 0x42_41ff_fd00_0201, 56);
    assert [] + [0x41, 0x42] == [0x41, 0x42];
  }

  lemma StoredPack()
    ensures Packs([Piece(1, 1)] + BlockPieces(Stored(0, [0x41, 0x42]), 1), 0x42_41ff_fd00_0201, 56)
  {
    hide Packs, Low;
    var data: seq<byte> := [0x41, 0x42];
    NoPieces(0);
    assert Packs([], 0, 0) by {
      NonePacked();
    }
    Before(0x42, 8, [], 0, 0);
    Before(0x41, 8, [Piece(0x42, 8)] + [], 0x42, 8);
    assert data[1..] == [0x42] && data[1..][1..] == [];
    assert RawPieces(data) == [Piece(0x41, 8)] + ([Piece(0x42, 8)] + []);
    Before(0xfffd, 16, RawPieces(data), 0x4241, 16);
    Before(2, 16, [Piece(0xfffd, 16)] + RawPieces(data), 0x4241_fffd, 32);
    var ps := [Piece(2, 16)] + ([Piece(0xfffd, 16)] + RawPieces(data));
    Before(0, 5, ps, 0x4241_fffd_0002, 48);
    ShrZero(5);
    Before(0, 2, [Piece(0, 5)] + ps, 0x4241_fffd_0002 * 0x20, 53);
    Before(1, 1, [Piece(0, 2)] + ([Piece(0, 5)] + ps), 0x4241_fffd_0002 * 0x80, 55);
  }

  lemma NonePacked()
    ensures Packs([], 0, 0)
  {
  }

  // ----- an image

  /** Two regions, two bytes for address 0x10_0000 and one for 0x20_0000: their ends are at the stream offsets 10 and 19. */
  lemma TwoRegions()
    ensures Image([Segment(0x10_0000, [1, 2]), Segment(0x20_0000, [3])], 0)
         == [0, 0, 0x10, 0, 10, 0, 0, 0, 1, 2, 0, 0, 0x20, 0, 19, 0, 0, 0, 3]
    ensures forall mem: map<nat, byte> ::
      Place(mem, [Segment(0x10_0000, [1, 2]), Segment(0x20_0000, [3])])
      == mem[0x10_0000 := 1][0x10_0001 := 2][0x20_0000 := 3]
  {
    hide Image, Place;
    var a, b := Segment(0x10_0000, [1, 2]), Segment(0x20_0000, [3]);
    OneRegion(a, [b], 0);
    OneRegion(b, [], 10);
    RegionBytes();
    assert [a] + [b] == [a, b] && [b] + [] == [b];
    assert Image([b], 10) == OneImage(b, 10) + [] && Image([a, b], 0) == OneImage(a, 0) + Image([b], 10);
    assert OneImage(a, 0) + (OneImage(b, 10) + []) == [0, 0, 0x10, 0, 10, 0, 0, 0, 1, 2, 0, 0, 0x20, 0, 19, 0, 0, 0, 3];
    forall mem: map<nat, byte>
      ensures Place(mem, [a, b]) == mem[0x10_0000 := 1][0x10_0001 := 2][0x20_0000 := 3]
    {
      TwoPlaced(mem, a, b);
    }
  }

  lemma OneRegion(seg: Segment, segs: seq<Segment>, at: nat)
    ensures Image([seg] + segs, at) == OneImage(seg, at) + Image(segs, EndOf(seg, at)) && Image([], EndOf(seg, at)) == []
  {
    hide OneImage, EndOf;
    assert ([seg] + segs)[1..] == segs;
  }

  lemma RegionBytes()
    ensures HeaderBytes(0x10_0000, 10) == [0, 0, 0x10, 0, 10, 0, 0, 0]
    ensures HeaderBytes(0x20_0000, 19) == [0, 0, 0x20, 0, 19, 0, 0, 0]
    ensures EndOf(Segment(0x10_0000, [1, 2]), 0) == 10 && EndOf(Segment(0x20_0000, [3]), 10) == 19
  {
  }

  lemma TwoPlaced(mem: map<nat, byte>, a: Segment, b: Segment)
    requires a == Segment(0x10_0000, [1, 2]) && b == Segment(0x20_0000, [3])
    ensures Place(mem, [a, b]) == mem[0x10_0000 := 1][0x10_0001 := 2][0x20_0000 := 3]
  {
    hide Place, PlaceBytes;
    OnePlaced(mem, a, [b]);
    assert [a] + [b] == [a, b] && [b] + [] == [b];
    BytePlaced(mem, 0x10_0000, [], 1);
    BytePlaced(mem, 0x10_0000, [1], 2);
    assert [] + [1] == [1] && [1] + [2] == [1, 2] && [] + [3] == [3];
    var mem1 := mem[0x10_0000 := 1][0x10_0001 := 2];
    assert PlaceBytes(mem, 0x10_0000, [1, 2]) == mem1;
    OnePlaced(mem1, b, []);
    BytePlaced(mem1, 0x20_0000, [], 3);
  }

  lemma OnePlaced(mem: map<nat, byte>, seg: Segment, segs: seq<Segment>)
    ensures Place(mem, [seg] + segs) == Place(PlaceBytes(mem, seg.start, seg.data), segs) && Place(mem, []) == mem
    ensures Place(PlaceBytes(mem, seg.start, seg.data), []) == PlaceBytes(mem, seg.start, seg.data)
  {
    hide PlaceBytes;
    assert ([seg] + segs)[1..] == segs;
  }

  lemma BytePlaced(mem: map<nat, byte>, start: nat, data: seq<byte>, b: byte)
    ensures PlaceBytes(mem, start, data + [b]) == PlaceBytes(mem, start, data)[start + |data| := b]
    ensures PlaceBytes(mem, start, []) == mem
  {
    assert (data + [b])[..|data|] == data;
  }
}
