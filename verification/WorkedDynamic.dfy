/**
 A dynamic block written out byte by byte, with the run of zeros before and between its two literal codes given by repeat
 codes: 05 c0 81 08 00 00 00 00 20 b6 fd a5 4e is the letter A.
 */
module WorkedDynamic {
  import opened Bits
  import opened Bytes
  import opened Huffman
  import opened CodeTables
  import opened Deflate
  import opened DeflateFacts
  import opened Encoder
  import opened Inflate
  import opened Worked

  // ----- the three codes

  /** Lengths of the code length code: two bits for 0 and 1, one for the long run of zeros. */
  const CODE: seq<nat> := [2, 2, 0, 0, 0, 0, 0, 0, 0, 0, 0, 0, 0, 0, 0, 0, 0, 0, 1]

  /** 65 zeros, 1, 190 zeros and 1 for the literals; one distance, without a code. */
  const STEPS: seq<LenStep> := [ManyZeros(54), Plain(1), ManyZeros(127), ManyZeros(41), Plain(1), Plain(0)]

  const HEAD: Preamble := Preamble(CODE, 18, STEPS, 257)

  function Lits(): (lens: seq<nat>) {
    Repeat(0, 65) + [1] + (Repeat(0, 190) + [1])
  }

  lemma StepFirst(st: LenStep, steps: seq<LenStep>, all: seq<LenStep>, prev: nat)
    requires all == [st] + steps
    ensures AllLens(all, prev) == StepLens(st, prev) + AllLens(steps, NextPrev(st, prev))
  {
    assert all[1..] == steps;
  }

  lemma AllLensIs()
    ensures AllLens(STEPS, 0) == Lits() + [0]
  {
    hide AllLens, Repeat;
    var s := STEPS;
    StepFirst(ManyZeros(54), s[1..], s, 0);
    StepFirst(Plain(1), s[2..], s[1..], 0);
    StepFirst(ManyZeros(127), s[3..], s[2..], 1);
    StepFirst(ManyZeros(41), s[4..], s[3..], 0);
    StepFirst(Plain(1), s[5..], s[4..], 0);
    StepFirst(Plain(0), s[6..], s[5..], 1);
    NoLens(s[6..]);
    assert Repeat(0, 138) + Repeat(0, 52) == Repeat(0, 190) by {
      TwoRuns();
    }
    calc {
      AllLens(s, 0);
      Repeat(0, 65) + ([1] + (Repeat(0, 138) + (Repeat(0, 52) + ([1] + ([0] + [])))));
      Repeat(0, 65) + [1] + ((Repeat(0, 138) + Repeat(0, 52)) + [1]) + [0];
    }
  }

  lemma NoLens(steps: seq<LenStep>)
    requires |steps| == 0
    ensures AllLens(steps, 0) == []
  {
  }

  lemma TwoRuns()
    ensures Repeat(0, 138) + Repeat(0, 52) == Repeat(0, 190)
  {
  }

  lemma {:induction false} KraftConcat(a: seq<nat>, b: seq<nat>)
    requires (forall s :: 0 <= s < |a| ==> a[s] <= BMAX) && (forall s :: 0 <= s < |b| ==> b[s] <= BMAX)
    ensures KraftSum(a + b) == KraftSum(a) + KraftSum(b)
  {
    hide Pow2;
    if |b| == 0 {
      assert a + b == a;
    } else {
      var last := b[|b| - 1];
      KraftConcat(a, b[..|b| - 1]);
      assert (a + b)[..|a + b| - 1] == a + b[..|b| - 1];
    }
  }

  lemma {:induction false} KraftZeros(lens: seq<nat>)
    requires forall s :: 0 <= s < |lens| ==> lens[s] == 0
    ensures KraftSum(lens) == 0
  {
    if |lens| != 0 {
      KraftZeros(lens[..|lens| - 1]);
    }
  }

  lemma KraftOne(a: nat)
    requires 0 < a <= BMAX
    ensures KraftSum([a]) == Pow2(BMAX - a)
  {
    assert [a][..0] == [];
  }

  lemma LargePower()
    ensures Pow2(14) == 0x4000 && Pow2(15) == 0x8000 && Pow2(16) == 0x1_0000
  {
    LargePowers();
    assert Pow2(16) == 2 * Pow2(15) == 4 * Pow2(14);
  }

  /** Exactly filled. */
  lemma CodeFull()
    ensures SetCode(CODE) == 0 && Usable(CODE)
  {
    hide KraftSum, Pow2, MaxLen;
    var zeros := CODE[2..18];
    assert CODE == [2] + [2] + zeros + [1];
    KraftZeros(zeros);
    KraftOne(2);
    KraftOne(1);
    KraftConcat([2], [2]);
    KraftConcat([2] + [2], zeros);
    KraftConcat([2] + [2] + zeros, [1]);
    LargePower();
  }

  lemma LitsFull()
    ensures |Lits()| == 257 && (forall s :: 0 <= s < 257 ==> Lits()[s] == if s == 65 || s == 256 then 1 else 0)
    ensures SetCode(Lits()) == 0
  {
    hide KraftSum, Pow2, MaxLen;
    var a, b := Repeat(0, 65), Repeat(0, 190);
    KraftZeros(a);
    KraftZeros(b);
    KraftOne(1);
    KraftConcat(a, [1]);
    KraftConcat(b, [1]);
    KraftConcat(a + [1], b + [1]);
    LargePower();
  }

  lemma NoDistance()
    ensures SetCode([0]) == 0
  {
    hide Pow2;
    LargePower();
    KraftZeros([0]);
  }

  /** The codes as they are sent. */
  lemma CodeBits()
    ensures EncodeSym(CODE, 18) == 0 && EncodeSym(CODE, 0) == 1 && EncodeSym(CODE, 1) == 3
  {
    hide Count;
    var zeros := CODE[2..18];
    CountRepeat(2, 1, CODE[..1], 2);
    CountRepeat(2, 0, CODE[..0], 2);
    assert CODE[..18] == CODE[..2] + zeros;
    CountRepeat(2, 2, CODE[..2], 1);
    CountRepeat(0, 16, zeros, 1);
    CountConcat(CODE[..2], zeros, 1);
    assert CODE == CODE[..18] + [1];
    CountRepeat(1, 1, [1], 1);
    CountConcat(CODE[..18], [1], 1);
    assert FirstCode(CODE, 1) == 0 && FirstCode(CODE, 2) == 2;
    assert CodeOf(CODE, 18) == 0 && CodeOf(CODE, 0) == 2 && CodeOf(CODE, 1) == 3;
    assert Rev(1, 0) == 0 && Rev(2, 2) == 1 && Rev(2, 3) == 3;
  }

  lemma LitBits()
    ensures |Lits()| == 257 && Lits()[65] == 1 && Lits()[256] == 1
    ensures EncodeSym(Lits(), 65) == 0 && EncodeSym(Lits(), 256) == 1
  {
    hide Count;
    var a, b := Repeat(0, 65), Repeat(0, 190);
    assert Lits()[..65] == a && Lits()[..256] == a + [1] + b;
    CountRepeat(0, 65, a, 1);
    CountRepeat(1, 1, [1], 1);
    CountRepeat(0, 190, b, 1);
    CountConcat(a, [1], 1);
    CountConcat(a + [1], b, 1);
    assert FirstCode(Lits(), 1) == 0;
    assert Rev(1, 0) == 0 && Rev(1, 1) == 1;
  }

  // ----- the pieces, from the last

  lemma HeadOk()
    ensures HeaderOk(HEAD) && LitOf(HEAD) == Lits() && DistOf(HEAD) == [0]
  {
    hide KraftSum, MaxLen, AllLens, SetCode, StepsOk, Lits;
    AllLensIs();
    CodeFull();
    LitsFull();
    NoDistance();
    CodeFits();
    AllStepsOk();
    var lens := AllLens(STEPS, 0);
    assert lens[..257] == Lits() && lens[257..] == [0];
  }

  lemma CodeFits()
    ensures |CODE| == 19 && (forall s :: 0 <= s < 19 ==> CODE[s] <= 7)
    ensures forall s: nat :: s < 19 && PLACE[s] >= 18 ==> CODE[s] == 0
  {
  }

  lemma AllStepsOk()
    ensures StepsOk(CODE, STEPS)
  {
    hide Pow2;
    SeventhPower();
  }

  /** The data and the end mark. */
  const DATA: seq<Piece> := [Piece(0, 1)] + [Piece(1, 1)]

  lemma DataIs(lit: seq<nat>, dist: seq<nat>)
    requires |lit| == 257 && lit[65] == 1 && lit[256] == 1 && EncodeSym(lit, 65) == 0 && EncodeSym(lit, 256) == 1
    ensures TokensOk(lit, dist, [Literal(0x41)]) && CodePieces(lit, dist, [Literal(0x41)]) == DATA
  {
    hide EncodeSym;
    assert [Literal(0x41)][1..] == [];
    assert CodePieces(lit, dist, []) == [Piece(1, 1)];
  }

  lemma DataPack()
    ensures Packs(DATA, 2, 2)
  {
    hide Packs;
    NonePacked();
    Before(1, 1, [], 0, 0);
    Before(0, 1, [Piece(1, 1)] + [], 1, 1);
    assert [Piece(1, 1)] + [] == [Piece(1, 1)];
  }

  /** The code lengths in `steps`, and what follows. */
  ghost predicate LenPack(steps: seq<LenStep>, x: nat, w: nat) {
    StepsOk(CODE, steps) && Packs(LenPieces(CODE, steps) + DATA, x, w)
  }

  lemma StepMore(code: seq<nat>, st: LenStep, steps: seq<LenStep>, all: seq<LenStep>)
    requires StepOk(code, st) && StepsOk(code, steps) && all == [st] + steps
    ensures StepsOk(code, all) && LenPieces(code, all) == StepPieces(code, st) + LenPieces(code, steps)
  {
    hide StepOk, StepPieces;
    assert all[1..] == steps;
  }

  lemma PlainBefore(n: nat, c: nat, steps: seq<LenStep>, all: seq<LenStep>, x: nat, w: nat)
    requires LenPack(steps, x, w) && n < 2 && c == EncodeSym(CODE, n) && all == [Plain(n)] + steps
    ensures LenPack(all, c + 4 * x, 2 + w)
  {
    hide Packs, EncodeSym, LenPieces, StepsOk, Pow2;
    StepMore(CODE, Plain(n), steps, all);
    var ps := LenPieces(CODE, steps) + DATA;
    Before(c, 2, ps, x, w);
    assert LenPieces(CODE, all) + DATA == [Piece(c, 2)] + ps;
  }

  lemma ZerosBefore(k: nat, steps: seq<LenStep>, all: seq<LenStep>, x: nat, w: nat)
    requires LenPack(steps, x, w) && k < 128 && EncodeSym(CODE, 18) == 0 && all == [ManyZeros(k)] + steps
    ensures LenPack(all, 2 * (k + 0x80 * x), 8 + w)
  {
    hide Packs, EncodeSym, LenPieces, StepsOk, Pow2;
    SeventhPower();
    StepMore(CODE, ManyZeros(k), steps, all);
    var ps := LenPieces(CODE, steps) + DATA;
    Before(k, 7, ps, x, w);
    Before(0, 1, [Piece(k, 7)] + ps, k + 0x80 * x, 7 + w);
    assert LenPieces(CODE, all) + DATA == [Piece(0, 1)] + ([Piece(k, 7)] + ps);
  }

  lemma LensPack()
    ensures LenPack(STEPS, 0x9d4b_fb6c, 32)
  {
    hide LenPack, EncodeSym;
    var s := STEPS;
    NoStepPack(s[6..]);
    CodeBits();
    PlainBefore(0, 1, s[6..], s[5..], 2, 2);
    PlainBefore(1, 3, s[5..], s[4..], 9, 4);
    ZerosBefore(41, s[4..], s[3..], 39, 6);
    ZerosBefore(127, s[3..], s[2..], 10066, 14);
    PlainBefore(1, 3, s[2..], s[1..], 2577150, 22);
    ZerosBefore(54, s[1..], s, 10308603, 24);
  }

  lemma NoStepPack(steps: seq<LenStep>)
    requires |steps| == 0
    ensures LenPack(steps, 2, 2)
  {
    hide Packs;
    DataPack();
    assert [] + DATA == DATA;
  }

  const VALS: seq<nat> := [0, 0, 1, 2, 0, 0, 0, 0, 0, 0, 0, 0, 0, 0, 0, 0, 0, 2]

  /** The lengths of the code length code in their order. */
  lemma OrderedIs()
    ensures Ordered(CODE, 18) == VALS
  {
    var o := Ordered(CODE, 18);
    assert o[0] == 0 && o[1] == 0 && o[2] == 1 && o[3] == 2 && o[4] == 0 && o[5] == 0 && o[6] == 0 && o[7] == 0 && o[8] == 0;
    assert o[9] == 0 && o[10] == 0 && o[11] == 0 && o[12] == 0 && o[13] == 0 && o[14] == 0 && o[15] == 0 && o[16] == 0;
    assert o[17] == 2;
  }

  /** ... from the `i`-th on, and what follows. */
  ghost predicate ThreePack(vals: seq<nat>, i: nat, tail: seq<Piece>, x: nat, w: nat) {
    i <= |vals| && Packs(ThreeBitPieces(vals[i..]) + tail, x, w)
  }

  lemma ThreeBefore(vals: seq<nat>, i: nat, tail: seq<Piece>, x: nat, w: nat)
    requires i < |vals| && ThreePack(vals, i + 1, tail, x, w)
    ensures ThreePack(vals, i, tail, vals[i] + 8 * x, 3 + w)
  {
    hide Packs;
    var ps := ThreeBitPieces(vals[i + 1..]) + tail;
    Before(vals[i], 3, ps, x, w);
    assert vals[i..][1..] == vals[i + 1..];
    assert ThreeBitPieces(vals[i..]) + tail == [Piece(vals[i], 3)] + ps;
  }

  lemma LastThrees(vals: seq<nat>, tail: seq<Piece>, x: nat, w: nat)
    requires Packs(tail, x, w)
    ensures ThreePack(vals, |vals|, tail, x, w)
  {
    hide Packs;
    assert vals[|vals|..] == [];
    assert [] + tail == tail;
  }

  lemma ThreesPack(tail: seq<Piece>)
    requires Packs(tail, 0x9d4b_fb6c, 32)
    ensures ThreePack(VALS, 0, tail, 0x27_52fe_db10_0000_0000_0440, 86)
  {
    hide ThreePack;
    LastThrees(VALS, tail, 0x9d4b_fb6c, 32);
    ThreeBefore(VALS, 17, tail, 0x9d4b_fb6c, 32);
    ThreeBefore(VALS, 16, tail, 0x4_ea5f_db62, 35);
    ThreeBefore(VALS, 15, tail, 0x27_52fe_db10, 38);
    ThreeBefore(VALS, 14, tail, 0x13a_97f6_d880, 41);
    ThreeBefore(VALS, 13, tail, 0x9d4_bfb6_c400, 44);
    ThreeBefore(VALS, 12, tail, 0x4ea5_fdb6_2000, 47);
    ThreeBefore(VALS, 11, tail, 0x2_752f_edb1_0000, 50);
    ThreeBefore(VALS, 10, tail, 0x13_a97f_6d88_0000, 53);
    ThreeBefore(VALS, 9, tail, 0x9d_4bfb_6c40_0000, 56);
    ThreeBefore(VALS, 8, tail, 0x4ea_5fdb_6200_0000, 59);
    ThreeBefore(VALS, 7, tail, 0x2752_fedb_1000_0000, 62);
    ThreeBefore(VALS, 6, tail, 0x1_3a97_f6d8_8000_0000, 65);
    ThreeBefore(VALS, 5, tail, 0x9_d4bf_b6c4_0000_0000, 68);
    ThreeBefore(VALS, 4, tail, 0x4e_a5fd_b620_0000_0000, 71);
    ThreeBefore(VALS, 3, tail, 0x275_2fed_b100_0000_0000, 74);
    ThreeBefore(VALS, 2, tail, 0x13a9_7f6d_8800_0000_0002, 77);
    ThreeBefore(VALS, 1, tail, 0x9d4b_fb6c_4000_0000_0011, 80);
    ThreeBefore(VALS, 0, tail, 0x4_ea5f_db62_0000_0000_0088, 83);
  }

  /** The whole block, from three numbers on. */
  lemma DynamicPack(b: Block)
    requires b == Dynamic(HEAD, [Literal(0x41)]) && BlockOk(b)
    ensures Packs(BlockPieces(b, 1), 0x27_52fe_db10_0000_0000_0440_e002, 102)
  {
    hide Packs, LenPieces, CodePieces, ThreeBitPieces, HeaderOk, LitOf, DistOf, TokensOk, AllLens, Lits, EncodeSym, LenPack;
    HeadOk();
    LitBits();
    DataIs(Lits(), [0]);
    LensPack();
    var tail := LenTail();
    ThreesPack(tail);
    OrderedIs();
    var ps := WholeThrees(tail);
    Before(14, 4, ps, 0x27_52fe_db10_0000_0000_0440, 86);
    Before(0, 5, [Piece(14, 4)] + ps, 0x275_2fed_b100_0000_0000_440e, 90);
    Before(0, 5, [Piece(0, 5)] + ([Piece(14, 4)] + ps), 0x4ea5_fdb6_2000_0000_0008_81c0, 95);
    var counts := [Piece(0, 5)] + ([Piece(0, 5)] + ([Piece(14, 4)] + ps));
    Before(2, 2, counts, 0x9_d4bf_b6c4_0000_0000_0110_3800, 100);
    CountsAre();
    assert CountPieces(HEAD) + ps == counts;
  }

  /** The lengths and the data. */
  lemma LenTail() returns (tail: seq<Piece>)
    ensures StepsOk(CODE, STEPS) && tail == LenPieces(CODE, STEPS) + DATA && Packs(tail, 0x9d4b_fb6c, 32)
  {
    hide Packs, LenPieces;
    LensPack();
    tail := LenPieces(CODE, STEPS) + DATA;
  }

  lemma WholeThrees(tail: seq<Piece>) returns (ps: seq<Piece>)
    requires ThreePack(VALS, 0, tail, 0x27_52fe_db10_0000_0000_0440, 86)
    ensures ps == ThreeBitPieces(VALS) + tail && Packs(ps, 0x27_52fe_db10_0000_0000_0440, 86)
  {
    hide Packs, ThreeBitPieces;
    assert VALS[0..] == VALS;
    ps := ThreeBitPieces(VALS) + tail;
  }

  lemma CountsAre()
    ensures HeaderOk(HEAD) && CountPieces(HEAD) == [Piece(0, 5)] + [Piece(0, 5)] + [Piece(14, 4)]
  {
    hide HeaderOk, AllLens, Repeat;
    HeadOk();
    AllLensIs();
    LitBits();
  }

  /** 05 c0 81 08 00 00 00 00 20 b6 fd a5 4e is the letter A. */
  lemma DynamicA()
    ensures forall tail: seq<byte> ::
      Inflated([0x05, 0xc0, 0x81, 0x08, 0x00, 0x00, 0x00, 0x00, 0x20, 0xb6, 0xfd, 0xa5, 0x4e] + tail, 2) == Done(103, [0x41])
  {
    hide *;
    var data: seq<byte> := [0x05, 0xc0, 0x81, 0x08, 0x00, 0x00, 0x00, 0x00, 0x20, 0xb6, 0xfd, 0xa5, 0x4e];
    var b := Dynamic(HEAD, [Literal(0x41)]);
    DynamicBlock(b);
    DynamicPack(b);
    OneBlock(b);
    DynamicStream(data);
    Before(1, 1, BlockPieces(b, 1), 0x27_52fe_db10_0000_0000_0440_e002, 102);
    OneBit(0x27_52fe_db10_0000_0000_0440_e002);
    BytesAre([b], data, 0x4e_a5fd_b620_0000_0000_0881_c005, 103);
    OneLiteral(0x41);
  }

  lemma OneBit(x: nat)
    ensures Times(1, x) == 2 * x
  {
  }

  lemma DynamicBlock(b: Block)
    requires b == Dynamic(HEAD, [Literal(0x41)])
    ensures BlockOk(b) && BlockSteps(b) == 2 && ExpandBlock(b, []) == ExpandAll([Literal(0x41)], [])
  {
    hide HeaderOk, LitOf, DistOf, TokensOk, ExpandAll, EncodeSym, CodePieces, Lits;
    HeadOk();
    LitBits();
    DataIs(Lits(), [0]);
  }

  lemma DynamicStream(data: seq<byte>)
    requires data == [0x05, 0xc0, 0x81, 0x08, 0x00, 0x00, 0x00, 0x00, 0x20, 0xb6, 0xfd, 0xa5, 0x4e]
    ensures Stream(data[0..]) == 0x4e_a5fd_b620_0000_0000_0881_c005
  {
    hide Stream;
    LateBytes(data);
    StreamFrom(data, 5, 0x4e_a5fd_b620_0000);
    StreamFrom(data, 4, 0x4ea5_fdb6_2000_0000);
    StreamFrom(data, 3, 0x4e_a5fd_b620_0000_0000);
    StreamFrom(data, 2, 0x4ea5_fdb6_2000_0000_0008);
    StreamFrom(data, 1, 0x4e_a5fd_b620_0000_0000_0881);
    StreamFrom(data, 0, 0x4ea5_fdb6_2000_0000_0008_81c0);
  }

  lemma LateBytes(data: seq<byte>)
    requires |data| == 13 && data[6..] == [0x00, 0x00, 0x20, 0xb6, 0xfd, 0xa5, 0x4e]
    ensures Stream(data[6..]) == 0x4e_a5fd_b620_0000
  {
    hide Stream;
    StreamEnd(data);
    assert data[6] == 0x00 && data[7] == 0x00 && data[8] == 0x20 && data[9] == 0xb6;
    assert data[10] == 0xfd && data[11] == 0xa5 && data[12] == 0x4e;
    StreamFrom(data, 12, 0);
    StreamFrom(data, 11, 0x4e);
    StreamFrom(data, 10, 0x4ea5);
    StreamFrom(data, 9, 0x4e_a5fd);
    StreamFrom(data, 8, 0x4ea5_fdb6);
    StreamFrom(data, 7, 0x4e_a5fd_b620);
    StreamFrom(data, 6, 0x4ea5_fdb6_2000);
  }
}
