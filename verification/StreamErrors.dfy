/**
 The error returns of the decoder in numbers: which streams are given code 1 and which code 2 (inflate.c:350-356, 453, 545-546,
 577-578, 649-653, 779-781, 797-804, 826-847, 869-900, 955-956).
 */
module StreamErrors {
  import opened Bits
  import opened Bytes
  import opened Huffman
  import opened Deflate
  import opened DeflateFacts
  import opened CodeTables

  /** Too many codes for their lengths. */
  ghost predicate Over(lens: seq<nat>)
    requires forall s :: 0 <= s < |lens| ==> lens[s] <= BMAX
  {
    KraftSum(lens) > 0x1_0000
  }

  /** Patterns are left over, and it is not a set of one-bit codes. */
  ghost predicate Short(lens: seq<nat>)
    requires forall s :: 0 <= s < |lens| ==> lens[s] <= BMAX
  {
    KraftSum(lens) < 0x1_0000 && exists s: nat :: s < |lens| && lens[s] > 1
  }

  /** Code 2 for a set with too many codes, 1 for one with too few, a single one-bit code being let through. */
  lemma SetErrors(lens: seq<nat>)
    requires forall s :: 0 <= s < |lens| ==> lens[s] <= BMAX
    ensures SetCode(lens) == 2 <==> Over(lens)
    ensures SetCode(lens) == 1 <==> Short(lens)
    ensures SetCode(lens) == 0 <==> !Over(lens) && !Short(lens)
  {
    hide KraftSum, MaxLen, Pow2;
    LargePowers();
    if MaxLen(lens) > 1 {
      assert MaxLen(lens) in lens;
    }
  }

  /** The reserved block type is refused with code 2. */
  lemma ReservedType(x: nat, pos: nat, out: seq<byte>, fuel: nat)
    requires Field(x, pos, 2) == 3
    ensures RunBlock(x, pos, out, fuel) == Fail(2, out)
  {
    hide Field;
  }

  /** A stored block is refused, with code 1, exactly when its length and the complement do not add up. */
  lemma StoredErrors(x: nat, pos: nat, out: seq<byte>, fuel: nat)
    requires Field(x, pos, 2) == 0
    ensures var p, r := (pos + 9) / 8 * 8, RunBlock(x, pos, out, fuel);
      if Field(x, p, 16) + Field(x, p + 16, 16) != 0xffff then r == Fail(1, out)
      else r.Done? && r.pos == p + 32 + 8 * Field(x, p, 16) && out <= r.out && |r.out| == |out| + Field(x, p, 16)
  {
    hide Field;
  }

  /** A dynamic block with more than 286 literal and length codes or more than 30 distance codes is refused with code 1. */
  lemma CountErrors(x: nat, pos: nat, out: seq<byte>, fuel: nat)
    requires Field(x, pos, 2) == 2 && (Field(x, pos + 2, 5) >= 30 || Field(x, pos + 7, 5) >= 30)
    ensures RunBlock(x, pos, out, fuel) == Fail(1, out)
  {
    hide Field;
  }

  /** The two sets are checked in order. */
  lemma TreesErrors(lit: seq<nat>, dist: seq<nat>, x: nat, pos: nat, out: seq<byte>, fuel: nat)
    requires |lit| <= 286 && forall s :: 0 <= s < |lit| ==> lit[s] <= 15
    requires |dist| <= 30 && forall s :: 0 <= s < |dist| ==> dist[s] <= 15
    ensures RunTrees(lit, dist, x, pos, out, fuel)
         == if Over(lit) then Fail(2, out) else if Short(lit) then Fail(1, out)
            else if Over(dist) then Fail(2, out) else if Short(dist) then Fail(1, out)
            else RunCodes(lit, dist, x, pos, out, fuel)
  {
    hide SetCode, Over, Short, RunCodes;
    SetErrors(lit);
    SetErrors(dist);
  }

  /** Before them the code length code, and the lengths themselves. */
  lemma CodedErrors(code: seq<nat>, nl: nat, nd: nat, x: nat, pos: nat, out: seq<byte>, fuel: nat)
    requires |code| == 19 && (forall s :: 0 <= s < 19 ==> code[s] <= 7) && nl <= 286 && nd <= 30
    ensures var ls := ReadLengths(code, x, pos, nl + nd, 0, []);
      RunCoded(code, nl, nd, x, pos, out, fuel)
      == if Over(code) then Fail(2, out) else if Short(code) || ls.BadLengths? then Fail(1, out)
         else if ls.UndefLengths? then Undef
         else RunTrees(ls.lens[..nl], ls.lens[nl..], x, ls.pos, out, fuel)
  {
    hide SetCode, Over, Short, RunTrees, ReadLengths;
    SetErrors(code);
  }

  /** What is checked is what the header of 5, 5 and 4 bits says. */
  lemma DynamicErrors(x: nat, pos: nat, out: seq<byte>, fuel: nat)
    requires Field(x, pos, 2) == 2 && Field(x, pos + 2, 5) < 30 && Field(x, pos + 7, 5) < 30
    ensures var nl, nd, nb := 257 + Field(x, pos + 2, 5), 1 + Field(x, pos + 7, 5), 4 + Field(x, pos + 12, 4);
      (FourBits(x, pos + 12);
       RunBlock(x, pos, out, fuel) == RunCoded(CodeLengthCode(x, pos + 16, nb), nl, nd, x, pos + 16 + 3 * nb, out, fuel))
  {
    hide Field, CodeLengthCode, RunCoded;
    FourBits(x, pos + 12);
  }

  /** A repeat that goes past the number of lengths is refused, and one that just fills it is not. */
  lemma RepeatErrors(code: seq<nat>, x: nat, pos: nat, n: nat, prev: nat, lens: seq<nat>, s: nat)
    requires |code| == 19 && |lens| < n && prev <= 15 && forall j :: 0 <= j < |lens| ==> lens[j] <= 15
    requires 16 <= s < 19 && DecodeSym(code, Shr(x, pos)) == Sym(s)
    ensures var p := pos + code[s];
      var times := if s == 16 then 3 + Field(x, p, 2) else if s == 17 then 3 + Field(x, p, 3) else 11 + Field(x, p, 7);
      |lens| + times > n ==> ReadLengths(code, x, pos, n, prev, lens).BadLengths?
    ensures var p := pos + code[s];
      var times := if s == 16 then 3 + Field(x, p, 2) else if s == 17 then 3 + Field(x, p, 3) else 11 + Field(x, p, 7);
      |lens| + times == n ==> ReadLengths(code, x, pos, n, prev, lens).Lengths?
  {
    hide Field, Shr, DecodeSym;
  }

  /** Coded data is refused with code 1, and nothing else: where no code stands, and at the symbols 286 and 287. */
  lemma CodeErrors(lit: seq<nat>, dist: seq<nat>, x: nat, pos: nat, out: seq<byte>, fuel: nat)
    requires |lit| <= 288 && |dist| <= 30 && fuel > 0
    ensures DecodeSym(lit, Shr(x, pos)) == NoCode ==> RunCodes(lit, dist, x, pos, out, fuel) == Fail(1, out)
    ensures forall s: nat :: 286 <= s < |lit| && DecodeSym(lit, Shr(x, pos)) == Sym(s) ==>
      RunCodes(lit, dist, x, pos, out, fuel) == Fail(1, out)
    ensures forall s: nat {:trigger LengthExtra(s)} ::
      257 <= s <= 285 && s < |lit| && DecodeSym(lit, Shr(x, pos)) == Sym(s)
      && DecodeSym(dist, Shr(x, pos + lit[s] + LengthExtra(s))) == NoCode ==>
        RunCodes(lit, dist, x, pos, out, fuel) == Fail(1, out)
  {
    hide DecodeSym, Shr, Field, LengthExtra, LengthBase, DistBase, DistExtra;
  }

  /** With the fixed codes, a number of five bits is a distance code unless it is 30 or 31: those have no code. */
  lemma FixedDistances(x: nat)
    ensures Rev(5, x) < 32
    ensures DecodeSym(FixedDist(), x) == if Rev(5, x) < 30 then Sym(Rev(5, x)) else NoCode
  {
    hide Rev, Pow2, CodeOf, FixedDist;
    RevBound(5, x);
    SmallPowers();
    var lens, d := FixedDist(), Rev(5, x);
    forall s: nat
      ensures Matches(lens, s, x) <==> s < 30 && s == d
    {
      FixedDistCode(if s < 30 then s else 0);
    }
    if d < 30 {
      assert Matches(lens, d, x);
    }
    FixedDistCode(0);
    forall s: nat | s < 30
      ensures lens[s] != 0
    {
      FixedDistCode(s);
    }
  }

  /** And 0xc6 and 0xc7, of eight bits, are symbols that have a code and are refused. */
  lemma FixedReserved(x: nat, pos: nat, out: seq<byte>, fuel: nat)
    requires Field(x, pos, 2) == 1 && (Rev(8, Shr(x, pos + 2)) == 0xc6 || Rev(8, Shr(x, pos + 2)) == 0xc7) && fuel > 0
    ensures RunBlock(x, pos, out, fuel) == Fail(1, out)
  {
    hide Field, Rev, CodeOf, FixedLit, FixedDist, DecodeSym, RunCodes, Shl, Shr, Low, Pow2;
    FixedUsable();
    var y := Shr(x, pos + 2);
    var s := if Rev(8, y) == 0xc6 then 286 else 287;
    FixedLitCode(s);
    var e := EncodeSym(FixedLit(), s);
    LowShr(y, 8);
    CodeSent(FixedLit(), s, y);
    SymbolRoundTrip(FixedLit(), s, Shr(y, 8));
    CodeErrors(FixedLit(), FixedDist(), x, pos + 2, out, fuel);
  }

  /** The bits that read as a code are those it is sent as. */
  lemma CodeSent(lens: seq<nat>, s: nat, x: nat)
    requires s < |lens| && Rev(lens[s], x) == CodeOf(lens, s)
    ensures Low(x, lens[s]) == EncodeSym(lens, s)
  {
    hide Rev, CodeOf, Shl, Shr, Low, Pow2;
    var k := lens[s];
    LowBound(x, k);
    RevTwice(k, Low(x, k));
    LowNest(x, k, k);
    RevSame(k, x, Low(x, k));
  }
}
