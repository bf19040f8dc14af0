/**
 What the reference decoder is: its result does not depend on the step allowance, once that is large enough, and it
 decodes every symbol as it was encoded, whatever the code.
 */
module DeflateFacts {
  import opened Bits
  import opened Bytes
  import opened Huffman
  import opened HuftTables
  import opened HuftSetup
  import opened HuftBuild
  import opened Deflate
  import opened Inflate

  // ----- the step allowance

  lemma {:induction false} MoreForCodes(lit: seq<nat>, dist: seq<nat>, x: nat, pos: nat, out: seq<byte>, f: nat, f': nat)
    requires |lit| <= 288 && |dist| <= 30 && f <= f'
    requires RunCodes(lit, dist, x, pos, out, f) != NoFuel
    ensures RunCodes(lit, dist, x, pos, out, f') == RunCodes(lit, dist, x, pos, out, f)
    decreases f
  {
    hide DecodeSym, Shr, Low, LengthBase, DistBase, CopyMatch, Pow2;
    if DecodeSym(lit, Shr(x, pos)).Sym? {
      var s := DecodeSym(lit, Shr(x, pos)).sym;
      if s < |lit| {
        var p1 := pos + lit[s];
        if s < 256 {
          MoreForCodes(lit, dist, x, p1, out + [s], f - 1, f' - 1);
        } else if 256 < s <= 285 {
          var p2 := p1 + LengthExtra(s);
          if DecodeSym(dist, Shr(x, p2)).Sym? {
            var d := DecodeSym(dist, Shr(x, p2)).sym;
            if d < |dist| {
              var p3 := p2 + dist[d];
              MoreForCodes(lit, dist, x, p3 + DistExtra(d),
                           CopyMatch(out, DistBase(d) + Field(x, p3, DistExtra(d)),
                                     LengthBase(s) + Field(x, p1, LengthExtra(s))), f - 1, f' - 1);
            }
          }
        }
      }
    }
  }

  lemma MoreForBlock(x: nat, pos: nat, out: seq<byte>, f: nat, f': nat)
    requires f <= f' && RunBlock(x, pos, out, f) != NoFuel
    ensures RunBlock(x, pos, out, f') == RunBlock(x, pos, out, f)
  {
    hide Shr, Low, Pow2, RunCodes, RunStored, ReadLengths, CodeLengthCode, KraftSum;
    var kind := Field(x, pos, 2);
    if kind == 1 {
      MoreForCodes(FixedLit(), FixedDist(), x, pos + 2, out, f, f');
    } else if kind == 2 {
      MoreForDynamic(x, pos + 2, out, f, f');
    }
  }

  lemma MoreForDynamic(x: nat, pos: nat, out: seq<byte>, f: nat, f': nat)
    requires f <= f' && RunDynamic(x, pos, out, f) != NoFuel
    ensures RunDynamic(x, pos, out, f') == RunDynamic(x, pos, out, f)
  {
    hide Shr, Low, Pow2, RunCodes, ReadLengths, CodeLengthCode, KraftSum, MaxLen;
    var nl, nd, nb := 257 + Field(x, pos, 5), 1 + Field(x, pos + 5, 5), 4 + Field(x, pos + 10, 4);
    if nl <= 286 && nd <= 30 {
      FourBits(x, pos + 10);
      var code := CodeLengthCode(x, pos + 14, nb);
      var r := ReadLengths(code, x, pos + 14 + 3 * nb, nl + nd, 0, []);
      if SetCode(code) == 0 && r.Lengths? {
        var lit, dist := r.lens[..nl], r.lens[nl..];
        if SetCode(lit) == 0 && SetCode(dist) == 0 {
          MoreForCodes(lit, dist, x, r.pos, out, f, f');
        }
      }
    }
  }

  /** A run that has ended has one result: all allowances from there on give the same. */
  lemma {:induction false} MoreForBlocks(x: nat, pos: nat, out: seq<byte>, f: nat, f': nat)
    requires f <= f' && RunBlocks(x, pos, out, f) != NoFuel
    ensures RunBlocks(x, pos, out, f') == RunBlocks(x, pos, out, f)
    decreases f
  {
    hide Shr, Low, Pow2, RunBlock;
    MoreForBlock(x, pos + 1, out, f, f');
    var r := RunBlock(x, pos + 1, out, f);
    if r.Done? && Field(x, pos, 1) == 0 {
      MoreForBlocks(x, r.pos, r.out, f - 1, f' - 1);
    }
  }

  /** So two runs of one input that both end agree. */
  lemma InflatedUnique(bytes: seq<byte>, f: nat, f': nat)
    requires Inflated(bytes, f) != NoFuel && Inflated(bytes, f') != NoFuel
    ensures Inflated(bytes, f) == Inflated(bytes, f')
  {
    if f <= f' {
      MoreForBlocks(Stream(bytes), 0, [], f, f');
    } else {
      MoreForBlocks(Stream(bytes), 0, [], f', f);
    }
  }

  // ----- the encoder

  /** Reversing twice gives the code back. */
  lemma {:induction false} RevTwice(k: nat, x: nat)
    requires x < Pow2(k)
    ensures Rev(k, Rev(k, x)) == x
  {
    hide Low, Shr, Shl;
    if k != 0 {
      assert Pow2(k) == 2 * Pow2(k - 1);
      var z, b := Rev(k - 1, x / 2), x % 2;
      RevTwice(k - 1, x / 2);
      RevBound(k - 1, x / 2);
      ShlOne(k - 1);
      LowShrUnique(z, b, k - 1);
      var y := Rev(k, x);
      assert y == z + Shl(b, k - 1);
      SmallLow(z, k - 1);
      RevSame(k - 1, y, z);
      RevSplit(k - 1, 1, y);
      ShlByOne(Rev(k - 1, y));
      RevOfBit(b);
    }
  }

  lemma ShlByOne(x: nat)
    ensures Shl(x, 1) == 2 * x
  {
  }

  lemma RevOfBit(b: nat)
    requires b <= 1
    ensures Rev(1, b) == b
  {
  }

  /** The bits of a symbol's code, first bit lowest. */
  function EncodeSym(lens: seq<nat>, s: nat): nat
    requires s < |lens|
  {
    Rev(lens[s], CodeOf(lens, s))
  }

  ghost predicate Usable(lens: seq<nat>) {
    ValidLengths(lens) && KraftSum(lens) <= Pow2(BMAX)
  }

  /** A usable set in which some symbol has a code can be filled out. */
  lemma Fillable(lens: seq<nat>, s: nat) returns (c: seq<nat>, g: nat)
    requires Usable(lens) && s < |lens| && lens[s] > 0
    ensures Completes(lens, c, g)
  {
    hide Pow2, Used, KraftSum;
    g := MaxLen(lens);
    LongestOf(lens);
    KraftIsUsed(lens);
    ShareAtEnd(Counts(lens), g);
    FilledCompletes(lens, Counts(lens), g, Pow2(g) - Used(Counts(lens), g));
    c := FullCounts(lens);
  }

  /** Decoding what was encoded, whatever follows. */
  lemma SymbolRoundTrip(lens: seq<nat>, s: nat, rest: nat)
    requires Usable(lens) && s < |lens| && lens[s] > 0
    ensures DecodeSym(lens, EncodeSym(lens, s) + Shl(rest, lens[s])) == Sym(s)
    ensures Shr(EncodeSym(lens, s) + Shl(rest, lens[s]), lens[s]) == rest
  {
    hide Pow2, Shl, Shr, Low, Rev, DecodeSym;
    var k, x := lens[s], EncodeSym(lens, s) + Shl(rest, lens[s]);
    var c, g := Fillable(lens, s);
    SymUnder(lens, c, g, s, x);
    CodeFitsLength(lens, c, g, s);
    RevBound(k, CodeOf(lens, s));
    LowShrUnique(EncodeSym(lens, s), rest, k);
    SmallLow(EncodeSym(lens, s), k);
    RevSame(k, x, EncodeSym(lens, s));
    RevTwice(k, CodeOf(lens, s));
    assert Matches(lens, s, x);
    DecodeUnder(lens, c, g, k, Rank(lens, s), x);
    RankUnique(lens, s, SymAt(lens, k, Rank(lens, s)));
  }

  lemma CodeFitsLength(lens: seq<nat>, c: seq<nat>, g: nat, s: nat)
    requires Completes(lens, c, g) && ValidLengths(lens) && s < |lens| && lens[s] > 0
    requires lens[s] <= g && Rank(lens, s) < c[lens[s]]
    ensures CodeOf(lens, s) < Pow2(lens[s])
  {
    hide Pow2, Shl;
    var k := lens[s];
    UsedSame(lens, c, g, k - 1);
    FirstCodeIsUsed(lens, k);
    UsedMono(c, k, g);
    CompleteEnd(lens, c, g);
    ShlPow2(k, SCALE - k);
    ShlMono(Used(c, k), Pow2(k), SCALE - k);
  }

  lemma ByteUp(x: nat)
    ensures Shl(x, 8) == 256 * x
  {
    assert Shl(x, 1) == 2 * x;
    assert Shl(x, 3) == 2 * Shl(x, 2) == 8 * x;
    assert Shl(x, 5) == 2 * Shl(x, 4) == 32 * x;
    assert Shl(x, 7) == 2 * Shl(x, 6) == 128 * x;
  }

  lemma FixedUsable()
    ensures Usable(FixedLit()) && Usable(FixedDist()) && |FixedLit()| == 288 && |FixedDist()| == 30
    ensures forall c: nat :: c < 288 ==> FixedLit()[c] > 0
  {
    hide KraftSum, Pow2, FitsLengths;
    FixedSets();
  }
}
