/**
 The codes of RFC 1951 in numbers: canonical codes (section 3.2.2), lengths and distances (3.2.5), the fixed codes (3.2.6),
 the border order and the repeat codes (3.2.7), and what a match stands for.
 */
module CodeTables {
  import opened Bits
  import opened Bytes
  import opened Huffman
  import opened HuftSetup
  import opened Deflate
  import opened DeflateFacts
  import opened Encoder
  import opened Inflate
  import opened Window

  // ----- canonical codes

  /** A code is sent with its highest bit first. */
  lemma HighestFirst(lens: seq<nat>, s: nat, i: nat)
    requires s < |lens| && i < lens[s]
    ensures Bit(EncodeSym(lens, s), i) == Bit(CodeOf(lens, s), lens[s] - 1 - i)
  {
    RevBit(lens[s], CodeOf(lens, s), i);
  }

  /** The example of section 3.2.2: eight symbols of lengths 3, 3, 3, 3, 3, 2, 4, 4. */
  lemma ExampleCodes()
    ensures var lens: seq<nat> := [3, 3, 3, 3, 3, 2, 4, 4];
      && CodeOf(lens, 0) == 2 && CodeOf(lens, 1) == 3 && CodeOf(lens, 2) == 4 && CodeOf(lens, 3) == 5
      && CodeOf(lens, 4) == 6 && CodeOf(lens, 5) == 0 && CodeOf(lens, 6) == 14 && CodeOf(lens, 7) == 15
  {
    hide Count, FirstCode;
    var a, b, c: seq<nat> := [3, 3, 3, 3, 3], [2], [4, 4];
    var lens: seq<nat> := [3, 3, 3, 3, 3, 2, 4, 4];
    assert lens == a + b + c;
    forall k: nat
      ensures Count(lens, k) == if k == 2 then 1 else if k == 3 then 5 else if k == 4 then 2 else 0
    {
      CountConcat(a + b, c, k);
      CountConcat(a, b, k);
      CountRepeat(3, 5, a, k);
      CountRepeat(2, 1, b, k);
      CountRepeat(4, 2, c, k);
    }
    ExampleFirst(lens);
    CountRepeat(3, 0, lens[..0], 3);
    CountRepeat(3, 1, lens[..1], 3);
    CountRepeat(3, 2, lens[..2], 3);
    CountRepeat(3, 3, lens[..3], 3);
    CountRepeat(3, 4, lens[..4], 3);
    CountRepeat(3, 5, a, 2);
    assert lens[..5] == a;
    CountConcat(a, b, 4);
    CountRepeat(3, 5, a, 4);
    CountRepeat(2, 1, b, 4);
    assert lens[..6] == a + b;
    CountConcat(a + b, [4], 4);
    CountRepeat(4, 1, [4], 4);
    assert lens[..7] == a + b + [4];
  }

  lemma ExampleFirst(lens: seq<nat>)
    requires forall k: nat :: Count(lens, k) == if k == 2 then 1 else if k == 3 then 5 else if k == 4 then 2 else 0
    ensures FirstCode(lens, 2) == 0 && FirstCode(lens, 3) == 2 && FirstCode(lens, 4) == 14
  {
    hide Count;
    assert FirstCode(lens, 1) == 0;
  }

  // ----- the fixed codes

  /** Where the codes of seven, eight and nine bits begin. */
  lemma FixedFirst()
    ensures FirstCode(FixedLit(), 7) == 0 && FirstCode(FixedLit(), 8) == 0x30 && FirstCode(FixedLit(), 9) == 0x190
  {
    hide Count, FixedLit;
    var lens := FixedLit();
    FixedLitCount(1);
    FixedLitCount(2);
    FixedLitCount(3);
    FixedLitCount(4);
    FixedLitCount(5);
    FixedLitCount(6);
    FixedLitCount(7);
    FixedLitCount(8);
    assert FirstCode(lens, 1) == 0 && FirstCode(lens, 2) == 0 && FirstCode(lens, 3) == 0;
    assert FirstCode(lens, 4) == 0 && FirstCode(lens, 5) == 0 && FirstCode(lens, 6) == 0;
  }

  /** How many symbols before `s` have a code of `k` bits. */
  lemma FixedBefore(s: nat, k: nat)
    requires s < 288
    ensures |FixedLit()| == 288
    ensures Count(FixedLit()[..s], k)
         == if s <= 144 then (if k == 8 then s else 0)
            else if s <= 256 then (if k == 8 then 144 else if k == 9 then s - 144 else 0)
            else if s <= 280 then (if k == 8 then 144 else if k == 9 then 112 else if k == 7 then s - 256 else 0)
            else if k == 8 then s - 136 else if k == 9 then 112 else if k == 7 then 24 else 0
  {
    hide Count;
    var a, b, c, d := seq<nat>(144, _ => 8), seq<nat>(112, _ => 9), seq<nat>(24, _ => 7), seq<nat>(8, _ => 8);
    var lens := FixedLit();
    assert lens == a + b + c + d;
    CountRepeat(8, 144, a, k);
    CountRepeat(9, 112, b, k);
    CountRepeat(7, 24, c, k);
    if s <= 144 {
      CountRepeat(8, s, lens[..s], k);
    } else if s <= 256 {
      assert lens[..s] == a + b[..s - 144];
      CountConcat(a, b[..s - 144], k);
      CountRepeat(9, s - 144, b[..s - 144], k);
    } else if s <= 280 {
      assert lens[..s] == a + b + c[..s - 256];
      CountConcat(a, b, k);
      CountConcat(a + b, c[..s - 256], k);
      CountRepeat(7, s - 256, c[..s - 256], k);
    } else {
      assert lens[..s] == a + b + c + d[..s - 280];
      CountConcat(a, b, k);
      CountConcat(a + b, c, k);
      CountConcat(a + b + c, d[..s - 280], k);
      CountRepeat(8, s - 280, d[..s - 280], k);
    }
  }

  lemma FixedLength(s: nat)
    requires s < 288
    ensures |FixedLit()| == 288
    ensures FixedLit()[s] == if s < 144 then 8 else if s < 256 then 9 else if s < 280 then 7 else 8
  {
  }

  /** The table of section 3.2.6: each literal and length symbol has this code. */
  lemma FixedLitCode(s: nat)
    requires s < 288
    ensures |FixedLit()| == 288
    ensures s < 144 ==> FixedLit()[s] == 8 && CodeOf(FixedLit(), s) == 0x30 + s
    ensures 144 <= s < 256 ==> FixedLit()[s] == 9 && CodeOf(FixedLit(), s) == 0x190 + (s - 144)
    ensures 256 <= s < 280 ==> FixedLit()[s] == 7 && CodeOf(FixedLit(), s) == s - 256
    ensures 280 <= s ==> FixedLit()[s] == 8 && CodeOf(FixedLit(), s) == 0xc0 + (s - 280)
  {
    hide Count, FixedLit, FirstCode;
    FixedFirst();
    FixedLength(s);
    FixedBefore(s, FixedLit()[s]);
  }

  /** Distance codes are numbers of five bits. */
  lemma FixedDistCode(d: nat)
    requires d < 30
    ensures |FixedDist()| == 30 && FixedDist()[d] == 5 && CodeOf(FixedDist(), d) == d
  {
    hide Count;
    var lens := FixedDist();
    CountRepeat(5, 30, lens, 1);
    CountRepeat(5, 30, lens, 2);
    CountRepeat(5, 30, lens, 3);
    CountRepeat(5, 30, lens, 4);
    CountRepeat(5, d, lens[..d], 5);
    assert FirstCode(lens, 1) == 0 && FirstCode(lens, 2) == 0 && FirstCode(lens, 3) == 0;
    assert FirstCode(lens, 4) == 0 && FirstCode(lens, 5) == 0;
  }

  // ----- lengths and distances

  lemma LengthNext(s: nat)
    requires 257 <= s < 284
    ensures LengthBase(s + 1) == LengthBase(s) + Pow2(LengthExtra(s))
  {
    hide Pow2;
  }

  /** The lengths of a code end where those of the next begin, and none is more than 258. */
  lemma {:induction false} LengthEnds(s: nat)
    requires 257 <= s <= 285
    ensures LengthBase(s) + Pow2(LengthExtra(s)) <= 259
    decreases 285 - s
  {
    hide LengthBase, LengthExtra, Pow2;
    LengthValues();
    LastLength();
    NoExtra();
    if s < 284 {
      LengthNext(s);
      LengthEnds(s + 1);
      SomeExtra(s + 1);
    }
  }

  lemma SomeExtra(s: nat)
    requires 257 <= s <= 285
    ensures Pow2(LengthExtra(s)) >= 1
  {
  }

  /** The code for 258 alone takes no extra bits. */
  lemma NoExtra()
    ensures LengthExtra(285) == 0 && Pow2(LengthExtra(285)) == 1
  {
  }

  /** Codes lie apart, but for the last of code 284, which is that of code 285. */
  lemma {:induction false} LengthApart(s: nat, s': nat)
    requires 257 <= s < s' <= 284
    ensures LengthBase(s) + Pow2(LengthExtra(s)) <= LengthBase(s')
    decreases s'
  {
    hide LengthBase, LengthExtra, Pow2;
    LengthNext(s' - 1);
    if s < s' - 1 {
      LengthApart(s, s' - 1);
    }
  }

  ghost predicate LengthOf(s: nat, e: nat, len: nat) {
    257 <= s <= 285 && e < Pow2(LengthExtra(s)) && LengthBase(s) + e == len
  }

  /** Each length has one code and extra bits, only 258 has two: code 284 with all ones, and code 285 with no extra bits. */
  lemma LengthUnique(len: nat, s: nat, e: nat, s': nat, e': nat)
    requires LengthOf(s, e, len) && LengthOf(s', e', len)
    ensures 3 <= len <= 258
    ensures len < 258 ==> s == s' && e == e'
    ensures len == 258 ==> (s == 284 && e == 31) || (s == 285 && e == 0)
  {
    hide LengthBase, LengthExtra, Pow2;
    LengthEnds(s);
    LengthEnds(s');
    LengthLeast(s);
    LengthValues();
    LastLength();
    NoExtra();
    if s < 284 {
      LengthApart(s, 284);
    }
    if s < s' <= 284 {
      LengthApart(s, s');
    } else if s' < s <= 284 {
      LengthApart(s', s);
    }
  }

  lemma {:induction false} LengthLeast(s: nat)
    requires 257 <= s <= 285
    ensures LengthBase(s) >= 3
  {
    if 257 < s < 285 {
      LengthLeast(s - 1);
    }
  }

  lemma {:induction false} DistApart(d: nat, d': nat)
    requires d < d' < 30
    ensures DistBase(d) + Pow2(DistExtra(d)) <= DistBase(d')
    decreases d'
  {
    hide DistBase, DistExtra, Pow2;
    DistStep(d' - 1);
    if d < d' - 1 {
      DistApart(d, d' - 1);
    }
  }

  ghost predicate DistanceOf(d: nat, f: nat, dist: nat) {
    d < 30 && f < Pow2(DistExtra(d)) && DistBase(d) + f == dist
  }

  /** Each distance has one code and extra bits, and lies within 32768 bytes. */
  lemma DistanceUnique(dist: nat, d: nat, f: nat, d': nat, f': nat)
    requires DistanceOf(d, f, dist) && DistanceOf(d', f', dist)
    ensures 1 <= dist <= 32768 && d == d' && f == f'
  {
    hide DistBase, DistExtra, Pow2;
    BackEnds(d);
    DistPositive(d);
    if d < d' {
      DistApart(d, d');
    } else if d' < d {
      DistApart(d', d);
    }
  }

  // ----- matches

  /** A byte of a match is the one so many places back, or 0 from before the output. */
  lemma {:induction false} CopyByte(out: seq<byte>, dist: nat, len: nat, i: nat)
    requires dist > 0 && |out| <= i < |out| + len
    ensures var r := CopyMatch(out, dist, len); r[i] == if i >= dist then r[i - dist] else 0
    decreases len
  {
    var more := out + [History(out, |out| - dist)];
    if i > |out| {
      CopyByte(more, dist, len - 1, i);
    } else {
      var r := CopyMatch(out, dist, len);
      assert more <= r;
      assert r[i] == more[i] == History(out, |out| - dist);
      if i >= dist {
        assert r[i - dist] == more[i - dist] == out[i - dist];
      }
    }
  }

  /** `len` bytes more, each the one `dist` places back in the whole, or 0 where that is before it. */
  ghost predicate Repeats(out: seq<byte>, r: seq<byte>, len: nat, dist: nat)
    requires dist > 0
  {
    && out <= r && |r| == |out| + len
    && (forall i: nat :: |out| <= i < |r| && i >= dist ==> r[i] == r[i - dist])
    && (forall i: nat :: |out| <= i < |r| && i < dist ==> r[i] == 0)
  }

  /** What a match stands for. */
  lemma MatchMeans(t: Token, len: nat, dist: nat, out: seq<byte>)
    requires t.Match? && LengthOf(t.s, t.e, len) && DistanceOf(t.d, t.f, dist)
    ensures dist > 0 && Repeats(out, Expand(t, out), len, dist)
  {
    hide LengthBase, LengthExtra, DistBase, DistExtra, Pow2, CopyMatch;
    DistPositive(t.d);
    var r := CopyMatch(out, dist, len);
    forall i: nat | |out| <= i < |r|
      ensures i >= dist ==> r[i] == r[i - dist]
      ensures i < dist ==> r[i] == 0
    {
      CopyByte(out, dist, len, i);
    }
    assert Expand(t, out) == r;
  }

  /** There is such a match for every length and distance of the format. */
  lemma MatchExists(len: nat, dist: nat) returns (t: Token)
    requires 3 <= len <= 258 && 1 <= dist <= 32768
    ensures t.Match? && LengthOf(t.s, t.e, len) && DistanceOf(t.d, t.f, dist)
  {
    hide LengthBase, LengthExtra, DistBase, DistExtra, Pow2;
    var s, e := LengthCoded(len);
    var d, f := DistCoded(dist);
    t := Match(s, e, d, f);
  }

  // ----- code lengths

  /** The border order: the repeat codes and 0, and then from 8 outwards, up and down in turn. */
  lemma BorderOrder(i: nat)
    ensures |ORDER| == 19 && ORDER[0] == 16 && ORDER[1] == 17 && ORDER[2] == 18 && ORDER[3] == 0
    ensures i < 8 ==> ORDER[4 + 2 * i] == 8 + i
    ensures i < 7 ==> ORDER[5 + 2 * i] == 7 - i
  {
    assert i < 8 ==> i == 0 || i == 1 || i == 2 || i == 3 || i == 4 || i == 5 || i == 6 || i == 7;
  }

  /** What each code length symbol may say: a length below 16, or a run of three to six, three to ten, or 11 to 138. */
  lemma RunLengths(code: seq<nat>, st: LenStep, prev: nat)
    requires StepOk(code, st)
    ensures StepSym(st) < 16 ==> StepLens(st, prev) == [StepSym(st)]
    ensures StepSym(st) == 16 ==> 3 <= |StepLens(st, prev)| <= 6 && forall v :: v in StepLens(st, prev) ==> v == prev
    ensures StepSym(st) == 17 ==> 3 <= |StepLens(st, prev)| <= 10 && forall v :: v in StepLens(st, prev) ==> v == 0
    ensures StepSym(st) == 18 ==> 11 <= |StepLens(st, prev)| <= 138 && forall v :: v in StepLens(st, prev) ==> v == 0
  {
    hide Pow2;
    SmallPowers();
    SeventhPower();
  }

  lemma SeventhPower()
    ensures Pow2(7) == 128
  {
  }

  /** Every such run can be said. */
  lemma RunExists(n: nat, prev: nat)
    ensures 3 <= n <= 6 ==> n - 3 < Pow2(StepBits(Again(n - 3))) && |StepLens(Again(n - 3), prev)| == n
    ensures 3 <= n <= 10 ==> n - 3 < Pow2(StepBits(Zeros(n - 3))) && |StepLens(Zeros(n - 3), prev)| == n
    ensures 11 <= n <= 138 ==> n - 11 < Pow2(StepBits(ManyZeros(n - 11))) && |StepLens(ManyZeros(n - 11), prev)| == n
  {
    hide Pow2;
    SmallPowers();
    SeventhPower();
  }

  /** What is repeated is the length before. */
  lemma PrevIsLast(st: LenStep, prev: nat)
    ensures var lens := StepLens(st, prev); |lens| > 0 && NextPrev(st, prev) == lens[|lens| - 1]
  {
  }

  /** The two sets are the one list, the literals first. */
  lemma SetsInOrder(h: Preamble)
    requires HeaderOk(h)
    ensures |LitOf(h)| == h.nl && LitOf(h) + DistOf(h) == AllLens(h.steps, 0)
  {
    hide AllLens, SetCode, StepsOk, CodeOk;
  }

  // ----- stored blocks

  /** The length of a stored block begins at the next byte. */
  lemma PadsToByte(pos: nat)
    ensures PadBits(pos) < 8 && (pos + PadBits(pos)) % 8 == 0
  {
  }
}
