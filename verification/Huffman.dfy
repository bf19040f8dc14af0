/**
 Canonical Huffman codes as RFC 1951 section 3.2.2 defines them from a list of code lengths, and what it means
 for a bit stream to start with one. A stream is a number whose lowest bit is the next bit.
 */
module Huffman {
  import opened Bits

  const BMAX: nat := 16   // longest code length
  const N_MAX: nat := 288 // most symbols in one set

  ghost predicate ValidLengths(lens: seq<nat>) {
    1 <= |lens| <= N_MAX && forall s :: 0 <= s < |lens| ==> lens[s] <= BMAX
  }

  /** How many symbols have a code of length `k`. */
  function Count(lens: seq<nat>, k: nat): (n: nat)
    ensures n <= |lens|
  {
    if |lens| == 0 then 0
    else Count(lens[..|lens| - 1], k) + (if lens[|lens| - 1] == k then 1 else 0)
  }

  /** The smallest code of length `k`: step 2 of RFC 1951 section 3.2.2, where bl_count[0] is taken as 0. */
  function FirstCode(lens: seq<nat>, k: nat): nat {
    if k == 0 then 0 else 2 * (FirstCode(lens, k - 1) + (if k == 1 then 0 else Count(lens, k - 1)))
  }

  /** Among the symbols with the same code length, how many come before `s`. */
  function Rank(lens: seq<nat>, s: nat): nat
    requires s < |lens|
  {
    Count(lens[..s], lens[s])
  }

  /** Step 3 of RFC 1951 section 3.2.2: consecutive values for consecutive symbols of one length. */
  function CodeOf(lens: seq<nat>, s: nat): nat
    requires s < |lens|
  {
    FirstCode(lens, lens[s]) + Rank(lens, s)
  }

  /** The stream `x` starts with the code of `s`; codes are packed most significant bit first (section 3.1.1). */
  ghost predicate Matches(lens: seq<nat>, s: nat, x: nat) {
    s < |lens| && lens[s] > 0 && Rev(lens[s], x) == CodeOf(lens, s)
  }

  datatype Symbol = Sym(sym: nat) | NoCode | Undefined

  /**
   The symbol whose code `x` starts with. When there is none, the answer is an invalid code if every symbol has
   a code; otherwise the C program looks at values it never wrote (inflate.c:452 compares with the number of
   symbols, not of codes), and nothing is said.
   */
  ghost function DecodeSym(lens: seq<nat>, x: nat): Symbol {
    if exists s :: Matches(lens, s, x) then
      var s :| Matches(lens, s, x); Sym(s)
    else if 0 in lens then Undefined
    else NoCode
  }

  /** The greatest code length. */
  function MaxLen(lens: seq<nat>): (g: nat)
    ensures forall s :: 0 <= s < |lens| ==> lens[s] <= g
    ensures g == 0 || g in lens
  {
    if |lens| == 0 then 0
    else
      var last, rest := lens[|lens| - 1], MaxLen(lens[..|lens| - 1]);
      if last > rest then last else rest
  }

  /** The least code length of a symbol that has a code. */
  function MinLen(lens: seq<nat>): (j: nat)
    ensures forall s :: 0 <= s < |lens| && lens[s] != 0 ==> 0 < j <= lens[s]
    ensures j == 0 || j in lens
  {
    if |lens| == 0 then 0
    else
      var last, rest := lens[|lens| - 1], MinLen(lens[..|lens| - 1]);
      if last != 0 && (rest == 0 || last < rest) then last else rest
  }

  // ----- code space, on the counts c[1..16]

  /** How many of the k-bit patterns start with a code of at most `k` bits. */
  function Used(c: seq<nat>, k: nat): nat
    requires k < |c|
  {
    if k == 0 then 0 else 2 * Used(c, k - 1) + c[k]
  }

  /** The number of codes shorter than `k`. */
  function Start(c: seq<nat>, k: nat): nat
    requires k <= |c|
  {
    if k <= 1 then 0 else Start(c, k - 1) + c[k - 1]
  }

  function Counts(lens: seq<nat>): (c: seq<nat>)
    ensures |c| == BMAX + 1
    ensures forall k :: 0 <= k <= BMAX ==> c[k] == Count(lens, k)
  {
    seq(BMAX + 1, k requires 0 <= k => Count(lens, k))
  }

  lemma {:induction false} FirstCodeIsUsed(lens: seq<nat>, k: nat)
    requires 0 < k <= BMAX
    ensures FirstCode(lens, k) == 2 * Used(Counts(lens), k - 1)
  {
    if k > 1 {
      FirstCodeIsUsed(lens, k - 1);
    }
  }

  lemma {:induction false} CountPrefix(lens: seq<nat>, s: nat, k: nat)
    requires s <= |lens|
    ensures Count(lens[..s], k) <= Count(lens, k)
    decreases |lens|
  {
    if s < |lens| {
      assert lens[..|lens| - 1][..s] == lens[..s];
      CountPrefix(lens[..|lens| - 1], s, k);
    } else {
      assert lens[..s] == lens;
    }
  }

  lemma CountStep(lens: seq<nat>, s: nat, k: nat)
    requires s < |lens|
    ensures Count(lens[..s + 1], k) == Count(lens[..s], k) + (if lens[s] == k then 1 else 0)
  {
    assert lens[..s + 1][..s] == lens[..s];
  }

  lemma RankBound(lens: seq<nat>, s: nat)
    requires s < |lens|
    ensures Rank(lens, s) < Count(lens, lens[s])
  {
    CountStep(lens, s, lens[s]);
    CountPrefix(lens, s + 1, lens[s]);
  }

  /** The `r`-th symbol with a code of length `k`. */
  function SymAt(lens: seq<nat>, k: nat, r: nat): (s: nat)
    requires r < Count(lens, k)
    ensures s < |lens| && lens[s] == k && Rank(lens, s) == r
  {
    var last := |lens| - 1;
    if lens[last] == k && Count(lens[..last], k) == r then last
    else
      var s := SymAt(lens[..last], k, r);
      assert lens[..last][..s] == lens[..s];
      s
  }

  lemma RankUnique(lens: seq<nat>, s: nat, s': nat)
    requires s < |lens| && s' < |lens| && lens[s] == lens[s'] && Rank(lens, s) == Rank(lens, s')
    ensures s == s'
  {
    if s < s' {
      RankOrder(lens, s, s');
    } else if s' < s {
      RankOrder(lens, s', s);
    }
  }

  lemma RankOrder(lens: seq<nat>, s: nat, s': nat)
    requires s < s' < |lens| && lens[s] == lens[s']
    ensures Rank(lens, s) < Rank(lens, s')
  {
    CountStep(lens, s, lens[s]);
    assert lens[..s'][..s + 1] == lens[..s + 1];
    CountPrefix(lens[..s'], s + 1, lens[s]);
  }

  // ----- positions: where a code sits when every stream is cut to its first `SCALE` bits

  const SCALE: nat := 32

  /** The position of the `r`-th code of length `k`. */
  function Pos(c: seq<nat>, k: nat, r: nat): nat
    requires 0 < k < |c| && k <= SCALE
  {
    Shl(2 * Used(c, k - 1) + r, SCALE - k)
  }

  /** Where the codes of at most `n` bits end. */
  function End(c: seq<nat>, n: nat): nat
    requires n < |c| && n <= SCALE
  {
    Shl(Used(c, n), SCALE - n)
  }

  /** Codes of one length sit side by side, and the next length continues where they end. */
  lemma PosStep(c: seq<nat>, k: nat, r: nat)
    requires 0 < k < |c| && k <= SCALE
    ensures Pos(c, k, r + 1) == Pos(c, k, r) + Pow2(SCALE - k)
    ensures k + 1 < |c| && k < SCALE ==> Pos(c, k + 1, 0) == Pos(c, k, c[k])
  {
    hide Shl, Pow2;
    ShlAdd(2 * Used(c, k - 1) + r, 1, SCALE - k);
    ShlOne(SCALE - k);
    if k + 1 < |c| && k < SCALE {
      var u := Used(c, k);
      Doubled(u, SCALE - k - 1);
    }
  }

  lemma PosMono(c: seq<nat>, k: nat, r: nat, r': nat)
    requires 0 < k < |c| && k <= SCALE && r <= r'
    ensures Pos(c, k, r) <= Pos(c, k, r')
    ensures r < r' ==> Pos(c, k, r) + Pow2(SCALE - k) <= Pos(c, k, r')
  {
    hide Shl, Pow2, Used;
    ShlMono(2 * Used(c, k - 1) + r, 2 * Used(c, k - 1) + r', SCALE - k);
    if r < r' {
      PosStep(c, k, r);
      ShlMono(2 * Used(c, k - 1) + r + 1, 2 * Used(c, k - 1) + r', SCALE - k);
    }
  }

  /** Longer codes come later. */
  lemma {:induction false} PosOrder(c: seq<nat>, k: nat, r: nat, k': nat, r': nat)
    requires 0 < k < k' < |c| && k' <= SCALE && r < c[k]
    ensures Pos(c, k, r) + Pow2(SCALE - k) <= Pos(c, k', r')
    decreases k'
  {
    PosMono(c, k', 0, r');
    PosStep(c, k' - 1, 0);
    if k == k' - 1 {
      PosMono(c, k, r, c[k]);
    } else {
      PosOrder(c, k, r, k' - 1, c[k' - 1]);
    }
  }

  /** The position `p` lies under the `r`-th code of length `k`. */
  ghost predicate Under(c: seq<nat>, k: nat, r: nat, p: nat)
    requires |c| == BMAX + 1
  {
    0 < k <= BMAX && r < c[k] && Pos(c, k, r) <= p < Pos(c, k, r) + Pow2(SCALE - k)
  }

  /** No position lies under two codes: the code is prefix-free. */
  lemma UnderUnique(c: seq<nat>, k: nat, r: nat, k': nat, r': nat, p: nat)
    requires |c| == BMAX + 1 && Under(c, k, r, p) && Under(c, k', r', p)
    ensures k == k' && r == r'
  {
    if k < k' {
      PosOrder(c, k, r, k', r');
    } else if k' < k {
      PosOrder(c, k', r', k, r);
    } else if r < r' {
      PosMono(c, k, r, r');
    } else if r' < r {
      PosMono(c, k, r', r);
    }
  }

  /** Every position before the end of the `g`-bit codes lies under some code. */
  lemma {:induction false} UnderSome(c: seq<nat>, g: nat, p: nat) returns (k: nat, r: nat)
    requires |c| == BMAX + 1 && 0 < g <= BMAX && p < Pos(c, g, c[g])
    ensures k <= g && Under(c, k, r, p)
    decreases g
  {
    if p < Pos(c, g, 0) {
      if g == 1 {
        ShlOne(SCALE - 1);
        assert false;
      } else {
        PosStep(c, g - 1, 0);
        k, r := UnderSome(c, g - 1, p);
      }
    } else {
      k := g;
      r := UnderWithin(c, g, c[g], p);
    }
  }

  lemma {:induction false} UnderWithin(c: seq<nat>, k: nat, n: nat, p: nat) returns (r: nat)
    requires |c| == BMAX + 1 && 0 < k <= BMAX && n <= c[k] && Pos(c, k, 0) <= p < Pos(c, k, n)
    ensures Under(c, k, r, p)
  {
    hide Shl, Pow2, Used;
    r := n - 1;
    PosStep(c, k, r);
    if p < Pos(c, k, r) {
      r := UnderWithin(c, k, r, p);
    }
  }

  /** A stream lies under a code exactly when it starts with that code's bits. */
  lemma UnderPrefix(c: seq<nat>, k: nat, r: nat, x: nat)
    requires |c| == BMAX + 1 && 0 < k <= BMAX && r < c[k]
    ensures Under(c, k, r, Rev(SCALE, x)) <==> Rev(k, x) == 2 * Used(c, k - 1) + r
  {
    hide Shl, Rev, Low, Shr, Pow2, Used;
    var code, z := 2 * Used(c, k - 1) + r, SCALE - k;
    RevPrefix(k, z, x);
    var v := Rev(k, x);
    ShlAdd(code, 1, z);
    ShlOne(z);
    assert Under(c, k, r, Rev(SCALE, x)) <==> Shl(code, z) <= Rev(SCALE, x) < Shl(code + 1, z);
    ShlMono(v, code + 1, z);
    ShlMono(code, v + 1, z);
    ShlMono(code + 1, v, z);
    ShlMono(v + 1, code, z);
  }

  // ----- completing a set of counts, and the link to symbols

  /** The counts with `y` unused codes added at the greatest length, so that no pattern is left over. */
  ghost predicate Completes(lens: seq<nat>, c: seq<nat>, g: nat) {
    && |c| == BMAX + 1
    && 0 < g <= BMAX
    && (forall k :: 1 <= k <= BMAX && k != g ==> c[k] == Count(lens, k))
    && 0 < Count(lens, g) <= c[g]
    && (forall k :: g < k <= BMAX ==> c[k] == 0)
    && Used(c, g) == Pow2(g)
  }

  lemma {:induction false} UsedSame(lens: seq<nat>, c: seq<nat>, g: nat, k: nat)
    requires Completes(lens, c, g) && k < g
    ensures Used(c, k) == Used(Counts(lens), k)
  {
    if k != 0 {
      UsedSame(lens, c, g, k - 1);
    }
  }

  lemma CompleteEnd(lens: seq<nat>, c: seq<nat>, g: nat)
    requires Completes(lens, c, g)
    ensures Pos(c, g, c[g]) == Pow2(SCALE)
  {
    hide Shl, Pow2;
    ShlPow2(g, SCALE - g);
  }

  /** A symbol's code is the code at its length and rank. */
  lemma SymUnder(lens: seq<nat>, c: seq<nat>, g: nat, s: nat, x: nat)
    requires Completes(lens, c, g) && ValidLengths(lens) && s < |lens| && lens[s] > 0
    ensures lens[s] <= g && Rank(lens, s) < Count(lens, lens[s]) <= c[lens[s]]
    ensures Matches(lens, s, x) <==> Under(c, lens[s], Rank(lens, s), Rev(SCALE, x))
  {
    var k := lens[s];
    RankBound(lens, s);
    assert k <= BMAX;
    if k > g {
      assert false;
    }
    UsedSame(lens, c, g, k - 1);
    FirstCodeIsUsed(lens, k);
    UnderPrefix(c, k, Rank(lens, s), x);
  }

  /** The code set is prefix-free: a stream starts with at most one symbol's code. */
  lemma MatchUnique(lens: seq<nat>, c: seq<nat>, g: nat, s: nat, s': nat, x: nat)
    requires Completes(lens, c, g) && ValidLengths(lens) && Matches(lens, s, x) && Matches(lens, s', x)
    ensures s == s'
  {
    SymUnder(lens, c, g, s, x);
    SymUnder(lens, c, g, s', x);
    UnderUnique(c, lens[s], Rank(lens, s), lens[s'], Rank(lens, s'), Rev(SCALE, x));
    RankUnique(lens, s, s');
  }

  /** What a stream under the `r`-th code of length `k` decodes to. */
  lemma DecodeUnder(lens: seq<nat>, c: seq<nat>, g: nat, k: nat, r: nat, x: nat)
    requires Completes(lens, c, g) && ValidLengths(lens) && Under(c, k, r, Rev(SCALE, x))
    ensures r < Count(lens, k) ==> DecodeSym(lens, x) == Sym(SymAt(lens, k, r))
    ensures r >= Count(lens, k) ==> DecodeSym(lens, x) == if 0 in lens then Undefined else NoCode
  {
    if r < Count(lens, k) {
      var s := SymAt(lens, k, r);
      SymUnder(lens, c, g, s, x);
      assert Matches(lens, s, x);
      var s' :| Matches(lens, s', x) && DecodeSym(lens, x) == Sym(s');
      MatchUnique(lens, c, g, s, s', x);
    } else if s: nat :| Matches(lens, s, x) {
      SymUnder(lens, c, g, s, x);
      UnderUnique(c, k, r, lens[s], Rank(lens, s), Rev(SCALE, x));
      assert false;
    }
  }

  // ----- the Kraft sum

  /** The Kraft sum of the set in units of 2^-16: what share of all streams starts with some code. */
  function KraftSum(lens: seq<nat>): nat
    requires forall s :: 0 <= s < |lens| ==> lens[s] <= BMAX
  {
    if |lens| == 0 then 0
    else
      var last := lens[|lens| - 1];
      KraftSum(lens[..|lens| - 1]) + (if last == 0 then 0 else Pow2(BMAX - last))
  }

  /** Adding a symbol with a code of length `a` uses up the patterns below that code. */
  lemma {:induction false} UsedAppend(lens: seq<nat>, a: nat, k: nat)
    requires a <= BMAX && k <= BMAX
    ensures Used(Counts(lens + [a]), k)
         == Used(Counts(lens), k) + (if 0 < a <= k then Pow2(k - a) else 0)
  {
    if k != 0 {
      UsedAppend(lens, a, k - 1);
      assert (lens + [a])[..|lens|] == lens;
    }
  }

  lemma {:induction false} KraftIsUsed(lens: seq<nat>)
    requires forall s :: 0 <= s < |lens| ==> lens[s] <= BMAX
    ensures KraftSum(lens) == Used(Counts(lens), BMAX)
  {
    if |lens| == 0 {
      UsedEmpty(BMAX);
    } else {
      var rest, last := lens[..|lens| - 1], lens[|lens| - 1];
      KraftIsUsed(rest);
      UsedAppend(rest, last, BMAX);
      assert rest + [last] == lens;
    }
  }

  lemma {:induction false} UsedEmpty(k: nat)
    requires k <= BMAX
    ensures Used(Counts([]), k) == 0
  {
    if k != 0 {
      UsedEmpty(k - 1);
    }
  }

  /** Every symbol has a code of some length or none. */
  lemma {:induction false} CountsTotal(lens: seq<nat>)
    requires forall s :: 0 <= s < |lens| ==> lens[s] <= BMAX
    ensures Start(Counts(lens), BMAX + 1) + Count(lens, 0) == |lens|
  {
    if |lens| == 0 {
      StartEmpty(BMAX + 1);
    } else {
      var rest, last := lens[..|lens| - 1], lens[|lens| - 1];
      CountsTotal(rest);
      StartAppend(rest, last, BMAX + 1);
      assert rest + [last] == lens;
    }
  }

  lemma {:induction false} StartEmpty(k: nat)
    requires k <= BMAX + 1
    ensures Start(Counts([]), k) == 0
  {
    if k > 1 {
      StartEmpty(k - 1);
    }
  }

  lemma {:induction false} StartAppend(lens: seq<nat>, a: nat, k: nat)
    requires k <= BMAX + 1
    ensures Start(Counts(lens + [a]), k) == Start(Counts(lens), k) + (if 0 < a < k then 1 else 0)
  {
    if k > 1 {
      StartAppend(lens, a, k - 1);
      assert (lens + [a])[..|lens|] == lens;
    }
  }

  lemma {:induction false} StartMono(c: seq<nat>, k: nat, k': nat)
    requires k <= k' <= |c|
    ensures Start(c, k) <= Start(c, k')
    ensures 0 < k < k' ==> Start(c, k) + c[k] <= Start(c, k')
    decreases k'
  {
    if k < k' {
      StartMono(c, k, k' - 1);
    }
  }

  lemma {:induction false} CountZero(lens: seq<nat>, k: nat)
    ensures Count(lens, k) == 0 <==> k !in lens
  {
    if |lens| != 0 {
      CountZero(lens[..|lens| - 1], k);
      assert lens == lens[..|lens| - 1] + [lens[|lens| - 1]];
    }
  }
}
