/**
 The first half of huft_build (inflate.c:314-374): counting the lengths, bounding the look-up bits, filling the
 set out with unused codes, and sorting the symbols by length. Local C arrays are sequence variables; an array
 element the program has not written is None.
 */
module HuftSetup {
  import opened Bits
  import opened Huffman
  import opened Wrappers

  /** inflate.c:314-322 */
  method CountLengths(b: seq<nat>) returns (c: seq<nat>)
    requires ValidLengths(b)
    ensures c == Counts(b)
  {
    c := seq(BMAX + 1, _ => 0);
    var i := 0;
    while i < |b|
      invariant i <= |b| && |c| == BMAX + 1
      invariant forall k :: 0 <= k <= BMAX ==> c[k] == Count(b[..i], k)
    {
      forall k | 0 <= k <= BMAX
        ensures Count(b[..i + 1], k) == Count(b[..i], k) + (if b[i] == k then 1 else 0)
      {
        CountStep(b, i, k);
      }
      c := c[b[i] := c[b[i]] + 1];
      i := i + 1;
    }
    assert b[..i] == b;
  }

  ghost predicate Shortest(c: seq<nat>, j: nat) {
    |c| == BMAX + 1 && 0 < j <= BMAX && c[j] > 0 && forall k :: 0 < k < j ==> c[k] == 0
  }

  ghost predicate Longest(c: seq<nat>, g: nat) {
    |c| == BMAX + 1 && 0 < g <= BMAX && c[g] > 0 && forall k :: g < k <= BMAX ==> c[k] == 0
  }

  lemma ExtremeLengths(lens: seq<nat>, j: nat, g: nat)
    requires ValidLengths(lens) && Shortest(Counts(lens), j) && Longest(Counts(lens), g)
    ensures j == MinLen(lens) && g == MaxLen(lens)
  {
    var c, j', g' := Counts(lens), MinLen(lens), MaxLen(lens);
    CountZero(lens, j);
    CountZero(lens, g);
    CountZero(lens, j');
    CountZero(lens, g');
    assert c[j] == Count(lens, j) && c[g] == Count(lens, g) && c[j'] == Count(lens, j') && c[g'] == Count(lens, g');
  }

  /** The counts with the unused patterns added at the greatest length. */
  function FullCounts(lens: seq<nat>): seq<nat>
    requires ValidLengths(lens) && Used(Counts(lens), MaxLen(lens)) <= Pow2(MaxLen(lens))
  {
    var c, g := Counts(lens), MaxLen(lens);
    c[g := c[g] + (Pow2(g) - Used(c, g))]
  }

  /** The look-up bits asked for, raised to the shortest code and cut to the longest. */
  function Clamp(m: nat, j: nat, g: nat): nat {
    var l := if m < j then j else m;
    if l > g then g else l
  }

  /** inflate.c:332-346 */
  method LengthBounds(c: seq<nat>, m: nat) returns (j: nat, g: nat, l: nat)
    requires |c| == BMAX + 1 && exists k :: 0 < k <= BMAX && c[k] > 0
    ensures Shortest(c, j) && Longest(c, g) && j <= g && l == Clamp(m, j, g)
  {
    l := m;
    j := 1;
    while j <= BMAX && c[j] == 0
      invariant 1 <= j <= BMAX + 1
      invariant forall k :: 0 < k < j ==> c[k] == 0
    {
      j := j + 1;
    }
    if l < j {
      l := j;
    }
    var i := BMAX;
    while i > 0 && c[i] == 0
      invariant 0 <= i <= BMAX
      invariant forall k :: i < k <= BMAX ==> c[k] == 0
    {
      i := i - 1;
    }
    g := i;
    if l > i {
      l := i;
    }
  }

  /** More codes than patterns at one length stay so at every greater length. */
  lemma {:induction false} OverfullStays(c: seq<nat>, k: nat, k': nat)
    requires k <= k' < |c|
    ensures Used(c, k) > Pow2(k) ==> Used(c, k') > Pow2(k')
    decreases k'
  {
    if k < k' {
      OverfullStays(c, k, k' - 1);
    }
  }

  lemma {:induction false} UsedBelow(c: seq<nat>, j: nat, k: nat)
    requires Shortest(c, j) && k < j
    ensures Used(c, k) == 0
  {
    if k != 0 {
      UsedBelow(c, j, k - 1);
    }
  }

  /** Beyond the longest code the used share no longer changes. */
  lemma {:induction false} UsedBeyond(c: seq<nat>, g: nat, k: nat)
    requires Longest(c, g) && g <= k <= BMAX
    ensures Used(c, k) == Shl(Used(c, g), k - g)
    decreases k
  {
    if k > g {
      UsedBeyond(c, g, k - 1);
    }
  }

  /** inflate.c:350-356: the unused patterns at the greatest length become dummy codes, unless there are too few. */
  method FillOut(c: seq<nat>, j0: nat, g: nat) returns (over: bool, y: int, full: seq<nat>)
    requires Shortest(c, j0) && Longest(c, g) && j0 <= g
    ensures over <==> Used(c, BMAX) > Pow2(BMAX)
    ensures !over ==> y >= 0 && full == c[g := c[g] + y] && Used(c, g) + y == Pow2(g)
    ensures !over ==> (y == 0 <==> Used(c, BMAX) == Pow2(BMAX))
  {
    hide Shl, Used, Pow2;
    UsedBelow(c, j0, j0 - 1);
    var j := j0;
    y := Pow2(j);
    full := c;
    while j < g
      invariant j0 <= j <= g
      invariant y == Pow2(j) - 2 * Used(c, j - 1)
    {
      NextLength(c, j);
      y := y - c[j];
      if y < 0 {
        OverfullStays(c, j, BMAX);
        return true, y, full;
      }
      j, y := j + 1, 2 * y;
    }
    NextLength(c, g);
    y := y - c[g];
    if y < 0 {
      OverfullStays(c, g, BMAX);
      return true, y, full;
    }
    over, full := false, c[g := c[g] + y];
    ShareAtEnd(c, g);
  }

  lemma NextLength(c: seq<nat>, j: nat)
    requires 0 < j < |c|
    ensures Used(c, j) == 2 * Used(c, j - 1) + c[j] && Pow2(j + 1) == 2 * Pow2(j)
  {
  }

  lemma ShareAtEnd(c: seq<nat>, g: nat)
    requires Longest(c, g)
    ensures Used(c, BMAX) < Pow2(BMAX) <==> Used(c, g) < Pow2(g)
    ensures Used(c, BMAX) == Pow2(BMAX) <==> Used(c, g) == Pow2(g)
  {
    hide Shl, Pow2, Used;
    UsedBeyond(c, g, BMAX);
    ShlPow2(g, BMAX - g);
    ShlMono(Used(c, g), Pow2(g), BMAX - g);
    ShlMono(Pow2(g), Used(c, g), BMAX - g);
  }

  lemma FilledCompletes(lens: seq<nat>, c: seq<nat>, g: nat, y: nat)
    requires c == Counts(lens) && Longest(c, g) && Used(c, g) + y == Pow2(g)
    ensures Completes(lens, c[g := c[g] + y], g)
  {
    UsedUnchanged(c, c[g := c[g] + y], g, g - 1);
  }

  lemma {:induction false} UsedUnchanged(c: seq<nat>, d: seq<nat>, g: nat, k: nat)
    requires |c| == |d| == BMAX + 1 && k < g <= BMAX && forall i :: 0 <= i < g ==> c[i] == d[i]
    ensures Used(c, k) == Used(d, k)
  {
    if k != 0 {
      UsedUnchanged(c, d, g, k - 1);
    }
  }

  /** Where v[] keeps the `r`-th symbol whose code has `k` bits. */
  function Slot(b: seq<nat>, k: nat, r: nat): nat
    requires k <= BMAX
  {
    Start(Counts(b), k) + r
  }

  /** v[] lists the symbols by length and, within one length, in order; the rest of v[] is unwritten. */
  ghost predicate Sorted(lens: seq<nat>, v: seq<Option<nat>>) {
    var c := Counts(lens);
    && |v| == N_MAX
    && (forall k: nat, r: nat :: 0 < k <= BMAX && r < Count(lens, k) ==>
          Slot(lens, k, r) < |lens| <= N_MAX && v[Slot(lens, k, r)] == Some(SymAt(lens, k, r)))
    && (forall i :: Start(c, BMAX + 1) <= i < N_MAX ==> v[i] == None)
  }

  /** Slots of v[] for different codes are different. */
  lemma StartDisjoint(c: seq<nat>, k: nat, r: nat, k': nat, r': nat)
    requires |c| == BMAX + 1 && 0 < k <= BMAX && 0 < k' <= BMAX && r < c[k] && r' < c[k']
    ensures Start(c, k) + r == Start(c, k') + r' ==> k == k' && r == r'
    ensures Start(c, k) + r < Start(c, BMAX + 1)
  {
    StartMono(c, k, BMAX + 1);
    if k < k' {
      StartMono(c, k, k');
    } else if k' < k {
      StartMono(c, k', k);
    }
  }

  /** inflate.c:360-366, with the counts before or after filling out: only shorter lengths are summed. */
  method Offsets(c: seq<nat>, g: nat) returns (x: seq<nat>)
    requires |c| == BMAX + 1 && 0 < g <= BMAX
    ensures |x| == BMAX + 1 && forall k :: 0 < k <= g ==> x[k] == Start(c, k)
  {
    x := seq(BMAX + 1, _ => 0);
    var j, i, xp := 0, g, 2;
    while i > 1
      invariant 1 <= i <= g && xp == g - i + 2
      invariant |x| == BMAX + 1 && j == Start(c, xp - 1)
      invariant forall k :: 0 < k < xp ==> x[k] == Start(c, k)
    {
      j := j + c[xp - 1];
      x := x[xp := j];
      i, xp := i - 1, xp + 1;
    }
  }

  lemma {:induction false} StartSame(c: seq<nat>, d: seq<nat>, g: nat, k: nat)
    requires |c| == |d| == BMAX + 1 && k <= g <= BMAX && forall i :: 0 < i < g ==> c[i] == d[i]
    ensures Start(c, k) == Start(d, k)
  {
    if k > 1 {
      StartSame(c, d, g, k - 1);
    }
  }

  /** The symbols of the prefix `pre` of `b` are in place. */
  ghost predicate SortedUpTo(b: seq<nat>, pre: seq<nat>, v: seq<Option<nat>>) {
    && |v| == N_MAX
    && (forall k: nat, r: nat :: 0 < k <= BMAX && r < Count(pre, k) ==>
          Slot(b, k, r) < |b| <= N_MAX && v[Slot(b, k, r)] == Some(SymAt(pre, k, r)))
    && (forall n :: Start(Counts(b), BMAX + 1) <= n < N_MAX ==> v[n] == None)
  }

  /** inflate.c:369-374 */
  method SortSymbols(b: seq<nat>, g: nat, x0: seq<nat>) returns (v: seq<Option<nat>>)
    requires ValidLengths(b) && Longest(Counts(b), g)
    requires |x0| == BMAX + 1 && forall k :: 0 < k <= g ==> x0[k] == Start(Counts(b), k)
    ensures Sorted(b, v)
  {
    hide Start, SymAt, Sorted, SortedUpTo, Slot;
    var x := x0;
    v := seq(N_MAX, _ => None);
    SortNone(b, v);
    var i := 0;
    while i < |b|
      invariant i <= |b| && |x| == BMAX + 1 && |v| == N_MAX && SortedUpTo(b, b[..i], v)
      invariant forall k :: 0 < k <= g ==> x[k] == Start(Counts(b), k) + Count(b[..i], k)
    {
      ghost var v0, x0 := v, x;
      SortStep(b, g, i, v);
      var j := b[i];
      if j != 0 {
        v := v[x[j] := Some(i)];
        x := x[j := x[j] + 1];
      }
      forall k | 0 < k <= g
        ensures x[k] == Start(Counts(b), k) + Count(b[..i + 1], k)
      {
        CountStep(b, i, k);
      }
      i := i + 1;
    }
    assert b[..i] == b;
    SortAll(b, v);
  }

  lemma SortNone(b: seq<nat>, v: seq<Option<nat>>)
    requires |v| == N_MAX && forall n :: 0 <= n < N_MAX ==> v[n] == None
    ensures SortedUpTo(b, b[..0], v)
  {
  }

  lemma SortAll(b: seq<nat>, v: seq<Option<nat>>)
    requires ValidLengths(b) && SortedUpTo(b, b, v)
    ensures Sorted(b, v)
  {
  }

  lemma SortStep(b: seq<nat>, g: nat, i: nat, v: seq<Option<nat>>)
    requires ValidLengths(b) && Longest(Counts(b), g) && i < |b| && SortedUpTo(b, b[..i], v)
    ensures b[i] == 0 ==> SortedUpTo(b, b[..i + 1], v)
    ensures b[i] != 0 ==>
      var n := Start(Counts(b), b[i]) + Count(b[..i], b[i]);
      b[i] <= g && n < N_MAX && SortedUpTo(b, b[..i + 1], v[n := Some(i)])
  {
    var w := v;
    if b[i] != 0 {
      PlaceSymbol(b, g, i);
      w := v[Start(Counts(b), b[i]) + Count(b[..i], b[i]) := Some(i)];
    }
    var pre := b[..i + 1];
    forall k: nat, r: nat | 0 < k <= BMAX && r < Count(pre, k)
      ensures Slot(b, k, r) < |b| && w[Slot(b, k, r)] == Some(SymAt(pre, k, r))
    {
      PlaceOther(b, i, k, r);
      if !(k == b[i] && r == Count(b[..i], k)) {
        assert v[Slot(b, k, r)] == Some(SymAt(b[..i], k, r));
      }
    }
    assert SortedUpTo(b, pre, w);
  }

  lemma PlaceSymbol(b: seq<nat>, g: nat, i: nat)
    requires ValidLengths(b) && Longest(Counts(b), g) && i < |b| && b[i] != 0
    ensures b[i] <= g && Count(b[..i], b[i]) < Count(b, b[i])
    ensures Start(Counts(b), b[i]) + Count(b[..i], b[i]) < Start(Counts(b), BMAX + 1) <= |b|
  {
    RankBound(b, i);
    CountsTotal(b);
    StartDisjoint(Counts(b), b[i], Rank(b, i), b[i], Rank(b, i));
  }

  lemma PlaceOther(b: seq<nat>, i: nat, k: nat, r: nat)
    requires ValidLengths(b) && i < |b| && 0 < k <= BMAX && r < Count(b[..i + 1], k)
    ensures r < Count(b, k) && Start(Counts(b), k) + r < |b|
    ensures k == b[i] && r == Count(b[..i], k) ==> SymAt(b[..i + 1], k, r) == i
    ensures !(k == b[i] && r == Count(b[..i], k)) ==>
      r < Count(b[..i], k) && SymAt(b[..i + 1], k, r) == SymAt(b[..i], k, r)
    ensures !(k == b[i] && r == Count(b[..i], k)) && b[i] != 0 ==>
      Start(Counts(b), k) + r != Start(Counts(b), b[i]) + Count(b[..i], b[i])
  {
    CountStep(b, i, k);
    CountPrefix(b, i + 1, k);
    CountsTotal(b);
    StartDisjoint(Counts(b), k, r, k, r);
    assert b[..i + 1][..i] == b[..i];
    if b[i] != 0 {
      RankBound(b, i);
      StartDisjoint(Counts(b), k, r, b[i], Rank(b, i));
    }
  }
}
