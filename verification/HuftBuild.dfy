/**
 huft_build's main loop (inflate.c:378-491): sizing, allocating, linking and filling the look-up tables.

 The loop is right for every set of lengths when one condition, Fits, holds, and for no other. The sizing code
 at inflate.c:406-417 adds a bit to a table whose first code already needs all the bits allowed; a link then
 fills one slot of a table that is looked up with more bits than the link's pattern has.
 */
module HuftBuild {
  import opened Bits
  import opened Huffman
  import opened HuftTables
  import opened HuftSetup
  import opened Wrappers

  /** What stays fixed during the main loop: the lengths, their coding, the filled-out counts, the longest
      length and the look-up bits. */
  datatype Job = Job(lens: seq<nat>, coding: Coding, c: seq<nat>, g: nat, l: nat)

  ghost predicate JobOk(j: Job) {
    && ValidLengths(j.lens)
    && ValidCoding(j.lens, j.coding)
    && Completes(j.lens, j.c, j.g)
    && 0 < j.l <= j.g
  }

  // ----- the condition

  /** The `r`-th code of length `k` is the first one below some table that is reached after `w` bits. */
  ghost predicate Opens(c: seq<nat>, l: nat, w: nat, k: nat, r: nat) {
    |c| == BMAX + 1 && 0 < w < k <= BMAX && r < c[k] && MultipleOf(w, l) && Low(Pos(c, k, r), SCALE - w) == 0
  }

  /** A table whose first code has `n` more bits, with `left` codes of that length to come, keeps within `l` bits. */
  ghost predicate Within(n: nat, l: nat, left: nat) {
    n < l || (n == l && left >= Pow2(l))
  }

  /** No table but the root is given more than `l` bits. */
  ghost predicate Fits(c: seq<nat>, l: nat) {
    |c| == BMAX + 1 && forall w: nat, k: nat, r: nat :: Opens(c, l, w, k, r) ==> Within(k - w, l, c[k] - r)
  }

  // ----- the size of a table

  /** The patterns of `k` bits below the table, less the `a + 1` codes, measure what follows the `k`-bit codes. */
  lemma SizingStart(c: seq<nat>, k: nat, a: nat, w: nat, m: nat)
    requires |c| == BMAX + 1 && w < k <= BMAX && a < c[k]
    requires Pos(c, k, c[k] - 1 - a) == Shl(m, SCALE - w)
    ensures Pow2(k - w) > a + 1 ==> Shl(Pow2(k - w) - (a + 1), SCALE - k) == Shl(m + 1, SCALE - w) - End(c, k)
    ensures Pow2(k - w) <= a + 1 <==> Shl(m + 1, SCALE - w) <= End(c, k)
  {
    hide Rev, Low, Shr, Pow2;
    ShlPow2(k - w, SCALE - k);
    ShlAdd(m, 1, SCALE - w);
    ShlOne(SCALE - w);
    ShlAdd(2 * Used(c, k - 1) + (c[k] - 1 - a), a + 1, SCALE - k);
    ShlMono(Pow2(k - w), a + 1, SCALE - k);
    if Pow2(k - w) > a + 1 {
      ShlSub(Pow2(k - w), a + 1, SCALE - k);
    }
  }

  lemma SizingStep(c: seq<nat>, n: nat, f: nat, hi: nat)
    requires |c| == BMAX + 1 && n < BMAX && Shl(f, SCALE - n) == hi - End(c, n)
    ensures Shl(2 * f, SCALE - n - 1) == Shl(f, SCALE - n)
    ensures 2 * f <= c[n + 1] ==> hi <= End(c, n + 1)
    ensures 2 * f > c[n + 1] ==>
      Shl(2 * f - c[n + 1], SCALE - n - 1) == hi - End(c, n + 1)
  {
    var u, z := Used(c, n), SCALE - n - 1;
    Doubled(f, z);
    Doubled(u, z);
    ShlAdd(2 * u, c[n + 1], z);
    if 2 * f <= c[n + 1] {
      ShlMono(2 * f, c[n + 1], z);
    } else {
      ShlSub(2 * f, c[n + 1], z);
    }
  }

  /** Nothing reaches past the end of the filled-out set. */
  lemma WithinWhole(j: Job, w: nat, m: nat)
    requires JobOk(j) && w <= SCALE && m < Pow2(w)
    ensures Shl(m + 1, SCALE - w) <= Pow2(SCALE)
    ensures End(j.c, j.g) == Pow2(SCALE)
  {
    hide Shl, Rev, Low, Shr, Pow2;
    ShlMono(m + 1, Pow2(w), SCALE - w);
    ShlPow2(w, SCALE - w);
    ShlPow2(j.g, SCALE - j.g);
  }

  /** inflate.c:405-419. The table starts at position Shl(m, SCALE - w). */
  method TableBits(ghost j: Job, c: seq<nat>, g: nat, l: nat, k: nat, a: nat, w: nat, ghost m: nat)
    returns (bits: nat)
    requires JobOk(j) && j.c == c && j.g == g && j.l == l
    requires w < k <= g && a < c[k]
    requires Pos(c, k, c[k] - 1 - a) == Shl(m, SCALE - w) && m < Pow2(w)
    ensures k - w <= bits && w + bits <= SCALE && (w > 0 ==> bits <= BMAX)
    ensures bits >= l || (w + bits <= BMAX && Shl(m + 1, SCALE - w) <= End(c, w + bits))
    ensures bits <= l <==> Within(k - w, l, a + 1)
    ensures k - w == l && bits > l ==> End(c, k) < Shl(m + 1, SCALE - w)
  {
    hide Shl, Rev, Low, Shr, Pow2;
    var z := if g - w > l then l else g - w;
    bits := k - w;
    var f := Pow2(bits);
    ghost var hi := Shl(m + 1, SCALE - w);
    SizingStart(c, k, a, w, m);
    SizingSpare(j, k, a, w, m);
    if f > a + 1 {
      f := f - (a + 1);
      bits := Widen(j, c, k, w, f, z, hi);
    }
  }

  /** Patterns are left over only while longer codes are to come; the longest codes fill every table. */
  lemma SizingSpare(j: Job, k: nat, a: nat, w: nat, m: nat)
    requires JobOk(j) && w < k <= j.g && a < j.c[k] && m < Pow2(w)
    requires Pos(j.c, k, j.c[k] - 1 - a) == Shl(m, SCALE - w)
    ensures Pow2(k - w) > a + 1 ==> k < j.g
    ensures Shl(m + 1, SCALE - w) <= End(j.c, j.g)
  {
    hide Shl, Rev, Low, Shr, Pow2;
    SizingStart(j.c, k, a, w, m);
    WithinWhole(j, w, m);
  }

  /** inflate.c:409-416, from the patterns `f0` left at `k` bits; `hi` is where the table ends. */
  method Widen(ghost j: Job, c: seq<nat>, k: nat, w: nat, f0: nat, z: nat, ghost hi: nat) returns (bits: nat)
    requires JobOk(j) && j.c == c && w < k < j.g && z <= j.g - w
    requires Shl(f0, SCALE - k) == hi - End(c, k)
    ensures k - w < bits && (bits <= z || bits == k - w + 1)
    ensures bits >= z || (w + bits <= BMAX && hi <= End(c, w + bits))
  {
    hide Shl, Rev, Low, Shr, Pow2;
    var f, xp := f0, k;
    bits := k - w + 1;
    while bits < z
      invariant k - w < bits && (bits <= z || bits == k - w + 1) && xp == w + bits - 1 && xp < j.g
      invariant Shl(f, SCALE - xp) == hi - End(c, xp)
    {
      SizingStep(c, xp, f, hi);
      f := 2 * f;
      xp := xp + 1;
      if f <= c[xp] {
        break;
      }
      f := f - c[xp];
      bits := bits + 1;
    }
  }

  // ----- the invariant of the main loop

  /** No table but the root is oversize so far; the top one is; or one had a link put into it, and the stream
      `x` now reads the cell `cell`, which nothing will ever write. */
  datatype Progress = AllFit | Oversize | Lost(x: nat, cell: nat)

  function Top(st: seq<Level>): Level
    requires |st| > 0
  {
    st[|st| - 1]
  }

  /** Every stream before position `p` is decoded as the code says. */
  ghost predicate Correct(heap: seq<Huft>, root: nat, j: Job, p: nat)
    requires JobOk(j)
  {
    forall x: nat :: Rev(SCALE, x) < p ==>
      Agrees(Walk(heap, root, j.l, x), j.lens, j.coding, DecodeSym(j.lens, x))
  }

  /** The condition has held for every code before position `p`. */
  ghost predicate Seen(j: Job, p: nat) {
    forall w: nat, k: nat, r: nat :: Opens(j.c, j.l, w, k, r) && Pos(j.c, k, r) < p ==>
      Within(k - w, j.l, j.c[k] - r)
  }

  ghost predicate Clean(heap: seq<Huft>, st: seq<Level>, j: Job, p: nat)
    requires JobOk(j) && |st| > 0
  {
    && (forall t :: 0 < t < |st| ==> st[t].bits <= j.l)
    && Correct(heap, st[0].base, j, p)
    && Seen(j, p)
  }

  /** The top table is oversize and has no link yet, but will need one. */
  ghost predicate Pending(st: seq<Level>, j: Job, k: nat)
    requires |j.c| == BMAX + 1 && |st| > 0
  {
    && |st| >= 2
    && Top(st).bits > j.l
    && Top(st).w <= SCALE
    && (forall t :: 0 < t < |st| - 1 ==> st[t].bits <= j.l)
    && (k > Top(st).w + j.l || (Top(st).w + j.l <= BMAX && End(j.c, Top(st).w + j.l) < Hi(Top(st))))
  }

  ghost predicate Doomed(heap: seq<Huft>, st: seq<Level>, j: Job, k: nat, x: nat, cell: nat)
    requires |st| > 0
  {
    && Walk(heap, st[0].base, j.l, x) == Stuck(cell)
    && cell < |heap| && heap[cell].Unset?
    && (forall t :: 0 <= t < |st| && st[t].base <= cell < st[t].base + Pow2(st[t].bits) ==>
          st[t].base + Pow2(j.l) <= cell && k > st[t].w + j.l)
  }

  ghost predicate Track(heap: seq<Huft>, st: seq<Level>, j: Job, k: nat, p: nat, pr: Progress)
    requires JobOk(j) && |st| > 0
  {
    match pr
    case AllFit => Clean(heap, st, j, p)
    case Oversize => !Fits(j.c, j.l) && Pending(st, j, k)
    case Lost(x, cell) => !Fits(j.c, j.l) && Doomed(heap, st, j, k, x, cell)
  }

  /** While the tables for one code are being made: `i` is the code, at position `p`. */
  ghost predicate Mid(heap: seq<Huft>, st: seq<Level>, j: Job, k: nat, i: nat, p: nat)
    requires JobOk(j)
  {
    && 0 < k <= j.g
    && StackOk(heap, st, j.l, j.c)
    && Inside(st, p)
    && (forall t :: 0 <= t < |st| - 1 ==> Blank(heap, st[t], p + 1))
    && Blank(heap, Top(st), p)
    && i < Pow2(k) && CodePos(k, i) == p
    && Top(st).w < k
    && i < Pow2(Top(st).w + j.l)
  }

  /** Between two codes: `i` is the next code. */
  ghost predicate Head(heap: seq<Huft>, st: seq<Level>, j: Job, k: nat, i: nat, p: nat)
    requires JobOk(j)
  {
    && Mid(heap, st, j, k, i, p)
    && (forall t :: 0 <= t < |st| ==> Blank(heap, st[t], p))
    && (forall t :: 0 < t < |st| ==> Lo(st[t]) < p)
  }

  lemma {:induction false} StackOrder(heap: seq<Huft>, st: seq<Level>, l: nat, c: seq<nat>, t: nat, u: nat)
    requires |c| == BMAX + 1 && StackOk(heap, st, l, c) && t < u < |st|
    ensures st[t].base + Pow2(st[t].bits) < st[u].base
    ensures st[t].w + l <= st[u].w
    decreases u
  {
    hide Shl, Rev, Low, Shr, Pow2;
    assert Linked(heap, st[u - 1], st[u], l);
    if t < u - 1 {
      StackOrder(heap, st, l, c, t, u - 1);
    }
  }

  lemma {:induction false} StackMultiple(heap: seq<Huft>, st: seq<Level>, l: nat, c: seq<nat>, t: nat)
    requires |c| == BMAX + 1 && StackOk(heap, st, l, c) && t < |st|
    ensures MultipleOf(st[t].w, l)
    decreases t
  {
    hide Shl, Rev, Low, Shr, Pow2;
    if t > 0 {
      assert Linked(heap, st[t - 1], st[t], l);
      StackMultiple(heap, st, l, c, t - 1);
    }
  }

  /** Every multiple of l up to the top table's depth is the depth of some table of the stack. */
  lemma {:induction false} StackHas(heap: seq<Huft>, st: seq<Level>, l: nat, c: seq<nat>, w: nat) returns (t: nat)
    requires |c| == BMAX + 1 && StackOk(heap, st, l, c) && MultipleOf(w, l) && w <= Top(st).w
    ensures t < |st| && st[t].w == w
    decreases w
  {
    hide Shl, Rev, Low, Shr, Pow2;
    if w == 0 {
      t := 0;
    } else {
      t := StackHas(heap, st, l, c, w - l);
      assert t < |st| - 1;
      t := t + 1;
      assert Linked(heap, st[t - 1], st[t], l);
    }
  }

  // ----- adding a table

  /** A link's slot begins exactly where the table it leads to begins. */
  lemma LinkSlot(v: Level, l: nat, i: nat)
    requires v.w + v.bits <= SCALE && l <= v.bits && i < Pow2(v.w + l)
    requires Low(i, v.w) == v.pat && v.pat < Pow2(v.w)
    ensures Shr(i, v.w) < Pow2(l) <= Pow2(v.bits)
    ensures SlotPos(v, Shr(i, v.w)) == Shl(Rev(v.w + l, i), SCALE - v.w - l)
  {
    hide Shl, Rev, Low, Shr, Pow2;
    var s, z := Shr(i, v.w), SCALE - v.w - l;
    ShrBound(i, v.w, l);
    Pow2Mono(l, v.bits);
    RevShort(l, v.bits - l, s);
    ShlShl(Rev(l, s), v.bits - l, SCALE - v.w - v.bits);
    RevSplit(v.w, l, i);
    SmallLow(v.pat, v.w);
    RevSame(v.w, i, v.pat);
    var a := Rev(v.w, v.pat);
    ShlAdd(Shl(a, l), Rev(l, s), z);
    ShlShl(a, l, z);
  }

  /** The new table for the code `i` starts where the code does. */
  lemma NewTableEdge(k: nat, w: nat, i: nat)
    requires w < k <= SCALE && i < Pow2(w)
    ensures CodePos(k, i) == Shl(Rev(w, i), SCALE - w)
    ensures Rev(w, i) < Pow2(w)
    ensures Low(CodePos(k, i), SCALE - w) == 0
  {
    hide Shl, Rev, Low, Shr, Pow2;
    RevShort(w, k - w, i);
    ShlShl(Rev(w, i), k - w, SCALE - k);
    RevBound(w, i);
    LowShrUnique(0, Rev(w, i), SCALE - w);
  }

  function Blanks(n: nat): (cells: seq<Huft>)
    ensures |cells| == n && forall j :: 0 <= j < n ==> cells[j] == Unset
  {
    seq(n, _ => Unset)
  }

  /** The heap after a new table of `bits` bits is appended and linked into slot `s` of `v`. */
  function HeapWithTable(heap: seq<Huft>, v: Level, s: nat, bits: nat, l: nat): (after: seq<Huft>)
    requires v.base + s < |heap|
    ensures |after| == |heap| + 1 + Pow2(bits)
  {
    (heap + Blanks(Pow2(bits) + 1))[v.base + s := Huft(16 + bits, l, |heap| + 1)]
  }

  /** What AddTable needs to know about the code and the top table. */
  ghost predicate CanLink(heap: seq<Huft>, st: seq<Level>, j: Job, k: nat, i: nat, p: nat)
    requires JobOk(j)
  {
    && Mid(heap, st, j, k, i, p)
    && Top(st).w + j.l < k
    && j.l <= Top(st).bits
    && Low(i, Top(st).w) == Top(st).pat
    && Shr(i, Top(st).w) < Pow2(j.l) <= Pow2(Top(st).bits)
    && SlotPos(Top(st), Shr(i, Top(st).w)) == p
    && Top(st).base + Shr(i, Top(st).w) < |heap|
    && heap[Top(st).base + Shr(i, Top(st).w)].Unset?
  }

  /** The slot for the next link is there, and not written. */
  ghost predicate LinkVacant(heap: seq<Huft>, st: seq<Level>, i: nat)
    requires st != []
  {
    Top(st).base + Shr(i, Top(st).w) < |heap| && heap[Top(st).base + Shr(i, Top(st).w)] == Unset
  }

  lemma LinkIsVacant(heap: seq<Huft>, st: seq<Level>, j: Job, k: nat, i: nat, p: nat)
    requires JobOk(j) && CanLink(heap, st, j, k, i, p)
    ensures st != [] && LinkVacant(heap, st, i)
  {
    hide Shl, Rev, Low, Shr, Pow2;
  }

  lemma LinkAllowed(heap: seq<Huft>, st: seq<Level>, j: Job, k: nat, r: nat, i: nat, p: nat)
    requires JobOk(j) && Mid(heap, st, j, k, i, p) && Top(st).w + j.l < k && r < j.c[k] && p == Pos(j.c, k, r)
    ensures CanLink(heap, st, j, k, i, p)
  {
    hide Shl, Rev, Low, Shr, Pow2;
    var v := Top(st);
    assert LevelOk(heap, v, j.l, j.c);
    SizingCovers(heap, v, j.l, j.c, k, r);
    PatternInside(v, k, i);
    LinkSlot(v, j.l, i);
    NewTableEdge(k, v.w + j.l, i);
    assert SlotPos(v, Shr(i, v.w)) == p;
  }

  lemma TableExtends(heap: seq<Huft>, v: Level, s: nat, bits: nat, l: nat)
    requires v.base + s < |heap| && heap[v.base + s].Unset?
    ensures Extends(heap, HeapWithTable(heap, v, s, bits, l))
  {
  }

  /** Links are written cells, so they survive whatever is written later. */
  lemma StackExtends(heap: seq<Huft>, after: seq<Huft>, st: seq<Level>, l: nat, c: seq<nat>)
    requires |c| == BMAX + 1 && StackOk(heap, st, l, c) && Extends(heap, after)
    ensures StackOk(after, st, l, c)
  {
    hide Shl, Rev, Low, Shr, Pow2;
    forall t | 0 <= t < |st|
      ensures LevelOk(after, st[t], l, c)
    {
      assert LevelOk(heap, st[t], l, c);
    }
    forall t | 0 < t < |st|
      ensures Linked(after, st[t - 1], st[t], l)
    {
      assert Linked(heap, st[t - 1], st[t], l);
    }
  }

  lemma StackPush(heap: seq<Huft>, st: seq<Level>, d: Level, l: nat, c: seq<nat>)
    requires |c| == BMAX + 1 && StackOk(heap, st, l, c) && LevelOk(heap, d, l, c) && Linked(heap, Top(st), d, l)
    ensures StackOk(heap, st + [d], l, c)
  {
    hide Shl, Rev, Low, Shr, Pow2;
    var st' := st + [d];
    forall t | 0 < t < |st'|
      ensures Linked(heap, st'[t - 1], st'[t], l)
    {
      if t < |st| {
        assert Linked(heap, st[t - 1], st[t], l);
      }
    }
  }

  /** The sizing result, said of the table it is for. */
  ghost predicate SizedFor(j: Job, w: nat, bits: nat, i: nat)
    requires |j.c| == BMAX + 1
  {
    && 0 < bits && w + bits <= SCALE && (w > 0 ==> bits <= BMAX)
    && (bits >= j.l || (w + bits <= BMAX && Shl(Rev(w, i), SCALE - w) + Pow2(SCALE - w) <= End(j.c, w + bits)))
  }

  lemma AddKeepsStack(heap: seq<Huft>, st: seq<Level>, j: Job, k: nat, i: nat, p: nat, bits: nat)
    requires JobOk(j) && CanLink(heap, st, j, k, i, p) && SizedFor(j, Top(st).w + j.l, bits, i)
    ensures var d := Level(|heap| + 1, bits, i, Top(st).w + j.l);
      StackOk(HeapWithTable(heap, Top(st), Shr(i, Top(st).w), bits, j.l), st + [d], j.l, j.c)
  {
    hide Shl, Rev, Low, Shr, Pow2;
    var v, w := Top(st), Top(st).w + j.l;
    var d := Level(|heap| + 1, bits, i, w);
    var heap' := HeapWithTable(heap, v, Shr(i, v.w), bits, j.l);
    assert LevelOk(heap, v, j.l, j.c);
    TableExtends(heap, v, Shr(i, v.w), bits, j.l);
    StackExtends(heap, heap', st, j.l, j.c);
    assert LevelOk(heap', d, j.l, j.c);
    assert Linked(heap', v, d, j.l);
    StackPush(heap', st, d, j.l, j.c);
  }

  lemma AddKeepsBlank(heap: seq<Huft>, st: seq<Level>, j: Job, k: nat, i: nat, p: nat, bits: nat)
    requires JobOk(j) && CanLink(heap, st, j, k, i, p) && 0 < bits && Top(st).w + j.l + bits <= SCALE
    ensures var heap' := HeapWithTable(heap, Top(st), Shr(i, Top(st).w), bits, j.l);
      && (forall t :: 0 <= t < |st| ==> Blank(heap', st[t], p + 1))
      && Blank(heap', Level(|heap| + 1, bits, i, Top(st).w + j.l), p)
  {
    hide Shl, Rev, Low, Shr, Pow2;
    var v := Top(st);
    var s := Shr(i, v.w);
    var heap' := HeapWithTable(heap, v, s, bits, j.l);
    assert LevelOk(heap, v, j.l, j.c);
    forall t | 0 <= t < |st|
      ensures Blank(heap', st[t], p + 1)
    {
      assert LevelOk(heap, st[t], j.l, j.c);
      if t < |st| - 1 {
        StackOrder(heap, st, j.l, j.c, t, |st| - 1);
        assert Blank(heap, st[t], p + 1);
      } else {
        assert Blank(heap, v, p);
      }
    }
  }

  /** One round of the table loop keeps the shape of the stack. */
  lemma AddKeepsMid(heap: seq<Huft>, st: seq<Level>, j: Job, k: nat, i: nat, p: nat, bits: nat)
    requires JobOk(j) && CanLink(heap, st, j, k, i, p) && SizedFor(j, Top(st).w + j.l, bits, i)
    ensures var d := Level(|heap| + 1, bits, i, Top(st).w + j.l);
      Mid(HeapWithTable(heap, Top(st), Shr(i, Top(st).w), bits, j.l), st + [d], j, k, i, p)
  {
    hide Shl, Rev, Low, Shr, Pow2;
    var w := Top(st).w + j.l;
    var d := Level(|heap| + 1, bits, i, w);
    AddKeepsStack(heap, st, j, k, i, p, bits);
    AddKeepsBlank(heap, st, j, k, i, p, bits);
    NewTableEdge(k, w, i);
    Pow2Mono(w, w + j.l);
    var st' := st + [d];
    InsidePush(st, d, p);
    assert Top(st') == d && st'[..|st|] == st;
    forall t | 0 <= t < |st'| - 1
      ensures st'[t] == st[t]
    {
    }
  }

  lemma InsidePush(st: seq<Level>, d: Level, p: nat)
    requires Inside(st, p) && d.w <= SCALE && Lo(d) <= p < Hi(d)
    ensures Inside(st + [d], p)
  {
    hide Shl, Rev, Low, Shr, Pow2;
    var st' := st + [d];
    forall t | 0 <= t < |st'|
      ensures st'[t].w <= SCALE && Lo(st'[t]) <= p < Hi(st'[t])
    {
      if t < |st| {
        assert st'[t] == st[t];
      }
    }
  }

  /** An oversize table loses streams with its first link: the bit beyond the link's pattern selects a blank slot. */
  lemma DoomAt(heap: seq<Huft>, st: seq<Level>, j: Job, k: nat, i: nat, p: nat, bits: nat)
    requires JobOk(j) && CanLink(heap, st, j, k, i, p) && Pending(st, j, k) && 0 < bits
    requires Top(st).w + j.l + bits <= SCALE
    ensures var v := Top(st);
      var d := Level(|heap| + 1, bits, i, v.w + j.l);
      Doomed(HeapWithTable(heap, v, Shr(i, v.w), bits, j.l), st + [d], j, k,
             i + Pow2(v.w + j.l), v.base + Shr(i, v.w) + Pow2(j.l))
  {
    hide Shl, Rev, Low, Shr, Pow2;
    var v, l := Top(st), j.l;
    var s, x := Shr(i, v.w), i + Pow2(v.w + l);
    var cell := v.base + s + Pow2(l);
    var heap' := HeapWithTable(heap, v, s, bits, l);
    assert LevelOk(heap, v, l, j.c);
    InnerFull(heap, st, j);
    StuckAt(heap, st, l, j.c, i, p, x, s + Pow2(l));
    TableExtends(heap, v, s, bits, l);
    assert heap'[cell] == heap[cell];
    StuckExtends(heap, heap', st[0].base, l, x);
    OutOfReach(heap, st, j, k, i, p, Level(|heap| + 1, bits, i, v.w + l), cell);
  }

  /** A blank slot above the links of the table that just got one: no later write reaches it. */
  lemma OutOfReach(heap: seq<Huft>, st: seq<Level>, j: Job, k: nat, i: nat, p: nat, d: Level, cell: nat)
    requires JobOk(j) && CanLink(heap, st, j, k, i, p) && d.base > |heap|
    requires Top(st).base + Pow2(j.l) <= cell < Top(st).base + Pow2(Top(st).bits)
    ensures var st' := st + [d];
      forall t :: 0 <= t < |st'| && st'[t].base <= cell < st'[t].base + Pow2(st'[t].bits) ==>
        st'[t].base + Pow2(j.l) <= cell && k > st'[t].w + j.l
  {
    hide Shl, Rev, Low, Shr, Pow2;
    var st' := st + [d];
    assert LevelOk(heap, Top(st), j.l, j.c);
    forall t | 0 <= t < |st'| && st'[t].base <= cell < st'[t].base + Pow2(st'[t].bits)
      ensures st'[t].base + Pow2(j.l) <= cell && k > st'[t].w + j.l
    {
      if t < |st| - 1 {
        StackOrder(heap, st, j.l, j.c, t, |st| - 1);
        assert false;
      } else if t == |st| {
        assert false;
      }
    }
  }

  lemma InnerFull(heap: seq<Huft>, st: seq<Level>, j: Job)
    requires JobOk(j) && StackOk(heap, st, j.l, j.c)
    requires forall t :: 0 < t < |st| - 1 ==> st[t].bits <= j.l
    ensures forall t :: 0 < t < |st| - 1 ==> st[t].bits == j.l
  {
    hide Shl, Rev, Low, Shr, Pow2;
    forall t | 0 < t < |st| - 1
      ensures st[t].bits == j.l
    {
      assert Linked(heap, st[t + 1 - 1], st[t + 1], j.l);
    }
  }

  /** The stream that follows the stack into the oversize table and then has a one reads a blank slot. */
  lemma StuckAt(heap: seq<Huft>, st: seq<Level>, l: nat, c: seq<nat>, i: nat, p: nat, x: nat, above: nat)
    requires |c| == BMAX + 1 && StackOk(heap, st, l, c) && |st| >= 2 && l < Top(st).bits
    requires forall u :: 0 < u < |st| - 1 ==> st[u].bits == l
    requires Top(st).w + Top(st).bits <= SCALE && Blank(heap, Top(st), p)
    requires i < Pow2(Top(st).w + l) && Low(i, Top(st).w) == Top(st).pat && Top(st).pat < Pow2(Top(st).w)
    requires SlotPos(Top(st), Shr(i, Top(st).w)) == p
    requires x == i + Pow2(Top(st).w + l) && above == Shr(i, Top(st).w) + Pow2(l)
    ensures above < Pow2(Top(st).bits)
    ensures Top(st).base + above < |heap| && heap[Top(st).base + above].Unset?
    ensures Walk(heap, st[0].base, l, x) == Stuck(Top(st).base + above)
  {
    hide Shl, Rev, Low, Shr, Pow2;
    assert LevelOk(heap, Top(st), l, c);
    OversizeSlot(Top(st), l, i, x, above, p);
    BlankSlot(heap, Top(st), p, above);
    StuckBelow(heap, st, l, c, x, above);
  }

  lemma StuckBelow(heap: seq<Huft>, st: seq<Level>, l: nat, c: seq<nat>, x: nat, s: nat)
    requires |c| == BMAX + 1 && |st| >= 2 && StackOk(heap, st, l, c)
    requires forall u :: 0 < u < |st| - 1 ==> st[u].bits == l
    requires Low(x, Top(st).w) == Top(st).pat && Low(Shr(x, Top(st).w), Top(st).bits) == s
    requires Top(st).base + s < |heap| && heap[Top(st).base + s].Unset?
    ensures Walk(heap, st[0].base, l, x) == Stuck(Top(st).base + s)
  {
    hide Shl, Rev, Low, Shr, Pow2;
    WalkFromRoot(heap, st, l, c, x);
    WalkBlank(heap, Top(st), x, s);
  }

  lemma BlankSlot(heap: seq<Huft>, v: Level, p: nat, s: nat)
    requires v.w + v.bits <= SCALE && Blank(heap, v, p)
    requires s < Pow2(v.bits) && SlotPos(v, s) >= p && v.base + s < |heap|
    ensures heap[v.base + s].Unset?
  {
  }

  lemma WalkBlank(heap: seq<Huft>, v: Level, x: nat, s: nat)
    requires Low(Shr(x, v.w), v.bits) == s && v.base + s < |heap| && heap[v.base + s].Unset?
    ensures Walk(heap, v.base, v.bits, Shr(x, v.w)) == Stuck(v.base + s)
  {
  }

  lemma OversizeSlot(v: Level, l: nat, i: nat, x: nat, above: nat, p: nat)
    requires v.w + v.bits <= SCALE && l < v.bits && i < Pow2(v.w + l)
    requires Low(i, v.w) == v.pat && v.pat < Pow2(v.w)
    requires x == i + Pow2(v.w + l) && above == Shr(i, v.w) + Pow2(l) && SlotPos(v, Shr(i, v.w)) == p
    ensures Low(x, v.w) == v.pat
    ensures Low(Shr(x, v.w), v.bits) == above
    ensures above < Pow2(v.bits)
    ensures SlotPos(v, above) >= p
  {
    hide Shl, Rev, Low, Shr;
    var s := Shr(i, v.w);
    ShrBound(i, v.w, l);
    HighBit(i, v.w, l);
    Pow2Mono(l + 1, v.bits);
    SmallLow(s + Pow2(l), v.bits);
    SmallLow(s, l);
    RevSetBit(v.bits, l, s);
    ShlMono(Rev(v.bits, s), Rev(v.bits, s + Pow2(l)), SCALE - v.w - v.bits);
  }

  /** Setting a bit above position `w` leaves the low `w` bits alone. */
  lemma HighBit(i: nat, w: nat, l: nat)
    ensures Low(i + Pow2(w + l), w) == Low(i, w)
    ensures Shr(i + Pow2(w + l), w) == Shr(i, w) + Pow2(l)
  {
    hide Shl, Rev, Low, Shr, Pow2;
    LowShr(i, w);
    ShlPow2(l, w);
    ShlAdd(Shr(i, w), Pow2(l), w);
    LowBound(i, w);
    LowShrUnique(Low(i, w), Shr(i, w) + Pow2(l), w);
  }

  /** The walk comes to a link and follows it. */
  ghost predicate Follows(heap: seq<Huft>, t: nat, look: nat, x: nat) {
    var cell := t + Low(x, look);
    && t != 0 && cell < |heap| && heap[cell].Huft?
    && var r := heap[cell];
       0 < r.b == look && 16 < r.e <= 16 + BMAX && t < r.v < |heap|
  }

  /** The answer of a walk that went on after `bits` bits. */
  function After(bits: nat, w: Walked): Walked {
    match w
    case Hit(e, v, more) => Hit(e, v, bits + more)
    case Stuck(c) => Stuck(c)
  }

  lemma WalkFollows(heap: seq<Huft>, t: nat, look: nat, x: nat)
    requires Follows(heap, t, look, x)
    ensures var r := heap[t + Low(x, look)];
      Walk(heap, t, look, x) == After(r.b, Walk(heap, r.v, r.e - 16, Shr(x, r.b)))
  {
    hide Low, Shr;
  }

  lemma WalkStops(heap: seq<Huft>, t: nat, look: nat, x: nat)
    requires !Follows(heap, t, look, x) && Walk(heap, t, look, x).Stuck?
    ensures Walk(heap, t, look, x) == Stuck(t + Low(x, look))
  {
    hide Low, Shr;
  }

  /** A stuck walk stays stuck while its cell stays unwritten. */
  lemma {:induction false} StuckExtends(before: seq<Huft>, after: seq<Huft>, t: nat, look: nat, x: nat)
    requires Extends(before, after) && Walk(before, t, look, x).Stuck?
    requires var cell := Walk(before, t, look, x).cell;
      cell < |before| && before[cell].Unset? && after[cell].Unset?
    ensures Walk(after, t, look, x) == Walk(before, t, look, x)
    decreases |before| - t
  {
    hide Shl, Rev, Low, Shr, Pow2;
    var cell := t + Low(x, look);
    if Follows(before, t, look, x) {
      hide Walk;
      var r := before[cell];
      assert after[cell] == r;
      WalkFollows(before, t, look, x);
      WalkFollows(after, t, look, x);
      StuckExtends(before, after, r.v, r.e - 16, Shr(x, r.b));
    } else {
      WalkStops(before, t, look, x);
    }
  }

  lemma CorrectExtends(heap: seq<Huft>, after: seq<Huft>, root: nat, j: Job, p: nat)
    requires JobOk(j) && Correct(heap, root, j, p) && Extends(heap, after)
    ensures Correct(after, root, j, p)
  {
    hide Shl, Rev, Low, Shr, Pow2;
    forall x: nat | Rev(SCALE, x) < p
      ensures Agrees(Walk(after, root, j.l, x), j.lens, j.coding, DecodeSym(j.lens, x))
    {
      assert Agrees(Walk(heap, root, j.l, x), j.lens, j.coding, DecodeSym(j.lens, x));
      WalkExtends(heap, after, root, j.l, x);
    }
  }

  /** What one round of the table loop makes of the progress. */
  function Advance(pr: Progress, st: seq<Level>, l: nat, bits: nat, i: nat): Progress
    requires |st| > 0
  {
    match pr
    case AllFit => if bits <= l then AllFit else Oversize
    case Oversize => Lost(i + Pow2(Top(st).w + l), Top(st).base + Shr(i, Top(st).w) + Pow2(l))
    case Lost(_, _) => pr
  }

  /** The new table `d` is over- or right-sized as the condition says of the code it is made for. */
  ghost predicate SizeFacts(j: Job, k: nat, r: nat, d: Level)
    requires JobOk(j)
  {
    && d.w < k <= BMAX && r < j.c[k] && 0 < d.bits && d.w + d.bits <= SCALE
    && (d.bits <= j.l <==> Within(k - d.w, j.l, j.c[k] - r))
    && (k == d.w + j.l && d.bits > j.l ==> End(j.c, k) < Hi(d))
  }

  lemma AddKeepsTrack(heap: seq<Huft>, after: seq<Huft>, st: seq<Level>, j: Job, k: nat, r: nat, i: nat, p: nat,
                      d: Level, pr: Progress)
    requires JobOk(j) && CanLink(heap, st, j, k, i, p) && Track(heap, st, j, k, p, pr)
    requires d == Level(|heap| + 1, d.bits, i, Top(st).w + j.l) && SizeFacts(j, k, r, d) && p == Pos(j.c, k, r)
    requires after == HeapWithTable(heap, Top(st), Shr(i, Top(st).w), d.bits, j.l)
    ensures Track(after, st + [d], j, k, p, Advance(pr, st, j.l, d.bits, i))
  {
    hide Shl, Rev, Low, Shr, Pow2;
    TableExtends(heap, Top(st), Shr(i, Top(st).w), d.bits, j.l);
    if pr.AllFit? {
      AddToClean(heap, after, st, j, k, r, i, p, d);
    } else if pr.Oversize? {
      AddToPending(heap, after, st, j, k, i, p, d);
    } else {
      assert after[pr.cell].Unset?;
      DoomedPush(heap, after, st, j, k, pr.x, pr.cell, d);
    }
  }

  lemma AddToClean(heap: seq<Huft>, after: seq<Huft>, st: seq<Level>, j: Job, k: nat, r: nat, i: nat, p: nat, d: Level)
    requires JobOk(j) && StackOk(heap, st, j.l, j.c) && Clean(heap, st, j, p) && Extends(heap, after)
    requires d == Level(d.base, d.bits, i, Top(st).w + j.l) && SizeFacts(j, k, r, d)
    requires i < Pow2(d.w) && CodePos(k, i) == p == Pos(j.c, k, r)
    ensures Track(after, st + [d], j, k, p, if d.bits <= j.l then AllFit else Oversize)
  {
    hide Shl, Rev, Low, Shr, Pow2;
    if d.bits <= j.l {
      CleanPush(heap, after, st, j, p, d);
    } else {
      NewOversize(heap, st, j, k, r, i, p, d);
    }
  }

  lemma AddToPending(heap: seq<Huft>, after: seq<Huft>, st: seq<Level>, j: Job, k: nat, i: nat, p: nat, d: Level)
    requires JobOk(j) && CanLink(heap, st, j, k, i, p) && Track(heap, st, j, k, p, Oversize)
    requires d == Level(|heap| + 1, d.bits, i, Top(st).w + j.l) && 0 < d.bits && d.w + d.bits <= SCALE
    requires after == HeapWithTable(heap, Top(st), Shr(i, Top(st).w), d.bits, j.l)
    ensures Track(after, st + [d], j, k, p, Advance(Oversize, st, j.l, d.bits, i))
  {
    hide Shl, Rev, Low, Shr, Pow2;
    DoomAt(heap, st, j, k, i, p, d.bits);
  }

  lemma CleanPush(heap: seq<Huft>, after: seq<Huft>, st: seq<Level>, j: Job, p: nat, d: Level)
    requires JobOk(j) && |st| > 0 && Clean(heap, st, j, p) && Extends(heap, after) && d.bits <= j.l
    ensures Clean(after, st + [d], j, p)
  {
    hide Shl, Rev, Low, Shr, Pow2;
    CorrectExtends(heap, after, st[0].base, j, p);
  }

  lemma DoomedPush(heap: seq<Huft>, after: seq<Huft>, st: seq<Level>, j: Job, k: nat, x: nat, cell: nat, d: Level)
    requires |st| > 0 && Doomed(heap, st, j, k, x, cell) && d.base > |heap|
    requires Extends(heap, after) && after[cell].Unset?
    ensures Doomed(after, st + [d], j, k, x, cell)
  {
    hide Shl, Rev, Low, Shr, Pow2;
    StuckExtends(heap, after, st[0].base, j.l, x);
  }

  /** An oversize table shows that the condition fails, and leaves a link still to come. */
  lemma NewOversize(heap: seq<Huft>, st: seq<Level>, j: Job, k: nat, r: nat, i: nat, p: nat, d: Level)
    requires JobOk(j) && StackOk(heap, st, j.l, j.c)
    requires d == Level(d.base, d.bits, i, Top(st).w + j.l) && SizeFacts(j, k, r, d) && d.bits > j.l
    requires i < Pow2(d.w) && CodePos(k, i) == p == Pos(j.c, k, r)
    requires forall t :: 0 < t < |st| ==> st[t].bits <= j.l
    ensures !Fits(j.c, j.l)
    ensures Pending(st + [d], j, k)
  {
    hide Shl, Rev, Low, Shr, Pow2;
    StackMultiple(heap, st, j.l, j.c, |st| - 1);
    assert MultipleOf(d.w - j.l, j.l);
    NewTableEdge(k, d.w, i);
    assert Opens(j.c, j.l, d.w, k, r);
    assert Top(st + [d]) == d;
  }

  // ----- filling

  /** What the fill loop does: every slot of `v` whose low `n` bits are `lo` becomes `r`. */
  ghost predicate Filled(before: seq<Huft>, after: seq<Huft>, v: Level, n: nat, lo: nat, r: Huft) {
    && |after| == |before|
    && (forall cell: nat :: cell < |before| ==>
          after[cell] == if v.base <= cell < v.base + Pow2(v.bits) && Low(cell - v.base, n) == lo
                         then r else before[cell])
  }

  /** The code `i` of `k` bits is to be entered into the top table. */
  ghost predicate CanFill(heap: seq<Huft>, st: seq<Level>, j: Job, k: nat, i: nat, p: nat)
    requires JobOk(j)
  {
    && Mid(heap, st, j, k, i, p)
    && k <= Top(st).w + j.l
    && k <= Top(st).w + Top(st).bits
    && Low(i, Top(st).w) == Top(st).pat
  }

  lemma FillAllowed(heap: seq<Huft>, st: seq<Level>, j: Job, k: nat, r: nat, i: nat, p: nat)
    requires JobOk(j) && Mid(heap, st, j, k, i, p) && k <= Top(st).w + j.l && r < j.c[k] && p == Pos(j.c, k, r)
    ensures CanFill(heap, st, j, k, i, p)
  {
    hide Shl, Rev, Low, Shr, Pow2;
    var v := Top(st);
    assert LevelOk(heap, v, j.l, j.c);
    SizingCovers(heap, v, j.l, j.c, k, r);
    PatternInside(v, k, i);
  }

  /** The slots of `v` whose low `n` bits are `lo` have not been written. */
  ghost predicate Vacant(heap: seq<Huft>, v: Level, n: nat, lo: nat) {
    forall cell: nat :: v.base <= cell < v.base + Pow2(v.bits) && cell < |heap| && Low(cell - v.base, n) == lo ==>
      heap[cell] == Unset
  }

  lemma VacantAt(heap: seq<Huft>, v: Level, n: nat, lo: nat, s: nat)
    requires Vacant(heap, v, n, lo) && s < Pow2(v.bits) && v.base + s < |heap| && Low(s, n) == lo
    ensures heap[v.base + s] == Unset
  {
    var cell: nat := v.base + s;
    assert cell - v.base == s;
  }

  /** The slots of the code that comes next are still vacant. */
  lemma SlotsVacant(heap: seq<Huft>, st: seq<Level>, j: Job, k: nat, i: nat, p: nat)
    requires JobOk(j) && CanFill(heap, st, j, k, i, p)
    ensures Vacant(heap, Top(st), k - Top(st).w, Shr(i, Top(st).w))
  {
    hide Shl, Rev, Low, Shr, Pow2;
    var v := Top(st);
    assert LevelOk(heap, v, j.l, j.c);
    CodeTail(i, v.w, k);
    forall c: nat | v.base <= c < v.base + Pow2(v.bits) && c < |heap| && Low(c - v.base, k - v.w) == Shr(i, v.w)
      ensures heap[c] == Unset
    {
      SlotInCode(v, k, i, c - v.base);
      BlankSlot(heap, v, p, c - v.base);
    }
  }

  /** Only blank slots are written, and those of later codes stay blank. */
  lemma FillExtends(heap: seq<Huft>, after: seq<Huft>, v: Level, k: nat, i: nat, p: nat, r: Huft)
    requires v.w < k && v.w + v.bits <= SCALE && k <= v.w + v.bits && Low(i, v.w) == v.pat && v.pat < Pow2(v.w)
    requires i < Pow2(k) && CodePos(k, i) == p && Blank(heap, v, p) && v.base + Pow2(v.bits) <= |heap|
    requires Filled(heap, after, v, k - v.w, Shr(i, v.w), r)
    ensures Extends(heap, after)
    ensures Blank(after, v, p + Pow2(SCALE - k))
  {
    hide Shl, Rev, Low, Shr, Pow2;
    CodeTail(i, v.w, k);
    forall c: nat | v.base <= c < v.base + Pow2(v.bits) && Low(c - v.base, k - v.w) == Shr(i, v.w)
      ensures heap[c].Unset? && SlotPos(v, c - v.base) < p + Pow2(SCALE - k)
    {
      SlotInCode(v, k, i, c - v.base);
      BlankSlot(heap, v, p, c - v.base);
    }
    forall s: nat | s < Pow2(v.bits) && SlotPos(v, s) >= p + Pow2(SCALE - k)
      ensures after[v.base + s].Unset?
    {
      BlankSlot(heap, v, p, s);
      var c: nat := v.base + s;
      assert c - v.base == s;
      assert after[c] == heap[c];
    }
  }

  lemma CodeTail(i: nat, w: nat, k: nat)
    requires w <= k && i < Pow2(k)
    ensures Low(Shr(i, w), k - w) == Shr(i, w)
  {
    hide Shl, Rev, Low, Shr, Pow2;
    ShrBound(i, w, k - w);
    SmallLow(Shr(i, w), k - w);
  }

  lemma FillKeepsBelow(heap: seq<Huft>, after: seq<Huft>, st: seq<Level>, j: Job, p: nat, p': nat, t: nat, n: nat, lo: nat, r: Huft)
    requires JobOk(j) && StackOk(heap, st, j.l, j.c) && t < |st| - 1 && p < p'
    requires Blank(heap, st[t], p + 1) && Filled(heap, after, Top(st), n, lo, r)
    ensures Blank(after, st[t], p')
  {
    hide Shl, Rev, Low, Shr, Pow2;
    assert LevelOk(heap, st[t], j.l, j.c);
    StackOrder(heap, st, j.l, j.c, t, |st| - 1);
    forall s: nat | s < Pow2(st[t].bits) && SlotPos(st[t], s) >= p' && st[t].base + s < |after|
      ensures after[st[t].base + s].Unset?
    {
      BlankSlot(heap, st[t], p + 1, s);
      var c: nat := st[t].base + s;
      assert after[c] == heap[c];
    }
  }

  /** The entry made for the `rank`-th code of length `k` in a table reached after `w` bits. */
  ghost predicate EntryOk(j: Job, k: nat, rank: nat, w: nat, r: Huft)
    requires JobOk(j) && w <= k
  {
    && (rank < Count(j.lens, k) ==>
          var sym := SymAt(j.lens, k, rank);
          r == Huft(EntryE(j.coding, sym), k - w, EntryV(j.coding, sym)))
    && (rank >= Count(j.lens, k) && 0 !in j.lens ==> r.Huft? && r.e == 99)
    && (r.Huft? ==> r.b == k - w)
  }

  /** The slot that a stream beginning with the code `i` selects in the top table. */
  lemma SlotOfStream(v: Level, look: nat, k: nat, i: nat, x: nat) returns (s: nat)
    requires v.w < k <= v.w + look && look <= v.bits && Low(x, k) == i
    ensures s == Low(Shr(x, v.w), look) && s < Pow2(v.bits)
    ensures Low(s, k - v.w) == Shr(i, v.w)
  {
    hide Shl, Rev, Low, Shr, Pow2;
    var n, y := k - v.w, Shr(x, v.w);
    s := Low(y, look);
    LowOfLow(x, v.w, n);
    LowOfLow(y, n, look - n);
    LowBound(y, look);
    Pow2Mono(look, v.bits);
  }

  /** A stream under the entered code now finds the entry. */
  lemma FindsEntry(before: seq<Huft>, after: seq<Huft>, st: seq<Level>, l: nat, c: seq<nat>, k: nat, i: nat,
                   x: nat, r: Huft)
    requires |c| == BMAX + 1 && StackOk(after, st, l, c)
    requires forall u :: 0 < u < |st| - 1 ==> st[u].bits == l
    requires Top(st).w < k <= Top(st).w + l && k <= Top(st).w + Top(st).bits
    requires |st| == 1 ==> l <= Top(st).bits
    requires Low(i, Top(st).w) == Top(st).pat && Low(x, k) == i
    requires Filled(before, after, Top(st), k - Top(st).w, Shr(i, Top(st).w), r)
    requires r.Huft? && (r.e <= 16 || r.e == 99) && r.b == k - Top(st).w
    ensures Walk(after, st[0].base, l, x) == Hit(r.e, r.v, Top(st).w + r.b)
  {
    hide Shl, Rev, Low, Shr, Pow2;
    var v := Top(st);
    var look := if |st| == 1 then l else v.bits;
    assert LevelOk(after, v, l, c);
    LowNest(x, v.w, k);
    EntryInSlot(before, after, v, look, k, i, x, r);
    WalkToEntry(after, st, l, c, look, x, r);
  }

  lemma WalkToEntry(heap: seq<Huft>, st: seq<Level>, l: nat, c: seq<nat>, look: nat, x: nat, r: Huft)
    requires |c| == BMAX + 1 && StackOk(heap, st, l, c)
    requires forall u :: 0 < u < |st| - 1 ==> st[u].bits == l
    requires Low(x, Top(st).w) == Top(st).pat
    requires look == if |st| == 1 then l else Top(st).bits
    requires Top(st).base + Low(Shr(x, Top(st).w), look) < |heap|
    requires heap[Top(st).base + Low(Shr(x, Top(st).w), look)] == r
    requires r.Huft? && (r.e <= 16 || r.e == 99) && 0 < r.b <= look
    ensures Walk(heap, st[0].base, l, x) == Hit(r.e, r.v, Top(st).w + r.b)
  {
    hide Shl, Rev, Low, Shr, Pow2;
    var v := Top(st);
    assert LevelOk(heap, v, l, c);
    WalkFromRoot(heap, st, l, c, x);
    WalkEntry(heap, v.base, look, Shr(x, v.w), r);
  }

  lemma EntryInSlot(before: seq<Huft>, after: seq<Huft>, v: Level, look: nat, k: nat, i: nat, x: nat, r: Huft)
    requires v.w < k <= v.w + look && look <= v.bits && Low(x, k) == i && v.base + Pow2(v.bits) <= |after|
    requires Filled(before, after, v, k - v.w, Shr(i, v.w), r)
    ensures v.base + Low(Shr(x, v.w), look) < |after| && after[v.base + Low(Shr(x, v.w), look)] == r
  {
    hide Shl, Rev, Low, Shr, Pow2;
    var s := SlotOfStream(v, look, k, i, x);
    var cell: nat := v.base + s;
    assert cell - v.base == s;
  }

  lemma WalkEntry(heap: seq<Huft>, t: nat, look: nat, x: nat, r: Huft)
    requires 0 < t && t + Low(x, look) < |heap| && heap[t + Low(x, look)] == r
    requires r.Huft? && (r.e <= 16 || r.e == 99) && 0 < r.b <= look
    ensures Walk(heap, t, look, x) == Hit(r.e, r.v, r.b)
  {
  }

  /** The stream lies under the entered code exactly when it starts with the code's bits. */
  lemma StreamOfCode(c: seq<nat>, k: nat, rank: nat, i: nat, x: nat)
    requires |c| == BMAX + 1 && 0 < k <= BMAX && rank < c[k]
    requires i < Pow2(k) && CodePos(k, i) == Pos(c, k, rank)
    requires Pos(c, k, rank) <= Rev(SCALE, x) < Pos(c, k, rank) + Pow2(SCALE - k)
    ensures Under(c, k, rank, Rev(SCALE, x)) && Low(x, k) == i
  {
    hide Shl, Rev, Low, Shr, Pow2;
    var code := 2 * Used(c, k - 1) + rank;
    UnderPrefix(c, k, rank, x);
    ShlMono(Rev(k, i), code, SCALE - k);
    ShlMono(code, Rev(k, i), SCALE - k);
    RevSame(k, x, i);
    SmallLow(i, k);
  }

  /** After the fill every stream up to the end of the entered code is decoded right. */
  lemma FillCorrect(heap: seq<Huft>, after: seq<Huft>, st: seq<Level>, j: Job, k: nat, rank: nat, i: nat, p: nat, r: Huft)
    requires JobOk(j) && CanFill(heap, st, j, k, i, p) && Correct(heap, st[0].base, j, p)
    requires forall t :: 0 < t < |st| ==> st[t].bits <= j.l
    requires rank < j.c[k] && p == Pos(j.c, k, rank)
    requires Filled(heap, after, Top(st), k - Top(st).w, Shr(i, Top(st).w), r)
    requires EntryOk(j, k, rank, Top(st).w, r) && Extends(heap, after)
    requires |st| == 1 ==> j.l <= st[0].bits
    ensures Correct(after, st[0].base, j, p + Pow2(SCALE - k))
  {
    hide Shl, Rev, Low, Shr, Pow2;
    CorrectExtends(heap, after, st[0].base, j, p);
    StackExtends(heap, after, st, j.l, j.c);
    InnerFull(heap, st, j);
    forall x: nat | p <= Rev(SCALE, x) < p + Pow2(SCALE - k)
      ensures Agrees(Walk(after, st[0].base, j.l, x), j.lens, j.coding, DecodeSym(j.lens, x))
    {
      StreamOfCode(j.c, k, rank, i, x);
      DecodeUnder(j.lens, j.c, j.g, k, rank, x);
      if r.Huft? && (r.e <= 16 || r.e == 99) {
        FindsEntry(heap, after, st, j.l, j.c, k, i, x, r);
      }
    }
  }

  /** A position strictly inside a table's interval is not the edge of another table of that depth. */
  lemma NotEdge(v: Level, p: nat)
    requires v.w <= SCALE && Lo(v) < p < Hi(v)
    ensures Low(p, SCALE - v.w) != 0
  {
    hide Shl, Rev, Low, Shr, Pow2;
    var z, a := SCALE - v.w, Rev(v.w, v.pat);
    if Low(p, z) == 0 {
      LowShr(p, z);
      var q := Shr(p, z);
      HiAsShift(v);
      ShlMono(a, q, z);
      ShlMono(q, a + 1, z);
    }
  }

  /** A table opened by the code just entered was made for it, and keeps the condition. */
  lemma OpenedNow(heap: seq<Huft>, st: seq<Level>, j: Job, k: nat, rank: nat, p: nat, depth: nat, w: nat, k': nat, r': nat)
    requires JobOk(j) && StackOk(heap, st, j.l, j.c) && Inside(st, p)
    requires k <= BMAX && rank < j.c[k] && 0 < k <= Top(st).w + j.l && p == Pos(j.c, k, rank)
    requires forall t :: 0 < t < |st| && t < depth ==> Lo(st[t]) < p
    requires forall t :: 0 < t < |st| && t >= depth && st[t].w < k ==> Within(k - st[t].w, j.l, j.c[k] - rank)
    requires Opens(j.c, j.l, w, k', r') && p <= Pos(j.c, k', r') < p + Pow2(SCALE - k)
    ensures Within(k' - w, j.l, j.c[k'] - r')
  {
    hide Shl, Rev, Low, Shr, Pow2, Within;
    var p' := Pos(j.c, k', r');
    assert Under(j.c, k, rank, p') && Under(j.c, k', r', p');
    UnderUnique(j.c, k, rank, k', r', p');
    StackMultiple(heap, st, j.l, j.c, |st| - 1);
    MultipleGap(w, Top(st).w, j.l);
    var t := StackHas(heap, st, j.l, j.c, w);
    if t < depth {
      NotEdge(st[t], p);
    }
  }

  /** The condition has now also been seen to hold for the entered code. */
  lemma FillSeen(heap: seq<Huft>, st: seq<Level>, j: Job, k: nat, rank: nat, p: nat, depth: nat)
    requires JobOk(j) && StackOk(heap, st, j.l, j.c) && Inside(st, p) && Seen(j, p)
    requires k <= BMAX && rank < j.c[k] && 0 < k <= Top(st).w + j.l && p == Pos(j.c, k, rank)
    requires forall t :: 0 < t < |st| && t < depth ==> Lo(st[t]) < p
    requires forall t :: 0 < t < |st| && t >= depth && st[t].w < k ==> Within(k - st[t].w, j.l, j.c[k] - rank)
    ensures Seen(j, p + Pow2(SCALE - k))
  {
    hide Shl, Rev, Low, Shr, Pow2, Within, StackOk, Inside;
    forall w: nat, k': nat, r': nat | Opens(j.c, j.l, w, k', r') && Pos(j.c, k', r') < p + Pow2(SCALE - k)
      ensures Within(k' - w, j.l, j.c[k'] - r')
    {
      if Pos(j.c, k', r') >= p {
        OpenedNow(heap, st, j, k, rank, p, depth, w, k', r');
      }
    }
  }

  /** The position after the codes so far never passes the end of the codes of their length. */
  lemma BeforeEnd(c: seq<nat>, k: nat, rank: nat)
    requires |c| == BMAX + 1 && 0 < k <= BMAX && rank < c[k]
    ensures Pos(c, k, rank) + Pow2(SCALE - k) <= End(c, k)
  {
    hide Shl, Rev, Low, Shr, Pow2;
    PosMono(c, k, rank, c[k]);
  }

  /** Entering a code keeps track of every stream. */
  lemma FillKeepsTrack(heap: seq<Huft>, after: seq<Huft>, st: seq<Level>, j: Job, k: nat, rank: nat, i: nat, p: nat,
                       r: Huft, depth: nat, pr: Progress)
    requires JobOk(j) && CanFill(heap, st, j, k, i, p) && Track(heap, st, j, k, p, pr)
    requires rank < j.c[k] && p == Pos(j.c, k, rank)
    requires Filled(heap, after, Top(st), k - Top(st).w, Shr(i, Top(st).w), r)
    requires EntryOk(j, k, rank, Top(st).w, r) && Extends(heap, after)
    requires |st| == 1 ==> j.l <= st[0].bits
    requires forall t :: 0 < t < |st| && t < depth ==> Lo(st[t]) < p
    requires pr.AllFit? ==>
      forall t :: 0 < t < |st| && t >= depth && st[t].w < k ==> Within(k - st[t].w, j.l, j.c[k] - rank)
    ensures Track(after, st, j, k, p + Pow2(SCALE - k), pr)
  {
    hide Shl, Rev, Low, Shr, Pow2;
    match pr {
      case AllFit =>
        FillCorrect(heap, after, st, j, k, rank, i, p, r);
        FillSeen(heap, st, j, k, rank, p, depth);
      case Oversize =>
      case Lost(x, cell) =>
        assert after[cell] == heap[cell];
        StuckExtends(heap, after, st[0].base, j.l, x);
    }
  }

  // ----- the next code

  /** inflate.c:472-475: add one to a code that is stored first bit lowest. `q` is the bit that j selects. */
  method NextCode(k: nat, i0: nat) returns (i: nat)
    requires 0 < k && i0 < Pow2(k)
    ensures i < Pow2(k)
    ensures Rev(k, i0) + 1 < Pow2(k) ==> Rev(k, i) == Rev(k, i0) + 1
    ensures Rev(k, i0) + 1 == Pow2(k) ==> i == 0
  {
    hide Shl, Rev, Low;
    i := i0;
    var q := k - 1;
    while q >= 0 && Bit(i, q) == 1
      invariant -1 <= q < k && i < Pow2(k)
      invariant Rev(k, i) + Pow2(k - 1 - q) - 1 == Rev(k, i0)
    {
      ClearBit(i, q);
      i := i - Pow2(q);
      RevSetBit(k, q, i);
      q := q - 1;
    }
    RevBound(k, i0);
    if q >= 0 {
      SetBitBound(i, q, k);
      RevSetBit(k, q, i);
      RevBound(k, i + Pow2(q));
      i := i + Pow2(q);
    } else {
      RevZero(k);
      RevSame(k, i, 0);
      SmallLow(i, k);
      SmallLow(0, k);
    }
  }

  // ----- backing up

  /** Between the fill and the backing up: `p` is the position just filled, the next one is `p'`. */
  ghost predicate Entered(heap: seq<Huft>, st: seq<Level>, j: Job, k: nat, p: nat, p': nat)
    requires JobOk(j)
  {
    && 0 < k <= j.g && p' == p + Pow2(SCALE - k)
    && StackOk(heap, st, j.l, j.c)
    && (forall t :: 0 <= t < |st| ==> Blank(heap, st[t], p'))
    && (forall t :: 0 <= t < |st| ==> st[t].w < k && Lo(st[t]) <= p && p' <= Hi(st[t]))
  }

  lemma FillEnters(heap: seq<Huft>, after: seq<Huft>, st: seq<Level>, j: Job, k: nat, i: nat, p: nat, r: Huft)
    requires JobOk(j) && CanFill(heap, st, j, k, i, p)
    requires Filled(heap, after, Top(st), k - Top(st).w, Shr(i, Top(st).w), r)
    ensures Extends(heap, after)
    ensures Entered(after, st, j, k, p, p + Pow2(SCALE - k))
  {
    hide Shl, Rev, Low, Shr, Pow2;
    var v, p' := Top(st), p + Pow2(SCALE - k);
    assert LevelOk(heap, v, j.l, j.c);
    FillExtends(heap, after, v, k, i, p, r);
    StackExtends(heap, after, st, j.l, j.c);
    forall t | 0 <= t < |st|
      ensures Blank(after, st[t], p')
      ensures st[t].w < k && Lo(st[t]) <= p && p' <= Hi(st[t])
    {
      if t < |st| - 1 {
        FillKeepsBelow(heap, after, st, j, p, p', t, k - v.w, Shr(i, v.w), r);
      }
      assert LevelOk(heap, st[t], j.l, j.c);
      PatternsBelow(heap, st, j.l, t, i);
      PatternInside(st[t], k, i);
    }
  }

  /** The code ending at `p'` has been entered; `i` is the next one, or 0 after the last. */
  ghost predicate CanBackup(heap: seq<Huft>, st: seq<Level>, j: Job, k: nat, i: nat, p: nat, p': nat, pr: Progress)
    requires JobOk(j)
  {
    && |st| > 0
    && Entered(heap, st, j, k, p, p')
    && Track(heap, st, j, k, p', pr)
    && i < Pow2(k) && k <= Top(st).w + j.l
    && (p' < Pow2(SCALE) ==> CodePos(k, i) == p')
    && p' <= End(j.c, k)
  }

  /** What backing up over table `t` of the stack will find. */
  ghost predicate Finished(st: seq<Level>, l: nat, k: nat, i: nat, more: bool, keepTop: bool, t: nat)
    requires t < |st|
  {
    && t > 0 && k > st[t - 1].w + l
    && (more ==> i < Pow2(st[t - 1].w + l))
    && (more && keepTop ==> t < |st| - 1)
  }

  /** inflate.c:478-482. `more` says that codes follow, `keepTop` that the top table is not finished. */
  method Backup(ghost l: nat, st0: seq<Level>, ghost k: nat, i: nat, ghost more: bool, ghost keepTop: bool)
    returns (st: seq<Level>)
    requires |st0| > 0 && (more ==> i < Pow2(Top(st0).w + l))
    requires forall t: nat :: t < |st0| && Low(i, st0[t].w) != st0[t].pat ==> Finished(st0, l, k, i, more, keepTop, t)
    ensures 0 < |st| <= |st0| && st == st0[..|st|]
    ensures Low(i, Top(st).w) == Top(st).pat
    ensures |st| < |st0| ==> k > Top(st).w + l
    ensures more ==> i < Pow2(Top(st).w + l) && (keepTop ==> |st| == |st0|)
  {
    hide Shl, Rev, Low, Shr, Pow2;
    st := st0;
    while Low(i, Top(st).w) != Top(st).pat
      invariant 0 < |st| <= |st0| && st == st0[..|st|]
      invariant more ==> i < Pow2(Top(st).w + l)
      invariant more && keepTop ==> |st| == |st0|
      invariant |st| < |st0| ==> k > Top(st).w + l
      decreases |st|
    {
      assert Top(st) == st0[|st| - 1];
      assert Finished(st0, l, k, i, more, keepTop, |st| - 1);
      st := st[..|st| - 1];
      assert Top(st) == st0[|st| - 1];
    }
  }

  lemma BackupReady(heap: seq<Huft>, st: seq<Level>, j: Job, k: nat, i: nat, p: nat, p': nat, pr: Progress)
    requires JobOk(j) && CanBackup(heap, st, j, k, i, p, p', pr)
    ensures i < Pow2(Top(st).w + j.l)
    ensures forall t: nat :: t < |st| && Low(i, st[t].w) != st[t].pat ==>
      Finished(st, j.l, k, i, p' < Pow2(SCALE), pr.Oversize?, t)
  {
    hide Shl, Rev, Low, Shr, Pow2;
    Pow2Mono(k, Top(st).w + j.l);
    forall t: nat | t < |st| && Low(i, st[t].w) != st[t].pat
      ensures Finished(st, j.l, k, i, p' < Pow2(SCALE), pr.Oversize?, t)
    {
      BackupStep(heap, st, j, k, i, p, p', t, pr);
    }
  }

  /** A table whose pattern no longer matches is finished: the next code starts where its interval ends. */
  lemma BackupStep(heap: seq<Huft>, st0: seq<Level>, j: Job, k: nat, i: nat, p: nat, p': nat, t: nat, pr: Progress)
    requires JobOk(j) && CanBackup(heap, st0, j, k, i, p, p', pr) && t < |st0|
    requires Low(i, st0[t].w) != st0[t].pat
    ensures t > 0 && k > st0[t - 1].w + j.l
    ensures p' < Pow2(SCALE) ==> i < Pow2(st0[t - 1].w + j.l)
    ensures p' < Pow2(SCALE) && pr.Oversize? ==> t < |st0| - 1
  {
    hide Shl, Rev, Shr, Low, Pow2;
    NoBits(i);
    var v := st0[t];
    assert LevelOk(heap, v, j.l, j.c);
    if t > 0 {
      assert Linked(heap, st0[t - 1], v, j.l);
    }
    if p' < Pow2(SCALE) {
      PatternInside(v, k, i);
      assert p' == Hi(v);
      CodeAtEdge(v, k, i);
      if pr.Oversize? && t == |st0| - 1 {
        UsedMono(j.c, k, v.w + j.l);
      }
    }
  }

  lemma BackupDone(heap: seq<Huft>, st0: seq<Level>, st: seq<Level>, j: Job, k: nat, i: nat, p: nat, p': nat, pr: Progress)
    requires JobOk(j) && CanBackup(heap, st0, j, k, i, p, p', pr) && p' < Pow2(SCALE)
    requires 0 < |st| <= |st0| && st == st0[..|st|]
    requires pr.Oversize? ==> |st| == |st0|
    requires Low(i, Top(st).w) == Top(st).pat && i < Pow2(Top(st).w + j.l)
    ensures Head(heap, st, j, k, i, p')
    ensures Track(heap, st, j, k, p', pr)
  {
    hide Shl, Rev, Low, Shr, Pow2;
    PrefixOk(heap, st0, st, j);
    forall t | 0 <= t < |st|
      ensures Lo(st[t]) <= p' < Hi(st[t]) && Blank(heap, st[t], p') && Blank(heap, st[t], p' + 1)
    {
      assert st[t] == st0[t] && LevelOk(heap, st[t], j.l, j.c);
      PatternsBelow(heap, st, j.l, t, i);
      PatternInside(st[t], k, i);
      assert Blank(heap, st0[t], p');
    }
    if pr.Oversize? {
      assert st == st0;
    }
  }

  lemma PrefixOk(heap: seq<Huft>, st0: seq<Level>, st: seq<Level>, j: Job)
    requires JobOk(j) && StackOk(heap, st0, j.l, j.c) && 0 < |st| <= |st0| && st == st0[..|st|]
    ensures StackOk(heap, st, j.l, j.c)
  {
    hide Shl, Rev, Low, Shr, Pow2;
    forall t | 0 < t < |st|
      ensures Linked(heap, st[t - 1], st[t], j.l)
    {
      assert Linked(heap, st0[t - 1], st0[t], j.l);
    }
  }

  // ----- the first table

  function HeapWithRoot(heap: seq<Huft>, bits: nat): (after: seq<Huft>)
    ensures |after| == |heap| + 1 + Pow2(bits)
  {
    heap + Blanks(Pow2(bits) + 1)
  }

  lemma RootMid(heap: seq<Huft>, after: seq<Huft>, j: Job, k: nat, v: Level)
    requires JobOk(j) && 0 < k <= j.g && after == HeapWithRoot(heap, v.bits)
    requires v == Level(|heap| + 1, v.bits, 0, 0) && SizedFor(j, v.w, v.bits, v.pat)
    ensures Mid(after, [v], j, k, 0, 0)
  {
    hide Shl, Rev, Low, Shr, Pow2;
    RootInterval(v);
    RootLevel(heap, after, j, v);
    RevZero(k);
    ShlOne(SCALE - k);
  }

  lemma RootLevel(heap: seq<Huft>, after: seq<Huft>, j: Job, v: Level)
    requires JobOk(j) && after == HeapWithRoot(heap, v.bits)
    requires v == Level(|heap| + 1, v.bits, 0, 0) && SizedFor(j, v.w, v.bits, v.pat)
    ensures StackOk(after, [v], j.l, j.c) && Blank(after, v, 0)
  {
  }

  lemma RootInterval(v: Level)
    requires v.w == 0
    ensures Lo(v) == 0 && Hi(v) == Pow2(SCALE)
  {
    ShlOne(SCALE);
  }

  lemma RootTrack(after: seq<Huft>, v: Level, j: Job, k: nat)
    requires JobOk(j)
    ensures Track(after, [v], j, k, 0, AllFit)
  {
  }

  /** The root table has a slot for every look-up. */
  lemma RootFull(heap: seq<Huft>, st: seq<Level>, j: Job)
    requires JobOk(j) && StackOk(heap, st, j.l, j.c)
    ensures st[0].bits >= j.l
  {
    hide Shl, Rev, Low, Shr, Pow2;
    var v := st[0];
    assert LevelOk(heap, v, j.l, j.c);
    if v.bits < j.l {
      UsedMono(j.c, v.bits, j.g - 1);
      Doubled(Used(j.c, j.g - 1), SCALE - j.g);
      PosMono(j.c, j.g, 0, j.c[j.g]);
      CompleteEnd(j.lens, j.c, j.g);
      assert false;
    }
  }

  // ----- one round of the table loop, as a whole

  lemma TableAdded(heap: seq<Huft>, after: seq<Huft>, st: seq<Level>, j: Job, k: nat, r: nat, i: nat, p: nat,
                   d: Level, pr: Progress)
    requires JobOk(j) && CanLink(heap, st, j, k, i, p) && Track(heap, st, j, k, p, pr)
    requires d == Level(|heap| + 1, d.bits, i, Top(st).w + j.l)
    requires SizedFor(j, d.w, d.bits, i) && SizeFacts(j, k, r, d) && p == Pos(j.c, k, r)
    requires after == HeapWithTable(heap, Top(st), Shr(i, Top(st).w), d.bits, j.l)
    ensures Mid(after, st + [d], j, k, i, p)
    ensures Track(after, st + [d], j, k, p, Advance(pr, st, j.l, d.bits, i))
    ensures Extends(heap, after)
  {
    hide Shl, Rev, Low, Shr, Pow2;
    AddKeepsMid(heap, st, j, k, i, p, d.bits);
    AddKeepsTrack(heap, after, st, j, k, r, i, p, d, pr);
    TableExtends(heap, Top(st), Shr(i, Top(st).w), d.bits, j.l);
  }

  /** While tables are made for one code: the tables from depth `depth` on are new and sized within the condition. */
  ghost predicate Making(heap: seq<Huft>, st: seq<Level>, j: Job, k: nat, r: nat, i: nat, p: nat, depth: nat, pr: Progress)
    requires JobOk(j)
  {
    && k <= BMAX && r < j.c[k]
    && Mid(heap, st, j, k, i, p)
    && p == Pos(j.c, k, r)
    && Track(heap, st, j, k, p, pr)
    && (forall t :: 0 < t < |st| && t < depth ==> Lo(st[t]) < p)
    && (pr.AllFit? ==>
          forall t :: 0 < t < |st| && t >= depth && st[t].w < k ==> Within(k - st[t].w, j.l, j.c[k] - r))
  }

  lemma MakingStep(heap: seq<Huft>, after: seq<Huft>, st: seq<Level>, j: Job, k: nat, r: nat, i: nat, p: nat,
                   d: Level, depth: nat, pr: Progress)
    requires JobOk(j) && CanLink(heap, st, j, k, i, p) && Making(heap, st, j, k, r, i, p, depth, pr)
    requires d == Level(|heap| + 1, d.bits, i, Top(st).w + j.l)
    requires SizedFor(j, d.w, d.bits, i) && SizeFacts(j, k, r, d)
    requires after == HeapWithTable(heap, Top(st), Shr(i, Top(st).w), d.bits, j.l)
    requires depth <= |st|
    ensures Making(after, st + [d], j, k, r, i, p, depth, Advance(pr, st, j.l, d.bits, i))
    ensures Extends(heap, after)
  {
    hide Shl, Rev, Low, Shr, Pow2;
    TableAdded(heap, after, st, j, k, r, i, p, d, pr);
  }

  /** From the sizing method's terms to the invariant's. */
  lemma SizeInvariant(j: Job, k: nat, a: nat, d: Level)
    requires JobOk(j) && d.w < k <= j.g && a < j.c[k] && d.pat < Pow2(d.w)
    requires k - d.w <= d.bits && d.w + d.bits <= SCALE && (d.w > 0 ==> d.bits <= BMAX)
    requires d.bits >= j.l ||
      (d.w + d.bits <= BMAX && Shl(Rev(d.w, d.pat) + 1, SCALE - d.w) <= End(j.c, d.w + d.bits))
    requires d.bits <= j.l <==> Within(k - d.w, j.l, a + 1)
    requires k - d.w == j.l && d.bits > j.l ==> End(j.c, k) < Shl(Rev(d.w, d.pat) + 1, SCALE - d.w)
    ensures SizedFor(j, d.w, d.bits, d.pat) && SizeFacts(j, k, j.c[k] - 1 - a, d)
  {
    hide Shl, Rev, Low, Shr, Pow2;
    HiAsShift(d);
  }

  lemma ExtendsTrans(a: seq<Huft>, b: seq<Huft>, c: seq<Huft>)
    requires Extends(a, b) && Extends(b, c)
    ensures Extends(a, c)
  {
  }

  /** The state for a code before its tables are made: the very first code has no tables yet. */
  ghost predicate Starting(heap: seq<Huft>, st: seq<Level>, j: Job, k: nat, r: nat, i: nat, p: nat, pr: Progress)
    requires JobOk(j)
  {
    && 0 < k <= j.g && r < j.c[k] && p == Pos(j.c, k, r)
    && if st == [] then i == 0 && p == 0 && pr == AllFit
       else Head(heap, st, j, k, i, p) && Track(heap, st, j, k, p, pr)
  }

  /** A table is to be made for the code `i`: it is the first, or the code reaches beyond the top one. */
  ghost predicate NeedsTable(heap: seq<Huft>, st: seq<Level>, j: Job, k: nat, r: nat, i: nat, p: nat, depth: nat,
                             pr: Progress)
    requires JobOk(j)
  {
    && 0 < k <= j.g && r < j.c[k] && depth <= |st|
    && if st == [] then Starting(heap, st, j, k, r, i, p, pr)
       else Making(heap, st, j, k, r, i, p, depth, pr) && Top(st).w + j.l < k
  }

  function NextDepth(st: seq<Level>, l: nat): nat {
    if st == [] then 0 else Top(st).w + l
  }

  lemma BeforeTable(heap: seq<Huft>, st: seq<Level>, j: Job, k: nat, r: nat, i: nat, p: nat, depth: nat, pr: Progress,
                    w: nat)
    requires JobOk(j) && NeedsTable(heap, st, j, k, r, i, p, depth, pr) && w == NextDepth(st, j.l)
    ensures w < k && i < Pow2(w) && Rev(w, i) < Pow2(w)
    ensures Pos(j.c, k, r) == Shl(Rev(w, i), SCALE - w)
    ensures st != [] ==> CanLink(heap, st, j, k, i, p)
  {
    hide Shl, Rev, Low, Shr, Pow2;
    if st == [] {
      NoBits(0);
      ShlOne(SCALE);
    } else {
      BeforeLink(heap, st, j, k, r, i, p, depth, pr);
      NewTableEdge(k, w, i);
    }
  }

  lemma BeforeLink(heap: seq<Huft>, st: seq<Level>, j: Job, k: nat, r: nat, i: nat, p: nat, depth: nat, pr: Progress)
    requires JobOk(j) && st != [] && NeedsTable(heap, st, j, k, r, i, p, depth, pr)
    ensures CanLink(heap, st, j, k, i, p)
    ensures i < Pow2(Top(st).w + j.l) && p == CodePos(k, i) && p == Pos(j.c, k, r)
  {
    hide Shl, Rev, Low, Shr, Pow2;
    LinkAllowed(heap, st, j, k, r, i, p);
  }

  /** The heap after the new table, linked or not. */
  function HeapAfter(heap: seq<Huft>, st: seq<Level>, i: nat, bits: nat, l: nat): seq<Huft>
    requires st != [] ==> Top(st).base + Shr(i, Top(st).w) < |heap|
  {
    if st == [] then HeapWithRoot(heap, bits) else HeapWithTable(heap, Top(st), Shr(i, Top(st).w), bits, l)
  }

  lemma AfterTable(heap: seq<Huft>, st: seq<Level>, j: Job, k: nat, r: nat, i: nat, p: nat, depth: nat, pr: Progress,
                   d: Level)
    requires JobOk(j) && NeedsTable(heap, st, j, k, r, i, p, depth, pr)
    requires st != [] ==> CanLink(heap, st, j, k, i, p)
    requires d == Level(|heap| + 1, d.bits, i, NextDepth(st, j.l))
    requires SizedFor(j, d.w, d.bits, d.pat) && SizeFacts(j, k, r, d)
    ensures Making(HeapAfter(heap, st, i, d.bits, j.l), st + [d], j, k, r, i, p, depth,
                   if st == [] then AllFit else Advance(pr, st, j.l, d.bits, i))
    ensures Extends(heap, HeapAfter(heap, st, i, d.bits, j.l))
  {
    hide Shl, Rev, Low, Shr, Pow2;
    var after := HeapAfter(heap, st, i, d.bits, j.l);
    if st == [] {
      assert st + [d] == [d];
      RootMid(heap, after, j, k, d);
      RootTrack(after, d, j, k);
    } else {
      MakingStep(heap, after, st, j, k, r, i, p, d, depth, pr);
    }
  }

  lemma SlotStep(j: nat, s: nat, n: nat)
    requires j < s < j + Pow2(n)
    ensures Low(s, n) != Low(j, n)
  {
    hide Shl, Rev, Low, Shr, Pow2;
    if Low(s, n) == Low(j, n) {
      LowShr(s, n);
      LowShr(j, n);
      ShlMono(Shr(j, n), Shr(s, n), n);
      ShlMono(Shr(j, n) + 1, Shr(s, n), n);
      ShlAdd(Shr(j, n), 1, n);
      ShlOne(n);
    }
  }

  lemma SlotNext(j: nat, n: nat)
    ensures Low(j + Pow2(n), n) == Low(j, n)
  {
    hide Shl, Rev, Low, Shr, Pow2;
    LowShr(j, n);
    LowBound(j, n);
    ShlAdd(Shr(j, n), 1, n);
    ShlOne(n);
    LowShrUnique(Low(j, n), Shr(j, n) + 1, n);
  }

  // ----- one code as a whole

  /** Where the program looks in v[] for the `rank`-th code of length `k`: it stops counting at the symbol count. */
  function SymbolIndex(j: Job, k: nat, rank: nat): nat
    requires |j.c| == BMAX + 1 && k <= BMAX
  {
    var s := Start(j.c, k) + rank;
    if s < |j.lens| then s else |j.lens|
  }

  lemma SymbolAt(j: Job, v: seq<Option<nat>>, k: nat, rank: nat)
    requires JobOk(j) && Sorted(j.lens, v) && 0 < k <= j.g && rank < j.c[k]
    ensures rank < Count(j.lens, k) ==>
      var s := SymbolIndex(j, k, rank);
      s < |j.lens| && v[s] == Some(SymAt(j.lens, k, rank))
    ensures rank >= Count(j.lens, k) && 0 !in j.lens ==> SymbolIndex(j, k, rank) == |j.lens|
    ensures rank >= Count(j.lens, k) ==> SymbolIndex(j, k, rank) < |j.lens| ==> v[SymbolIndex(j, k, rank)] == None
  {
    var c := Counts(j.lens);
    StartSame(c, j.c, j.g, k);
    if rank < Count(j.lens, k) {
      assert Slot(j.lens, k, rank) < |j.lens|;
    } else {
      assert k == j.g;
      CountsTotal(j.lens);
      CountZero(j.lens, 0);
      StartAfter(j, BMAX + 1);
    }
  }

  lemma {:induction false} StartAfter(j: Job, k: nat)
    requires JobOk(j) && j.g < k <= BMAX + 1
    ensures Start(Counts(j.lens), k) == Start(Counts(j.lens), j.g) + Count(j.lens, j.g)
  {
    if k > j.g + 1 {
      StartAfter(j, k - 1);
      assert j.c[k - 1] == 0;
    }
  }

  /** What is left of the invariant once every code has been entered, or still is in between. */
  ghost predicate Between(heap: seq<Huft>, st: seq<Level>, j: Job, k: nat, i: nat, p: nat, pr: Progress)
    requires JobOk(j)
  {
    if st == [] then i == 0 && p == 0 && pr == AllFit
    else if p < Pow2(SCALE) then Head(heap, st, j, k, i, p) && Track(heap, st, j, k, p, pr)
    else Final(heap, st[0].base, j, p, pr)
  }

  ghost predicate Final(heap: seq<Huft>, root: nat, j: Job, p: nat, pr: Progress)
    requires JobOk(j)
  {
    match pr
    case AllFit => Correct(heap, root, j, p) && Seen(j, p)
    case Oversize => false
    case Lost(x, cell) => !Fits(j.c, j.l) && Walk(heap, root, j.l, x) == Stuck(cell)
  }

  lemma CodeFits(heap: seq<Huft>, st: seq<Level>, j: Job, k: nat, r: nat, i: nat, p: nat, depth: nat, pr: Progress)
    requires JobOk(j) && Making(heap, st, j, k, r, i, p, depth, pr) && k <= Top(st).w + j.l
    ensures CanFill(heap, st, j, k, i, p)
    ensures Top(st).w < k <= Top(st).w + Top(st).bits && i < Pow2(k)
    ensures Top(st).base + Pow2(Top(st).bits) <= |heap|
  {
    FillAllowed(heap, st, j, k, r, i, p);
    assert LevelOk(heap, Top(st), j.l, j.c);
  }

  /** The code has been entered and `i'` is the next one. */
  lemma CodeEntered(heap: seq<Huft>, after: seq<Huft>, st: seq<Level>, j: Job, k: nat, rank: nat, i: nat, p: nat, r: Huft,
                    depth: nat, pr: Progress, i': nat)
    requires JobOk(j) && Making(heap, st, j, k, rank, i, p, depth, pr) && CanFill(heap, st, j, k, i, p)
    requires Filled(heap, after, Top(st), k - Top(st).w, Shr(i, Top(st).w), r)
    requires EntryOk(j, k, rank, Top(st).w, r)
    requires i' < Pow2(k)
    requires Rev(k, i) + 1 < Pow2(k) ==> Rev(k, i') == Rev(k, i) + 1
    requires Rev(k, i) + 1 == Pow2(k) ==> i' == 0
    ensures CanBackup(after, st, j, k, i', p, p + Pow2(SCALE - k), pr)
    ensures Extends(heap, after)
  {
    hide Shl, Rev, Low, Shr, Pow2, Used, Blank, Extends, Filled, EntryOk;
    FillEnters(heap, after, st, j, k, i, p, r);
    RootFull(heap, st, j);
    FillKeepsTrack(heap, after, st, j, k, rank, i, p, r, depth, pr);
    BeforeEnd(j.c, k, rank);
    NextCodePos(k, i, i');
  }

  lemma NextCodePos(k: nat, i: nat, i': nat)
    requires 0 < k <= SCALE && i < Pow2(k)
    requires Rev(k, i) + 1 < Pow2(k) ==> Rev(k, i') == Rev(k, i) + 1
    ensures CodePos(k, i) + Pow2(SCALE - k) < Pow2(SCALE) ==> CodePos(k, i') == CodePos(k, i) + Pow2(SCALE - k)
  {
    hide Shl, Rev, Low, Shr, Pow2;
    var z := SCALE - k;
    ShlAdd(Rev(k, i), 1, z);
    ShlOne(z);
    ShlPow2(k, z);
    RevBound(k, i);
    ShlMono(Rev(k, i) + 1, Pow2(k), z);
  }

  /** An oversize table is never the last to be filled: its own codes do not reach the end. */
  lemma PendingNotLast(heap: seq<Huft>, st: seq<Level>, j: Job, k: nat, i: nat, p: nat, p': nat)
    requires JobOk(j) && CanBackup(heap, st, j, k, i, p, p', Oversize)
    ensures p' < Pow2(SCALE)
  {
    hide Shl, Rev, Low, Shr, Pow2;
    var v := Top(st);
    UsedMono(j.c, k, v.w + j.l);
    assert LevelOk(heap, v, j.l, j.c);
    RevBound(v.w, v.pat);
    HiAsShift(v);
    ShlMono(Rev(v.w, v.pat) + 1, Pow2(v.w), SCALE - v.w);
    ShlPow2(v.w, SCALE - v.w);
  }

  lemma CodeDone(heap: seq<Huft>, st0: seq<Level>, st: seq<Level>, j: Job, k: nat, i: nat, p: nat, p': nat, pr: Progress)
    requires JobOk(j) && CanBackup(heap, st0, j, k, i, p, p', pr)
    requires 0 < |st| <= |st0| && st == st0[..|st|]
    requires Low(i, Top(st).w) == Top(st).pat
    requires p' < Pow2(SCALE) ==> i < Pow2(Top(st).w + j.l) && (pr.Oversize? ==> |st| == |st0|)
    ensures Between(heap, st, j, k, i, p', pr)
  {
    hide Shl, Rev, Low, Shr, Pow2;
    if p' < Pow2(SCALE) {
      BackupDone(heap, st0, st, j, k, i, p, p', pr);
    } else {
      if pr.Oversize? {
        PendingNotLast(heap, st0, j, k, i, p, p');
      }
      assert st[0] == st0[0];
    }
  }

  lemma ExtendsSelf(heap: seq<Huft>)
    ensures Extends(heap, heap)
  {
  }

  // ----- from one length to the next

  function NextIndex(j: Job, k: nat): nat
    requires |j.c| == BMAX + 1 && 0 < k <= BMAX + 1
  {
    var s := Start(j.c, k);
    if s < |j.lens| then s else |j.lens|
  }

  lemma FirstPosition(j: Job, k0: nat)
    requires JobOk(j) && 0 < k0 <= j.g && forall q :: 0 < q < k0 ==> j.c[q] == 0
    ensures End(j.c, k0 - 1) == 0 && NextIndex(j, k0) == 0
  {
    FirstSums(j.c, k0);
    ShlOne(SCALE - k0 + 1);
  }

  lemma {:induction false} FirstSums(c: seq<nat>, k0: nat)
    requires |c| == BMAX + 1 && 0 < k0 <= BMAX && forall q :: 0 < q < k0 ==> c[q] == 0
    ensures Used(c, k0 - 1) == 0 && Start(c, k0) == 0
  {
    if k0 > 1 {
      FirstSums(c, k0 - 1);
    }
  }

  /** The first code of a length starts where the shorter codes end. */
  lemma LengthStart(j: Job, k: nat)
    requires JobOk(j) && 0 < k <= j.g
    ensures Pos(j.c, k, 0) == End(j.c, k - 1)
    ensures Pos(j.c, k, j.c[k]) == End(j.c, k)
    ensures SymbolIndex(j, k, 0) == NextIndex(j, k) && SymbolIndex(j, k, j.c[k]) == NextIndex(j, k + 1)
  {
    Doubled(Used(j.c, k - 1), SCALE - k);
  }

  /** While a code is left, its position is before the end. */
  lemma NotYetDone(j: Job, k: nat, r: nat)
    requires JobOk(j) && 0 < k <= j.g && r < j.c[k]
    ensures Pos(j.c, k, r) < Pow2(SCALE)
  {
    hide Shl, Pow2;
    BeforeEnd(j.c, k, r);
    UsedMono(j.c, k, j.g);
    CompleteEnd(j.lens, j.c, j.g);
  }

  lemma BetweenStarts(heap: seq<Huft>, st: seq<Level>, j: Job, k: nat, r: nat, i: nat, p: nat, pr: Progress)
    requires JobOk(j) && 0 < k <= j.g && r < j.c[k] && p == Pos(j.c, k, r) < Pow2(SCALE)
    requires Between(heap, st, j, k, i, p, pr)
    ensures Starting(heap, st, j, k, r, i, p, pr)
  {
  }

  /** The next code of a greater length is the same code followed by a zero. */
  lemma BetweenLonger(heap: seq<Huft>, st: seq<Level>, j: Job, k: nat, i: nat, p: nat, pr: Progress)
    requires JobOk(j) && 0 < k <= j.g && Between(heap, st, j, k, i, p, pr)
    requires p == End(j.c, k)
    ensures Between(heap, st, j, k + 1, i, p, pr)
  {
    hide Shl, Rev, Low, Shr, Pow2;
    if st != [] && p < Pow2(SCALE) {
      if k == j.g {
        CompleteEnd(j.lens, j.c, j.g);
        assert false;
      }
      RevShort(k, 1, i);
      ShlShl(Rev(k, i), 1, SCALE - k - 1);
      Pow2Mono(k, k + 1);
    }
  }

  lemma AllDone(heap: seq<Huft>, st: seq<Level>, j: Job, i: nat, p: nat, pr: Progress)
    requires JobOk(j) && st != [] && Between(heap, st, j, j.g + 1, i, p, pr) && p == End(j.c, j.g)
    ensures Final(heap, st[0].base, j, Pow2(SCALE), pr)
  {
    CompleteEnd(j.lens, j.c, j.g);
  }

  // ----- the result

  /** The condition on the lengths themselves and the look-up bits asked for: something a caller could check. */
  ghost predicate FitsLengths(lens: seq<nat>, m: nat)
    requires ValidLengths(lens)
  {
    Used(Counts(lens), MaxLen(lens)) <= Pow2(MaxLen(lens)) ==>
      Fits(FullCounts(lens), Clamp(m, MinLen(lens), MaxLen(lens)))
  }

  lemma SomeLength(b: seq<nat>)
    requires ValidLengths(b) && Count(b, 0) != |b|
    ensures exists k :: 0 < k <= BMAX && Counts(b)[k] > 0
  {
    if forall k :: 0 < k <= BMAX ==> Counts(b)[k] == 0 {
      NoneCounted(b, BMAX + 1);
      CountsTotal(b);
    }
  }

  lemma {:induction false} NoneCounted(b: seq<nat>, k: nat)
    requires k <= BMAX + 1 && forall q :: 0 < q <= BMAX ==> Counts(b)[q] == 0
    ensures Start(Counts(b), k) == 0
  {
    if k > 1 {
      NoneCounted(b, k - 1);
    }
  }

  lemma {:induction false} AllCounted(b: seq<nat>, s: nat)
    requires s < |b| && Count(b, 0) == |b|
    ensures b[s] == 0
  {
    var last := |b| - 1;
    if s < last {
      AllCounted(b[..last], s);
    }
  }

  /** Without any code the null table is as good as the canonical code: neither says anything. */
  lemma AllZero(b: seq<nat>, coding: Coding, heap: seq<Huft>, m: nat)
    requires ValidLengths(b) && ValidCoding(b, coding) && Count(b, 0) == |b|
    ensures MaxLen(b) == 0 && Used(Counts(b), BMAX) == 0 && TableFor(heap, 0, 0, b, coding)
    ensures KraftSum(b) == 0 && 0 in b
  {
    forall s | 0 <= s < |b|
      ensures b[s] == 0
    {
      AllCounted(b, s);
    }
    forall x: nat
      ensures DecodeSym(b, x) == Undefined
    {
      assert b[0] in b;
    }
    forall q | 0 < q <= BMAX
      ensures Counts(b)[q] == 0
    {
      CountZero(b, q);
    }
    NothingUsed(b, BMAX);
    KraftIsUsed(b);
  }

  lemma {:induction false} NothingUsed(b: seq<nat>, k: nat)
    requires k <= BMAX && forall q :: 0 < q <= BMAX ==> Counts(b)[q] == 0
    ensures Used(Counts(b), k) == 0
  {
    if k != 0 {
      NothingUsed(b, k - 1);
    }
  }

  lemma OffsetsSame(c: seq<nat>, c0: seq<nat>, g: nat)
    requires |c| == |c0| == BMAX + 1 && 0 < g <= BMAX && forall i :: 0 <= i <= BMAX && i != g ==> c[i] == c0[i]
    ensures forall k: nat :: 0 < k <= g ==> Start(c, k) == Start(c0, k)
  {
    forall k: nat | 0 < k <= g
      ensures Start(c, k) == Start(c0, k)
    {
      StartSame(c, c0, g, k);
    }
  }

  /** For a complete set, and for one that gives every symbol a code, every stream has an answer. */
  lemma AlwaysDecodes(lens: seq<nat>, c: seq<nat>, g: nat, x: nat)
    requires ValidLengths(lens) && Completes(lens, c, g) && (c[g] == Count(lens, g) || 0 !in lens)
    ensures DecodeSym(lens, x) != Undefined
  {
    RevBound(SCALE, x);
    CompleteEnd(lens, c, g);
    var k, r := UnderSome(c, g, Rev(SCALE, x));
    DecodeUnder(lens, c, g, k, r, x);
  }

  /** Once every code has been seen to keep the condition, the condition holds. */
  lemma SeenAll(j: Job)
    requires JobOk(j) && Seen(j, Pow2(SCALE))
    ensures Fits(j.c, j.l)
  {
    forall w: nat, k: nat, r: nat | Opens(j.c, j.l, w, k, r)
      ensures Within(k - w, j.l, j.c[k] - r)
    {
      NotYetDone(j, k, r);
    }
  }

  lemma Built(heap: seq<Huft>, t: nat, j: Job, m: nat, pr: Progress)
    requires JobOk(j) && Final(heap, t, j, Pow2(SCALE), pr)
    requires j.g == MaxLen(j.lens) && j.l == Clamp(m, MinLen(j.lens), j.g)
    requires Used(Counts(j.lens), j.g) <= Pow2(j.g) && j.c == FullCounts(j.lens)
    ensures FitsLengths(j.lens, m) ==> TableFor(heap, t, j.l, j.lens, j.coding)
    ensures KraftSum(j.lens) == Pow2(BMAX) || 0 !in j.lens ==>
      TableFor(heap, t, j.l, j.lens, j.coding) ==> FitsLengths(j.lens, m)
  {
    hide Shl, Rev, Low, Shr, Pow2, Used;
    assert FitsLengths(j.lens, m) <==> Fits(j.c, j.l);
    match pr {
      case AllFit =>
        SeenAll(j);
        forall x: nat
          ensures Agrees(Walk(heap, t, j.l, x), j.lens, j.coding, DecodeSym(j.lens, x))
        {
          RevBound(SCALE, x);
        }
      case Lost(x, cell) =>
        KraftIsUsed(j.lens);
        LongestOf(j.lens);
        ShareAtEnd(Counts(j.lens), j.g);
        if KraftSum(j.lens) == Pow2(BMAX) || 0 !in j.lens {
          AlwaysDecodes(j.lens, j.c, j.g, x);
          assert !Agrees(Walk(heap, t, j.l, x), j.lens, j.coding, DecodeSym(j.lens, x));
        }
    }
  }

  /**
   In right tables for a complete set, or for one that gives every symbol a code, no walk comes to a cell that was not
   written: every slot that can be reached is filled.
   */
  lemma NeverStuck(heap: seq<Huft>, t: nat, look: nat, lens: seq<nat>, coding: Coding, x: nat)
    requires ValidLengths(lens) && ValidCoding(lens, coding) && MaxLen(lens) > 0 && TableFor(heap, t, look, lens, coding)
    requires KraftSum(lens) == Pow2(BMAX) || (KraftSum(lens) < Pow2(BMAX) && 0 !in lens)
    ensures Walk(heap, t, look, x).Hit?
  {
    hide Pow2, Used, KraftSum, DecodeSym, Walk;
    var g := MaxLen(lens);
    LongestOf(lens);
    KraftIsUsed(lens);
    ShareAtEnd(Counts(lens), g);
    FilledCompletes(lens, Counts(lens), g, Pow2(g) - Used(Counts(lens), g));
    AlwaysDecodes(lens, FullCounts(lens), g, x);
    assert Agrees(Walk(heap, t, look, x), lens, coding, DecodeSym(lens, x));
  }

  /** Tables stay right when more are allocated. */
  lemma TableForExtends(heap: seq<Huft>, after: seq<Huft>, t: nat, look: nat, lens: seq<nat>, coding: Coding)
    requires ValidCoding(lens, coding) && TableFor(heap, t, look, lens, coding) && Extends(heap, after)
    ensures TableFor(after, t, look, lens, coding)
  {
    forall x: nat
      ensures Agrees(Walk(after, t, look, x), lens, coding, DecodeSym(lens, x))
    {
      assert Agrees(Walk(heap, t, look, x), lens, coding, DecodeSym(lens, x));
      WalkExtends(heap, after, t, look, x);
    }
  }

  lemma LongestOf(lens: seq<nat>)
    requires ValidLengths(lens) && MaxLen(lens) > 0
    ensures Longest(Counts(lens), MaxLen(lens))
  {
    forall k | 0 < k <= BMAX
      ensures Counts(lens)[k] == 0 <==> k !in lens
    {
      CountZero(lens, k);
    }
  }

  // ----- how often cells are written

  /** How many cells have been written. */
  function SetCells(heap: seq<Huft>): nat {
    if |heap| == 0 then 0
    else SetCells(heap[..|heap| - 1]) + (if heap[|heap| - 1] == Unset then 0 else 1)
  }

  lemma {:induction false} SetCellsStore(heap: seq<Huft>, cell: nat, r: Huft)
    requires cell < |heap| && heap[cell] == Unset && r != Unset
    ensures SetCells(heap[cell := r]) == SetCells(heap) + 1
  {
    var last := |heap| - 1;
    if cell == last {
      assert heap[cell := r][..last] == heap[..last];
    } else {
      SetCellsStore(heap[..last], cell, r);
      assert heap[cell := r][..last] == heap[..last][cell := r];
    }
  }

  lemma {:induction false} SetCellsBlanks(heap: seq<Huft>, n: nat)
    ensures SetCells(heap + Blanks(n)) == SetCells(heap)
  {
    if n == 0 {
      assert heap + Blanks(n) == heap;
    } else {
      SetCellsBlanks(heap, n - 1);
      assert (heap + Blanks(n))[..|heap| + n - 1] == heap + Blanks(n - 1);
    }
  }

  /** The part of the C program's heap that holds Huffman tables. */
  class Tables {
    var heap: seq<Huft>
    var hufts: nat // cells allocated for the current block (inflate.c:275)
    ghost var writes: nat

    constructor ()
      ensures heap == [] && hufts == 0 && Rewrites() == 0
    {
      hide Shl, Rev, Low, Shr, Pow2;
      heap, hufts, writes := [], 0, 0;
    }

    /** Writes beyond one for each cell that has been written. */
    ghost function Rewrites(): int
      reads this`heap, this`writes
    {
      writes - SetCells(heap)
    }

    method Store(cell: nat, r: Huft)
      requires cell < |heap| && heap[cell] == Unset && r != Unset
      modifies this`heap, this`writes
      ensures heap == old(heap)[cell := r] && writes == old(writes) + 1 && Rewrites() == old(Rewrites())
    {
      SetCellsStore(heap, cell, r);
      heap := heap[cell := r];
      writes := writes + 1;
    }

    /** malloc.c:18-37, in cells: the next cells past all others. */
    method Malloc(n: nat) returns (p: nat)
      modifies this`heap
      ensures p == |old(heap)| && heap == old(heap) + Blanks(n) && Rewrites() == old(Rewrites())
    {
      hide Shl, Rev, Low, Shr, Pow2;
      SetCellsBlanks(heap, n);
      p := |heap|;
      heap := heap + Blanks(n);
    }

    /** malloc.c:8-16: everything allocated since the mark is given back at once. */
    method MallocRelease(mark: nat)
      requires mark <= |heap|
      modifies this`heap
      ensures heap == old(heap)[..mark]
    {
      hide Shl, Rev, Low, Shr, Pow2;
      heap := heap[..mark];
    }

    /** inflate.c:424-445: memory for the table, and the link to it from the table above, if there is one. */
    method PlaceTable(l: nat, bits: nat, i: nat, st0: seq<Level>) returns (q: nat)
      requires st0 != [] ==> LinkVacant(heap, st0, i)
      modifies this
      ensures q == |old(heap)| + 1 && heap == HeapAfter(old(heap), st0, i, bits, l) && Rewrites() == old(Rewrites())
    {
      hide Shl, Rev, Low, Shr, Pow2, Rewrites;
      var z := Pow2(bits);
      q := Malloc(z + 1);
      hufts := hufts + z + 1;
      q := q + 1;
      if st0 != [] {
        Store(Top(st0).base + Shr(i, Top(st0).w), Huft(16 + bits, l, q));
      }
    }

    /** inflate.c:401-446: one table for the code `i` of `k` bits, linked to the table above it. */
    method AddTable(ghost j: Job, c: seq<nat>, g: nat, l: nat, k: nat, a: nat, i: nat, st0: seq<Level>,
                    ghost p: nat, ghost depth: nat, ghost pr0: Progress)
      returns (st: seq<Level>, ghost pr: Progress)
      requires JobOk(j) && j.c == c && j.g == g && j.l == l && 0 < k <= g && a < c[k]
      requires NeedsTable(heap, st0, j, k, c[k] - 1 - a, i, p, depth, pr0)
      modifies this
      ensures |st| == |st0| + 1 && st0 <= st && Top(st).w == NextDepth(st0, l)
      ensures Making(heap, st, j, k, c[k] - 1 - a, i, p, depth, pr)
      ensures Extends(old(heap), heap) && Rewrites() == old(Rewrites())
    {
      hide Shl, Rev, Low, Shr, Pow2, Rewrites, NeedsTable, Making, CanLink, HeapAfter, Extends, SizedFor, SizeFacts, Advance;
      var w := NextDepth(st0, l);
      BeforeTable(heap, st0, j, k, c[k] - 1 - a, i, p, depth, pr0, w);
      if st0 != [] {
        LinkIsVacant(heap, st0, j, k, i, p);
      }
      var bits := TableBits(j, c, g, l, k, a, w, Rev(w, i));
      ghost var before := heap;
      var q := PlaceTable(l, bits, i, st0);
      var d := Level(q, bits, i, w);
      st := st0 + [d];
      pr := if st0 == [] then AllFit else Advance(pr0, st0, l, bits, i);
      SizeInvariant(j, k, a, d);
      AfterTable(before, st0, j, k, c[k] - 1 - a, i, p, depth, pr0, d);
    }

    /** inflate.c:397-447: tables down to the level at which the code ends. `q` and `z` name the last one made. */
    method MakeTables(ghost j: Job, c: seq<nat>, g: nat, l: nat, k: nat, a: nat, i: nat, st0: seq<Level>,
                      q0: nat, z0: nat, ghost p: nat, ghost pr0: Progress)
      returns (st: seq<Level>, q: nat, z: nat, ghost pr: Progress)
      requires JobOk(j) && j.c == c && j.g == g && j.l == l && 0 < k <= g && a < c[k]
      requires Starting(heap, st0, j, k, c[k] - 1 - a, i, p, pr0)
      requires st0 != [] && k <= Top(st0).w + l ==> q0 == Top(st0).base && z0 == Pow2(Top(st0).bits)
      modifies this
      ensures st0 <= st && 0 < |st| && k <= Top(st).w + l
      ensures q == Top(st).base && z == Pow2(Top(st).bits)
      ensures Making(heap, st, j, k, c[k] - 1 - a, i, p, |st0|, pr)
      ensures Extends(old(heap), heap) && Rewrites() == old(Rewrites())
    {
      hide Shl, Rev, Low, Shr, Pow2, Rewrites;
      st, q, z, pr := st0, q0, z0, pr0;
      while st == [] || k > Top(st).w + l
        invariant st0 <= st
        invariant st == [] ==> st0 == [] && Starting(heap, st, j, k, c[k] - 1 - a, i, p, pr)
        invariant st != [] ==> Making(heap, st, j, k, c[k] - 1 - a, i, p, |st0|, pr)
        invariant st != [] && k <= Top(st).w + l ==> q == Top(st).base && z == Pow2(Top(st).bits)
        invariant Extends(old(heap), heap) && Rewrites() == old(Rewrites())
        decreases if st == [] then k + 1 else k - Top(st).w
      {
        ghost var before := heap;
        st, pr := AddTable(j, c, g, l, k, a, i, st, p, |st0|, pr);
        q, z := Top(st).base, Pow2(Top(st).bits);
        ExtendsTrans(old(heap), before, heap);
      }
    }

    /** inflate.c:468-470: every slot of the table whose low bits are the rest of the code. */
    method Fill(ghost v: Level, q: nat, z: nat, k: nat, w: nat, i: nat, r: Huft)
      requires q == v.base && z == Pow2(v.bits) && w < k <= w + v.bits && q + z <= |heap| && i < Pow2(k)
      requires r != Unset && Vacant(heap, v, k - w, Shr(i, w))
      modifies this`heap, this`writes
      ensures Filled(old(heap), heap, v, k - w, Shr(i, w), r) && Rewrites() == old(Rewrites())
    {
      hide Shl, Rev, Low, Shr, Pow2, Rewrites;
      ghost var before, lo, n := heap, Shr(i, w), k - w;
      CodeTail(i, w, k);
      ShrBound(i, w, n);
      var f := Pow2(k - w);
      var j := Shr(i, w);
      forall s: nat | s < lo
        ensures Low(s, n) != lo
      {
        SmallLow(s, n);
      }
      while j < z
        invariant |heap| == |before| && Low(j, n) == lo && lo <= j
        invariant forall cell: nat :: cell < |before| ==>
          heap[cell] == if q <= cell < q + z && cell < q + j && Low(cell - q, n) == lo then r else before[cell]
        invariant Rewrites() == old(Rewrites())
        decreases z - j
      {
        forall s: nat | j < s < j + f
          ensures Low(s, n) != lo
        {
          SlotStep(j, s, n);
        }
        VacantAt(before, v, n, lo, j);
        Store(q + j, r);
        SlotNext(j, n);
        j := j + f;
      }
    }

    /** inflate.c:450-464: the table entry for the next symbol, or for an unused code. */
    method MakeEntry(ghost j: Job, n: nat, coding: Coding, v: seq<Option<nat>>, index0: nat, k: nat, w: nat, ghost rank: nat)
      returns (r: Huft, index: nat)
      requires JobOk(j) && n == |j.lens| && coding == j.coding && Sorted(j.lens, v)
      requires w < k <= j.g && rank < j.c[k] && index0 == SymbolIndex(j, k, rank)
      ensures EntryOk(j, k, rank, w, r) && index == SymbolIndex(j, k, rank + 1)
      ensures r != Unset && (r.Huft? ==> r.e <= 16 || r.e == 99)
    {
      SymbolAt(j, v, k, rank);
      index := index0;
      if index >= n {
        r := Huft(99, k - w, 0); // the C program leaves v as it was; nothing reads it
      } else {
        match v[index] {
          case None => r := Junk; // a value the C program never set
          case Some(sym) =>
            if sym < coding.s {
              r := Huft(if sym < 256 then 16 else 15, k - w, sym);
            } else {
              r := Huft(coding.e[sym - coding.s], k - w, coding.d[sym - coding.s]);
            }
        }
        index := index + 1;
      }
    }

    /** One round of the loop at inflate.c:393-484: make tables for the code `i`, enter it, step to the next. */
    method EnterCode(ghost j: Job, c: seq<nat>, g: nat, l: nat, n: nat, coding: Coding, v: seq<Option<nat>>,
                     k: nat, a: nat, i0: nat, st0: seq<Level>, q0: nat, z0: nat, index0: nat,
                     ghost p: nat, ghost pr0: Progress)
      returns (i: nat, st: seq<Level>, q: nat, z: nat, index: nat, ghost pr: Progress)
      requires JobOk(j) && j.c == c && j.g == g && j.l == l && n == |j.lens| && j.coding == coding && Sorted(j.lens, v)
      requires 0 < k <= g && a < c[k] && index0 == SymbolIndex(j, k, c[k] - 1 - a)
      requires Starting(heap, st0, j, k, c[k] - 1 - a, i0, p, pr0)
      requires st0 != [] && k <= Top(st0).w + l ==> q0 == Top(st0).base && z0 == Pow2(Top(st0).bits)
      modifies this
      ensures index == SymbolIndex(j, k, c[k] - a) && st != []
      ensures st0 != [] ==> st[0] == st0[0]
      ensures k <= Top(st).w + l ==> q == Top(st).base && z == Pow2(Top(st).bits)
      ensures Between(heap, st, j, k, i, p + Pow2(SCALE - k), pr)
      ensures Extends(old(heap), heap) && Rewrites() == old(Rewrites())
    {
      hide Shl, Rev, Low, Shr, Pow2, Rewrites, Vacant, Making, CanFill, CanBackup, Between, Filled, Extends, EntryOk, Track;
      hide Head, Mid, Starting, Sorted, SymbolIndex, Used, Start;
      var tables;
      tables, q, z, pr := MakeTables(j, c, g, l, k, a, i0, st0, q0, z0, p, pr0);
      ghost var made := heap;
      var top := Top(tables);
      CodeFits(heap, tables, j, k, c[k] - 1 - a, i0, p, |st0|, pr);
      var r;
      r, index := MakeEntry(j, n, coding, v, index0, k, top.w, c[k] - 1 - a);
      SlotsVacant(heap, tables, j, k, i0, p);
      Fill(top, q, z, k, top.w, i0, r);
      i := NextCode(k, i0);
      CodeEntered(made, heap, tables, j, k, c[k] - 1 - a, i0, p, r, |st0|, pr, i);
      BackupReady(heap, tables, j, k, i, p, p + Pow2(SCALE - k), pr);
      st := Backup(l, tables, k, i, p + Pow2(SCALE - k) < Pow2(SCALE), pr.Oversize?);
      CodeDone(heap, tables, st, j, k, i, p, p + Pow2(SCALE - k), pr);
      ExtendsTrans(old(heap), made, heap);
    }

    /** inflate.c:378-486: the main loop, from the shortest length `k0`. */
    method BuildTables(ghost j: Job, c: seq<nat>, g: nat, l: nat, n: nat, coding: Coding, v: seq<Option<nat>>, k0: nat)
      returns (root: nat, ghost pr: Progress)
      requires JobOk(j) && j.c == c && j.g == g && j.l == l && n == |j.lens| && j.coding == coding && Sorted(j.lens, v)
      requires 0 < k0 <= g && c[k0] > 0 && forall q :: 0 < q < k0 ==> c[q] == 0
      modifies this
      ensures Final(heap, root, j, Pow2(SCALE), pr)
      ensures Extends(old(heap), heap) && Rewrites() == old(Rewrites())
    {
      hide Shl, Rev, Low, Shr, Pow2, Rewrites, Extends, Track, Head, Mid, Sorted, Used, Start, Final;
      hide ValidLengths, ValidCoding;
      var i, st, q, z, index := 0, [], 0, 0, 0;
      ghost var p := 0;
      pr := AllFit;
      FirstPosition(j, k0);
      assert Extends(heap, heap) by { ExtendsSelf(heap); }
      var k := k0;
      while k <= g
        invariant k0 <= k <= g + 1
        invariant p == End(c, k - 1) && (st == [] <==> k == k0)
        invariant index == NextIndex(j, k)
        invariant Between(heap, st, j, k, i, p, pr)
        invariant st != [] && k <= Top(st).w + l ==> q == Top(st).base && z == Pow2(Top(st).bits)
        invariant Extends(old(heap), heap) && Rewrites() == old(Rewrites())
      {
        var a := c[k];
        LengthStart(j, k);
        while a > 0
          invariant a <= c[k]
          invariant p == Pos(c, k, c[k] - a) && (st == [] ==> k == k0 && a == c[k])
          invariant index == SymbolIndex(j, k, c[k] - a)
          invariant Between(heap, st, j, k, i, p, pr)
          invariant st != [] && k <= Top(st).w + l ==> q == Top(st).base && z == Pow2(Top(st).bits)
          invariant Extends(old(heap), heap) && Rewrites() == old(Rewrites())
        {
          a := a - 1;
          ghost var before := heap;
          NotYetDone(j, k, c[k] - 1 - a);
          BetweenStarts(heap, st, j, k, c[k] - 1 - a, i, p, pr);
          i, st, q, z, index, pr := EnterCode(j, c, g, l, n, coding, v, k, a, i, st, q, z, index, p, pr);
          p := p + Pow2(SCALE - k);
          PosStep(c, k, c[k] - 1 - a);
          ExtendsTrans(old(heap), before, heap);
        }
        BetweenLonger(heap, st, j, k, i, p, pr);
        k := k + 1;
      }
      AllDone(heap, st, j, i, p, pr);
      root := st[0].base;
    }

    /**
     inflate.c:278-492. `r` is the C return value, `t` the root table (0 is null) and `look` the look-up bits
     handed back through *m. Memory never runs out, as malloc reports no failure.
     */
    method HuftBuild(b: seq<nat>, coding: Coding, m: nat) returns (r: nat, t: nat, look: nat)
      requires ValidLengths(b) && ValidCoding(b, coding)
      modifies this
      ensures Extends(old(heap), heap) && |heap| >= |old(heap)| && Rewrites() == old(Rewrites())
      ensures r == 2 <==> KraftSum(b) > Pow2(BMAX)
      ensures r == 1 <==> MaxLen(b) > 1 && KraftSum(b) < Pow2(BMAX)
      ensures r <= 2
      ensures MaxLen(b) == 0 ==> t == 0 && look == 0
      ensures r != 2 && MaxLen(b) > 0 ==> 0 < look == Clamp(m, MinLen(b), MaxLen(b)) <= BMAX
      ensures r != 2 && (MaxLen(b) == 0 || FitsLengths(b, m)) ==> TableFor(heap, t, look, b, coding)
      ensures KraftSum(b) == Pow2(BMAX) || (KraftSum(b) < Pow2(BMAX) && 0 !in b) ==>
        (TableFor(heap, t, look, b, coding) <==> FitsLengths(b, m))
    {
      hide Shl, Rev, Low, Shr, Pow2, Rewrites, Used, Start, TableFor, Final, Sorted, KraftSum, FitsLengths, Count;
      hide MaxLen, MinLen;
      assert Extends(heap, heap) by { ExtendsSelf(heap); }
      KraftIsUsed(b);
      var n := |b|;
      var c0 := CountLengths(b);
      if c0[0] == n {
        AllZero(b, coding, heap, m);
        return 0, 0, 0;
      }
      SomeLength(b);
      var k0, g, l := LengthBounds(c0, m);
      ExtremeLengths(b, k0, g);
      var over, y, c := FillOut(c0, k0, g);
      if over {
        return 2, 0, l;
      }
      FilledCompletes(b, c0, g, y);
      var x := Offsets(c, g);
      OffsetsSame(c, c0, g);
      var v := SortSymbols(b, g, x);
      ghost var j := Job(b, coding, c, g, l);
      ghost var pr;
      t, pr := BuildTables(j, c, g, l, n, coding, v, k0);
      Built(heap, t, j, m, pr);
      look := l;
      r := if y != 0 && g != 1 then 1 else 0;
    }
  }
}
