/**
 The multi-level lookup tables of inflate.c as cells of one growing heap, what walking them yields, and the
 invariant that huft_build keeps while it fills them. A table is named by the index of its first cell; index 0
 is the null pointer, because every table is preceded by a cell that links it into the list for huft_free.
 */
module HuftTables {
  import opened Bits
  import opened Huffman

  /**
   A cell: not written so far, written with a value that the program itself has not set, or `struct huft` with `v` either
   a number or a table.
   */
  datatype Huft = Unset | Junk | Huft(e: nat, b: nat, v: nat)

  /** What a walk ends in: an entry and the bits consumed, or a read of a cell that holds nothing. */
  datatype Walked = Hit(e: nat, v: nat, bits: nat) | Stuck(cell: nat)

  /**
   inflate.c:543-551: look up `look` bits, and while the entry is a link drop its bits and follow it. Dropping more
   bits than were looked up, or looking up more than mask_bits has masks for, would be an error too; so that a walk
   that hits says more, it must also drop something at each entry, and at a link all that was looked up.
   */
  function Walk(heap: seq<Huft>, t: nat, look: nat, x: nat): Walked
    decreases |heap| - t
  {
    var cell := t + Low(x, look);
    if t == 0 || cell >= |heap| || !heap[cell].Huft? then Stuck(cell)
    else
      var r := heap[cell];
      if r.b == 0 || r.b > look then Stuck(cell)
      else if r.e <= 16 || r.e == 99 then Hit(r.e, r.v, r.b)
      else if r.b != look || r.e > 16 + BMAX || r.v <= t || r.v >= |heap| then Stuck(cell)
      else
        match Walk(heap, r.v, r.e - 16, Shr(x, r.b))
        case Hit(e, v, bits) => Hit(e, v, r.b + bits)
        case Stuck(c) => Stuck(c)
  }

  /** `after` has everything `before` had: cells are only ever filled in, and only appended. */
  ghost predicate Extends(before: seq<Huft>, after: seq<Huft>) {
    |before| <= |after| && forall j :: 0 <= j < |before| && before[j] != Unset ==> after[j] == before[j]
  }

  lemma {:induction false} WalkExtends(before: seq<Huft>, after: seq<Huft>, t: nat, look: nat, x: nat)
    requires Extends(before, after)
    ensures Walk(before, t, look, x).Hit? ==> Walk(after, t, look, x) == Walk(before, t, look, x)
    decreases |before| - t
  {
    hide Shl, Rev, Low, Shr, Pow2;
    var cell := t + Low(x, look);
    if t == 0 || cell >= |before| || !before[cell].Huft? {
    } else {
      var r := before[cell];
      if r.b == 0 || r.b != look || r.e <= 16 || r.e == 99 || r.e > 16 + BMAX || r.v <= t || r.v >= |before| {
      } else {
        WalkExtends(before, after, r.v, r.e - 16, Shr(x, r.b));
      }
    }
  }

  // ----- the entries huft_build makes

  /** How symbols become entries: the first `s` stand for themselves, the others index `d` and `e`. */
  datatype Coding = Coding(s: nat, d: seq<nat>, e: seq<nat>)

  ghost predicate ValidCoding(lens: seq<nat>, k: Coding) {
    |k.d| == |k.e| && |lens| <= k.s + |k.d| && forall j :: 0 <= j < |k.e| ==> k.e[j] < 15 || k.e[j] == 99
  }

  function EntryE(k: Coding, sym: nat): nat
    requires sym < k.s + |k.e|
  {
    if sym < k.s then (if sym < 256 then 16 else 15) else k.e[sym - k.s]
  }

  function EntryV(k: Coding, sym: nat): nat
    requires sym < k.s + |k.d|
  {
    if sym < k.s then sym else k.d[sym - k.s]
  }

  /** A walk that answers as the canonical code does. */
  ghost predicate Agrees(w: Walked, lens: seq<nat>, k: Coding, dec: Symbol)
    requires ValidCoding(lens, k)
  {
    match dec
    case Sym(s) => s < |lens| && w == Hit(EntryE(k, s), EntryV(k, s), lens[s])
    case NoCode => w.Hit? && w.e == 99
    case Undefined => true
  }

  /** The table at `t`, looked up with `look` bits, decodes every stream as the canonical code does. */
  ghost predicate TableFor(heap: seq<Huft>, t: nat, look: nat, lens: seq<nat>, k: Coding)
    requires ValidCoding(lens, k)
  {
    forall x: nat :: Agrees(Walk(heap, t, look, x), lens, k, DecodeSym(lens, x))
  }

  // ----- the stack of unfinished tables

  /** One table under construction: first cell u[h], index bits, the pattern x[h] leading to it, and its bits w. */
  datatype Level = Level(base: nat, bits: nat, pat: nat, w: nat)

  /** The positions a table covers. */
  function Lo(v: Level): nat
    requires v.w <= SCALE
  {
    Shl(Rev(v.w, v.pat), SCALE - v.w)
  }

  function Hi(v: Level): nat
    requires v.w <= SCALE
  {
    Lo(v) + Pow2(SCALE - v.w)
  }

  /** The first position that slot `s` covers. */
  function SlotPos(v: Level, s: nat): nat
    requires v.w + v.bits <= SCALE
  {
    Lo(v) + Shl(Rev(v.bits, s), SCALE - v.w - v.bits)
  }

  /** No slot at or after position `p` has been written. */
  ghost predicate Blank(heap: seq<Huft>, v: Level, p: nat)
    requires v.w + v.bits <= SCALE
  {
    forall s: nat :: s < Pow2(v.bits) && SlotPos(v, s) >= p && v.base + s < |heap| ==> heap[v.base + s].Unset?
  }

  ghost predicate LevelOk(heap: seq<Huft>, v: Level, l: nat, c: seq<nat>)
    requires |c| == BMAX + 1
  {
    && 0 < v.base && v.base + Pow2(v.bits) <= |heap|
    && 0 < v.bits && v.w + v.bits <= SCALE
    && v.pat < Pow2(v.w)
    // sizing: either a full table, or every code below it fits its bits
    && (v.bits >= l || (v.w + v.bits <= BMAX && Hi(v) <= End(c, v.w + v.bits)))
  }

  /** `d` hangs off `v` by one link. */
  ghost predicate Linked(heap: seq<Huft>, v: Level, d: Level, l: nat) {
    && d.w == v.w + l && d.bits <= BMAX
    && l <= v.bits
    && Low(d.pat, v.w) == v.pat
    && v.base + Pow2(v.bits) < d.base
    && Shr(d.pat, v.w) < Pow2(v.bits)
    && v.base + Shr(d.pat, v.w) < |heap|
    && heap[v.base + Shr(d.pat, v.w)] == Huft(16 + d.bits, l, d.base)
  }

  ghost predicate StackOk(heap: seq<Huft>, st: seq<Level>, l: nat, c: seq<nat>)
    requires |c| == BMAX + 1
  {
    && 0 < l
    && |st| > 0
    && st[0].w == 0
    && (forall t :: 0 <= t < |st| ==> LevelOk(heap, st[t], l, c))
    && (forall t :: 0 < t < |st| ==> Linked(heap, st[t - 1], st[t], l))
  }

  /** Position `p` lies inside every table of the stack. */
  ghost predicate Inside(st: seq<Level>, p: nat) {
    forall t :: 0 <= t < |st| ==> st[t].w <= SCALE && Lo(st[t]) <= p < Hi(st[t])
  }

  // ----- what the invariant gives

  function ShiftBits(w: Walked, n: nat): Walked {
    match w
    case Hit(e, v, bits) => Hit(e, v, n + bits)
    case Stuck(_) => w
  }

  /** The bits with which inflate_codes looks up the table at depth `t`: the root uses *m, the others their link. */
  function LookBits(st: seq<Level>, l: nat, t: nat): nat
    requires t < |st|
  {
    if t == 0 then l else st[t].bits
  }

  /** A stream that begins with the top table's pattern begins with every pattern below it. */
  lemma {:induction false} PatternsBelow(heap: seq<Huft>, st: seq<Level>, l: nat, t: nat, x: nat)
    requires t < |st| && forall u :: 0 < u < |st| ==> Linked(heap, st[u - 1], st[u], l)
    requires Low(x, st[|st| - 1].w) == st[|st| - 1].pat
    ensures Low(x, st[t].w) == st[t].pat && st[t].w <= st[|st| - 1].w
    decreases |st| - t
  {
    hide Shl, Rev, Low, Shr, Pow2;
    if t < |st| - 1 {
      PatternsBelow(heap, st, l, t + 1, x);
      assert Linked(heap, st[t], st[t + 1], l);
      LowOfLow(x, st[t].w, l);
    }
  }

  /** One link of a walk. */
  lemma WalkLink(heap: seq<Huft>, t: nat, look: nat, x: nat, bits: nat, next: nat)
    requires 0 < t < next < |heap| && t + Low(x, look) < |heap| && 0 < bits <= BMAX && 0 < look
    requires heap[t + Low(x, look)] == Huft(16 + bits, look, next)
    ensures Walk(heap, t, look, x) == ShiftBits(Walk(heap, next, bits, Shr(x, look)), look)
  {
  }

  /** A walk for a stream that begins with the pattern of `d` follows the link from `v` to `d`. */
  lemma WalkToChild(heap: seq<Huft>, v: Level, d: Level, l: nat, x: nat)
    requires 0 < v.base && 0 < d.bits && 0 < l && d.base < |heap| && Linked(heap, v, d, l)
    requires Low(x, d.w) == d.pat
    ensures Walk(heap, v.base, l, Shr(x, v.w)) == ShiftBits(Walk(heap, d.base, d.bits, Shr(x, d.w)), l)
  {
    hide Shl, Rev, Low, Shr, Pow2;
    LowOfLow(x, v.w, l);
    ShrShr(x, v.w, l);
    WalkLink(heap, v.base, l, Shr(x, v.w), d.bits, d.base);
  }

  lemma ShiftTwice(w: Walked, m: nat, n: nat)
    ensures ShiftBits(ShiftBits(w, m), n) == ShiftBits(w, n + m)
  {
  }

  /** A walk along the patterns of the stack arrives at the top table. */
  lemma {:induction false} WalkDown(heap: seq<Huft>, st: seq<Level>, l: nat, c: seq<nat>, t: nat, x: nat)
    requires |c| == BMAX + 1 && t < |st| && StackOk(heap, st, l, c)
    requires forall u :: 0 < u < |st| - 1 ==> st[u].bits == l
    requires Low(x, st[|st| - 1].w) == st[|st| - 1].pat
    ensures st[t].w <= st[|st| - 1].w
    ensures Walk(heap, st[t].base, LookBits(st, l, t), Shr(x, st[t].w))
         == ShiftBits(Walk(heap, st[|st| - 1].base, LookBits(st, l, |st| - 1), Shr(x, st[|st| - 1].w)),
                      st[|st| - 1].w - st[t].w)
    decreases |st| - t
  {
    hide Shl, Rev, Low, Shr, Pow2;
    var top := |st| - 1;
    if t < top {
      var v, d := st[t], st[t + 1];
      WalkDown(heap, st, l, c, t + 1, x);
      PatternsBelow(heap, st, l, t + 1, x);
      assert LevelOk(heap, v, l, c) && LevelOk(heap, d, l, c);
      assert Linked(heap, st[t + 1 - 1], st[t + 1], l);
      WalkToChild(heap, v, d, l, x);
      ShiftTwice(Walk(heap, st[top].base, LookBits(st, l, top), Shr(x, st[top].w)), st[top].w - d.w, l);
    }
  }

  lemma WalkFromRoot(heap: seq<Huft>, st: seq<Level>, l: nat, c: seq<nat>, x: nat)
    requires |c| == BMAX + 1 && StackOk(heap, st, l, c)
    requires forall u :: 0 < u < |st| - 1 ==> st[u].bits == l
    requires Low(x, st[|st| - 1].w) == st[|st| - 1].pat
    ensures var v := st[|st| - 1];
      Walk(heap, st[0].base, l, x)
      == ShiftBits(Walk(heap, v.base, if |st| == 1 then l else v.bits, Shr(x, v.w)), v.w)
  {
    WalkDown(heap, st, l, c, 0, x);
    assert Shr(x, 0) == x;
  }

  /** The position of a code of `k` bits written lowest bit first. */
  function CodePos(k: nat, i: nat): nat
    requires k <= SCALE
  {
    Shl(Rev(k, i), SCALE - k)
  }

  /** The program's pattern test is the question whether the code lies in the table's interval. */
  lemma PatternInside(v: Level, k: nat, i: nat)
    requires v.w <= k <= SCALE && v.pat < Pow2(v.w)
    ensures Low(i, v.w) == v.pat <==> Lo(v) <= CodePos(k, i) < Hi(v)
    ensures Low(i, v.w) == v.pat ==> CodePos(k, i) + Pow2(SCALE - k) <= Hi(v)
  {
    hide Shl, Rev, Low, Shr, Pow2;
    var n, z := k - v.w, SCALE - k;
    var a, b := Rev(v.w, v.pat), Rev(v.w, i);
    SmallLow(v.pat, v.w);
    RevSame(v.w, i, v.pat);
    RevPrefix(v.w, n, i);
    HiAsShift(v);
    ShlShl(a, n, z);
    ShlShl(a + 1, n, z);
    var code := Rev(k, i);
    ShlMono(Shl(a, n), code, z);
    ShlMono(code, Shl(a + 1, n), z);
    ShlMono(code + 1, Shl(a + 1, n), z);
    ShlAdd(code, 1, z);
    ShlOne(z);
    ShlMono(a, b + 1, n);
    ShlMono(b, a + 1, n);
    assert Shl(b, n) <= code < Shl(b + 1, n);
    if Lo(v) <= CodePos(k, i) < Hi(v) {
      ShlMono(a, b + 1, n);
      ShlMono(b, a + 1, n);
      assert a < b + 1 && b < a + 1;
    }
  }

  lemma HiAsShift(v: Level)
    requires v.w <= SCALE
    ensures Hi(v) == Shl(Rev(v.w, v.pat) + 1, SCALE - v.w)
  {
    hide Shl, Rev, Low, Shr, Pow2;
    ShlAdd(Rev(v.w, v.pat), 1, SCALE - v.w);
    ShlOne(SCALE - v.w);
  }

  /** A code that begins where a table's interval ends has nothing but zeros after the table's bits. */
  lemma CodeAtEdge(v: Level, k: nat, i: nat)
    requires v.w <= k <= SCALE && i < Pow2(k) && (CodePos(k, i) == Hi(v) || CodePos(k, i) == Lo(v))
    ensures i < Pow2(v.w)
  {
    hide Shl, Rev, Low, Shr, Pow2;
    var n, z := k - v.w, SCALE - k;
    HiAsShift(v);
    var a := if CodePos(k, i) == Hi(v) then Rev(v.w, v.pat) + 1 else Rev(v.w, v.pat);
    ShlShl(a, n, z);
    ShlMono(Shl(a, n), Rev(k, i), z);
    ShlMono(Rev(k, i), Shl(a, n), z);
    assert Rev(k, i) == Shl(a, n);
    RevSplit(v.w, n, i);
    var y := Shr(i, v.w);
    RevBound(n, y);
    LowShrUnique(Rev(n, y), Rev(v.w, i), n);
    Pow2Mono(0, n);
    LowShrUnique(0, a, n);
    assert Rev(n, y) == 0;
    RevZero(n);
    RevSame(n, y, 0);
    ShrZero(n);
    ShrBound(i, v.w, n);
    SmallLow(y, n);
    LowShr(i, v.w);
    ShlOne(v.w);
    LowBound(i, v.w);
  }

  /** Later lengths end at later positions. */
  lemma {:induction false} UsedMono(c: seq<nat>, k: nat, k': nat)
    requires |c| == BMAX + 1 && k <= k' <= BMAX
    ensures End(c, k) <= End(c, k')
    decreases k'
  {
    if k < k' {
      UsedMono(c, k, k' - 1);
      var u := Used(c, k' - 1);
      Doubled(u, SCALE - k');
      ShlMono(2 * u, Used(c, k'), SCALE - k');
    }
  }

  /** Sizing covers the codes below: a code inside a table fits the table's bits or the table is full size. */
  lemma SizingCovers(heap: seq<Huft>, v: Level, l: nat, c: seq<nat>, k: nat, r: nat)
    requires |c| == BMAX + 1 && LevelOk(heap, v, l, c) && 0 < k <= BMAX && r < c[k]
    requires Pos(c, k, r) < Hi(v)
    ensures v.bits >= l || k <= v.w + v.bits
  {
    if v.bits < l && k > v.w + v.bits {
      UsedMono(c, v.w + v.bits, k - 1);
      var u := Used(c, k - 1);
      Doubled(u, SCALE - k);
      ShlMono(2 * u, 2 * u + r, SCALE - k);
      assert false;
    }
  }

  /** The slots that the fill loop hits are those inside the code's interval. */
  lemma SlotInCode(v: Level, k: nat, i: nat, s: nat)
    requires v.w < k && v.w + v.bits <= SCALE && k <= v.w + v.bits && Low(i, v.w) == v.pat && v.pat < Pow2(v.w)
    requires Low(s, k - v.w) == Low(Shr(i, v.w), k - v.w)
    ensures CodePos(k, i) <= SlotPos(v, s) < CodePos(k, i) + Pow2(SCALE - k)
  {
    hide Shl, Rev, Low, Shr, Pow2;
    var n, z := k - v.w, SCALE - k;
    var q := v.bits - n;
    var y, a := Shr(i, v.w), Rev(v.w, v.pat);
    SmallLow(v.pat, v.w);
    RevSame(v.w, i, v.pat);
    RevSplit(v.w, n, i);
    ShlAdd(Shl(a, n), Rev(n, y), z);
    ShlShl(a, n, z);
    assert CodePos(k, i) == Lo(v) + Shl(Rev(n, y), z);
    RevSame(n, s, y);
    RevPrefix(n, q, s);
    var t, m := Rev(n, s), Rev(v.bits, s);
    ShlShl(t, q, z - q);
    ShlShl(t + 1, q, z - q);
    ShlMono(Shl(t, q), m, z - q);
    ShlMono(m, Shl(t + 1, q), z - q);
    ShlAdd(t, 1, z);
    ShlOne(z);
  }
}
