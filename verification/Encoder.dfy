/**
 Deflate streams as RFC 1951 lets an encoder write them: any list of stored, fixed and dynamic blocks, with matches and
 repeated code lengths. The reference decoder gives each of them its meaning back, whatever bytes follow.
 */
module Encoder {
  import opened Bits
  import opened Bytes
  import opened Huffman
  import opened Deflate
  import opened DeflateFacts
  import opened Inflate
  import opened Window

  // ----- numbers of some bits each, one after the other

  datatype Piece = Piece(value: nat, width: nat)

  function Pack(ps: seq<Piece>, rest: nat): nat {
    if |ps| == 0 then rest else ps[0].value + Shl(Pack(ps[1..], rest), ps[0].width)
  }

  function Width(ps: seq<Piece>): nat {
    if |ps| == 0 then 0 else ps[0].width + Width(ps[1..])
  }

  lemma {:induction false} PackAppend(a: seq<Piece>, b: seq<Piece>, rest: nat)
    ensures Pack(a + b, rest) == Pack(a, Pack(b, rest)) && Width(a + b) == Width(a) + Width(b)
  {
    hide Shl;
    if |a| == 0 {
      assert a + b == b;
    } else {
      PackAppend(a[1..], b, rest);
      assert (a + b)[1..] == a[1..] + b;
    }
  }

  lemma PackOne(p: Piece, rest: nat)
    ensures Pack([p], rest) == p.value + Shl(rest, p.width) && Width([p]) == p.width
  {
  }

  /** Reading the first of them. */
  lemma TakeOne(x: nat, pos: nat, p: Piece, rest: nat)
    requires Shr(x, pos) == Pack([p], rest) && p.value < Pow2(p.width)
    ensures Field(x, pos, p.width) == p.value && Shr(x, pos + p.width) == rest
  {
    hide Shl, Shr, Low, Pow2, Pack;
    PackOne(p, rest);
    LowShrUnique(p.value, rest, p.width);
    SmallLow(p.value, p.width);
    ShrShr(x, pos, p.width);
  }

  /** Reading the first and going on. */
  lemma TakeFirst(x: nat, pos: nat, p: Piece, ps: seq<Piece>, rest: nat)
    requires Shr(x, pos) == Pack([p] + ps, rest) && p.value < Pow2(p.width)
    ensures Field(x, pos, p.width) == p.value && Shr(x, pos + p.width) == Pack(ps, rest)
    ensures Width([p] + ps) == p.width + Width(ps)
  {
    hide Shl, Shr, Low, Pow2, Pack, Width;
    PackAppend([p], ps, rest);
    PackOne(p, Pack(ps, rest));
    TakeOne(x, pos, p, Pack(ps, rest));
  }

  // ----- symbols

  function SymPiece(lens: seq<nat>, s: nat): Piece
    requires s < |lens|
  {
    Piece(EncodeSym(lens, s), lens[s])
  }

  lemma TakeSym(lens: seq<nat>, s: nat, x: nat, pos: nat, ps: seq<Piece>, rest: nat)
    requires Usable(lens) && s < |lens| && lens[s] > 0 && Shr(x, pos) == Pack([SymPiece(lens, s)] + ps, rest)
    ensures DecodeSym(lens, Shr(x, pos)) == Sym(s) && Shr(x, pos + lens[s]) == Pack(ps, rest)
    ensures Width([SymPiece(lens, s)] + ps) == lens[s] + Width(ps)
  {
    hide Shl, Shr, Low, Pow2, Pack, Width, EncodeSym, DecodeSym, KraftSum;
    var p := SymPiece(lens, s);
    PackAppend([p], ps, rest);
    PackOne(p, Pack(ps, rest));
    SymbolRoundTrip(lens, s, Pack(ps, rest));
    ShrShr(x, pos, lens[s]);
  }

  // ----- tokens

  /** A literal, or a match by its length code, distance code and their extra bits. */
  datatype Token = Literal(b: byte) | Match(s: nat, e: nat, d: nat, f: nat)

  predicate TokenOk(lit: seq<nat>, dist: seq<nat>, t: Token) {
    match t
    case Literal(b) => b < |lit| && lit[b] > 0
    case Match(s, e, d, f) =>
      && 257 <= s <= 285 && s < |lit| && lit[s] > 0 && e < Pow2(LengthExtra(s))
      && d < 30 && d < |dist| && dist[d] > 0 && f < Pow2(DistExtra(d))
  }

  predicate TokensOk(lit: seq<nat>, dist: seq<nat>, ts: seq<Token>) {
    forall t :: t in ts ==> TokenOk(lit, dist, t)
  }

  function TokenPieces(lit: seq<nat>, dist: seq<nat>, t: Token): seq<Piece>
    requires TokenOk(lit, dist, t)
  {
    match t
    case Literal(b) => [SymPiece(lit, b)]
    case Match(s, e, d, f) =>
      [SymPiece(lit, s), Piece(e, LengthExtra(s)), SymPiece(dist, d), Piece(f, DistExtra(d))]
  }

  /** The tokens and the end mark. */
  function CodePieces(lit: seq<nat>, dist: seq<nat>, ts: seq<Token>): seq<Piece>
    requires |lit| > 256 && TokensOk(lit, dist, ts)
  {
    if |ts| == 0 then [SymPiece(lit, 256)]
    else TokenPieces(lit, dist, ts[0]) + CodePieces(lit, dist, ts[1..])
  }

  predicate TokenSound(t: Token) {
    t.Match? ==> 257 <= t.s <= 285 && t.d < 30
  }

  function Expand(t: Token, out: seq<byte>): seq<byte>
    requires TokenSound(t)
  {
    match t
    case Literal(b) => out + [b]
    case Match(s, e, d, f) => CopyMatch(out, DistBase(d) + f, LengthBase(s) + e)
  }

  function ExpandAll(ts: seq<Token>, out: seq<byte>): seq<byte>
    requires forall t :: t in ts ==> TokenSound(t)
  {
    if |ts| == 0 then out else ExpandAll(ts[1..], Expand(ts[0], out))
  }

  /** Every length from 3 to 258 has a code. */
  lemma LengthCoded(len: nat) returns (s: nat, e: nat)
    requires 3 <= len <= 258
    ensures 257 <= s <= 285 && e < Pow2(LengthExtra(s)) && LengthBase(s) + e == len
  {
    hide LengthBase, LengthExtra, Pow2;
    LengthValues();
    LastLength();
    s, e := LengthDown(284, len);
  }

  lemma LastLength()
    ensures Pow2(LengthExtra(284)) == 32
  {
  }

  lemma {:induction false} LengthDown(top: nat, len: nat) returns (s: nat, e: nat)
    requires 257 <= top <= 284 && 3 <= len < LengthBase(top) + Pow2(LengthExtra(top))
    ensures 257 <= s <= top && e < Pow2(LengthExtra(s)) && LengthBase(s) + e == len
  {
    hide LengthExtra, Pow2;
    if len >= LengthBase(top) {
      s, e := top, len - LengthBase(top);
    } else {
      s, e := LengthDown(top - 1, len);
    }
  }

  /** Every distance within the window has a code. */
  lemma DistCoded(dist: nat) returns (d: nat, f: nat)
    requires 1 <= dist <= WSIZE
    ensures d < 30 && f < Pow2(DistExtra(d)) && DistBase(d) + f == dist
  {
    hide DistBase, DistExtra, Pow2;
    DistValues();
    LastDist();
    d, f := DistDown(29, dist);
  }

  lemma {:induction false} DistDown(top: nat, dist: nat) returns (d: nat, f: nat)
    requires top < 30 && 1 <= dist < DistBase(top) + Pow2(DistExtra(top))
    ensures d <= top && f < Pow2(DistExtra(d)) && DistBase(d) + f == dist
  {
    hide DistExtra, Pow2;
    if dist >= DistBase(top) {
      d, f := top, dist - DistBase(top);
    } else {
      d, f := DistDown(top - 1, dist);
    }
  }

  lemma TakeMatch(lit: seq<nat>, dist: seq<nat>, t: Token, x: nat, pos: nat, more: seq<Piece>, rest: nat)
    requires Usable(lit) && Usable(dist) && t.Match? && TokenOk(lit, dist, t)
    requires Shr(x, pos) == Pack(TokenPieces(lit, dist, t) + more, rest)
    ensures var p1 := pos + lit[t.s];
      var p2 := p1 + LengthExtra(t.s);
      var p3 := p2 + dist[t.d];
      var p4 := p3 + DistExtra(t.d);
      && DecodeSym(lit, Shr(x, pos)) == Sym(t.s) && Field(x, p1, LengthExtra(t.s)) == t.e
      && DecodeSym(dist, Shr(x, p2)) == Sym(t.d) && Field(x, p3, DistExtra(t.d)) == t.f
      && Shr(x, p4) == Pack(more, rest) && pos + Width(TokenPieces(lit, dist, t) + more) == p4 + Width(more)
  {
    hide Shl, Shr, Low, Pow2, Pack, Width, EncodeSym, DecodeSym, KraftSum;
    var (a, b) := (SymPiece(lit, t.s), Piece(t.e, LengthExtra(t.s)));
    var (c, d) := (SymPiece(dist, t.d), Piece(t.f, DistExtra(t.d)));
    var p1 := pos + lit[t.s];
    var p2 := p1 + LengthExtra(t.s);
    assert TokenPieces(lit, dist, t) + more == [a] + ([b] + ([c] + ([d] + more)));
    TakeSym(lit, t.s, x, pos, [b] + ([c] + ([d] + more)), rest);
    TakeFirst(x, p1, b, [c] + ([d] + more), rest);
    TakeSym(dist, t.d, x, p2, [d] + more, rest);
    TakeFirst(x, p2 + dist[t.d], d, more, rest);
  }

  /** The decoder's step for one token. */
  lemma OneToken(lit: seq<nat>, dist: seq<nat>, t: Token, x: nat, pos: nat, out: seq<byte>, more: seq<Piece>, rest: nat,
                 fuel: nat)
    requires Usable(lit) && Usable(dist) && 256 < |lit| <= 288 && |dist| <= 30 && TokenOk(lit, dist, t)
    requires Shr(x, pos) == Pack(TokenPieces(lit, dist, t) + more, rest)
    ensures var next := pos + Width(TokenPieces(lit, dist, t));
      && RunCodes(lit, dist, x, pos, out, fuel + 1) == RunCodes(lit, dist, x, next, Expand(t, out), fuel)
      && Shr(x, next) == Pack(more, rest)
  {
    hide DecodeSym, Shr, Shl, Low, Pow2, EncodeSym, CopyMatch, KraftSum, Pack, Width, LengthBase, DistBase, LengthExtra,
         DistExtra;
    PackAppend(TokenPieces(lit, dist, t), more, rest);
    if t.Literal? {
      TakeSym(lit, t.b, x, pos, more, rest);
    } else {
      TakeMatch(lit, dist, t, x, pos, more, rest);
    }
  }

  /** Coded data comes back, with any usable codes. */
  lemma {:induction false} CodesBack(lit: seq<nat>, dist: seq<nat>, ts: seq<Token>, x: nat, pos: nat, out: seq<byte>,
                                     rest: nat)
    requires Usable(lit) && Usable(dist) && 256 < |lit| <= 288 && |dist| <= 30 && lit[256] > 0 && TokensOk(lit, dist, ts)
    requires Shr(x, pos) == Pack(CodePieces(lit, dist, ts), rest)
    ensures var end := pos + Width(CodePieces(lit, dist, ts));
      RunCodes(lit, dist, x, pos, out, |ts| + 1) == Done(end, ExpandAll(ts, out)) && Shr(x, end) == rest
    decreases |ts|
  {
    hide DecodeSym, Shr, Shl, Low, Pow2, EncodeSym, KraftSum, Pack, Width, TokenPieces, Expand, LengthBase, DistBase;
    if |ts| == 0 {
      assert [SymPiece(lit, 256)] == [SymPiece(lit, 256)] + [];
      TakeSym(lit, 256, x, pos, [], rest);
      NoPieces(rest);
    } else {
      hide RunCodes;
      var t, more := ts[0], CodePieces(lit, dist, ts[1..]);
      var next := pos + Width(TokenPieces(lit, dist, t));
      PackAppend(TokenPieces(lit, dist, t), more, rest);
      OneToken(lit, dist, t, x, pos, out, more, rest, |ts|);
      CodesBack(lit, dist, ts[1..], x, next, Expand(t, out), rest);
    }
  }

  lemma NoPieces(rest: nat)
    ensures Pack([], rest) == rest && Width([]) == 0
  {
  }

  // ----- code lengths

  /** A length, the one before three to six times again, or a run of zeros. */
  datatype LenStep = Plain(n: nat) | Again(k: nat) | Zeros(k: nat) | ManyZeros(k: nat)

  function StepSym(st: LenStep): nat {
    match st
    case Plain(n) => n
    case Again(_) => 16
    case Zeros(_) => 17
    case ManyZeros(_) => 18
  }

  function StepBits(st: LenStep): nat {
    match st
    case Plain(_) => 0
    case Again(_) => 2
    case Zeros(_) => 3
    case ManyZeros(_) => 7
  }

  predicate StepOk(code: seq<nat>, st: LenStep) {
    && (st.Plain? ==> st.n < 16) && StepSym(st) < |code| && code[StepSym(st)] > 0
    && (!st.Plain? ==> st.k < Pow2(StepBits(st)))
  }

  predicate StepsOk(code: seq<nat>, steps: seq<LenStep>) {
    forall st :: st in steps ==> StepOk(code, st)
  }

  function StepLens(st: LenStep, prev: nat): seq<nat> {
    match st
    case Plain(n) => [n]
    case Again(k) => Repeat(prev, 3 + k)
    case Zeros(k) => Repeat(0, 3 + k)
    case ManyZeros(k) => Repeat(0, 11 + k)
  }

  function NextPrev(st: LenStep, prev: nat): nat {
    match st
    case Plain(n) => n
    case Again(_) => prev
    case _ => 0
  }

  function AllLens(steps: seq<LenStep>, prev: nat): seq<nat> {
    if |steps| == 0 then [] else StepLens(steps[0], prev) + AllLens(steps[1..], NextPrev(steps[0], prev))
  }

  function StepPieces(code: seq<nat>, st: LenStep): seq<Piece>
    requires StepOk(code, st)
  {
    if st.Plain? then [SymPiece(code, st.n)]
    else [SymPiece(code, StepSym(st)), Piece(st.k, StepBits(st))]
  }

  function LenPieces(code: seq<nat>, steps: seq<LenStep>): seq<Piece>
    requires StepsOk(code, steps)
  {
    if |steps| == 0 then [] else StepPieces(code, steps[0]) + LenPieces(code, steps[1..])
  }

  lemma TakeStep(code: seq<nat>, st: LenStep, x: nat, pos: nat, more: seq<Piece>, rest: nat)
    requires Usable(code) && StepOk(code, st) && Shr(x, pos) == Pack(StepPieces(code, st) + more, rest)
    ensures var p := pos + code[StepSym(st)];
      && DecodeSym(code, Shr(x, pos)) == Sym(StepSym(st)) && (!st.Plain? ==> Field(x, p, StepBits(st)) == st.k)
      && Width(StepPieces(code, st)) == code[StepSym(st)] + StepBits(st) && Shr(x, p + StepBits(st)) == Pack(more, rest)
  {
    hide Shl, Shr, Low, Pow2, Pack, Width, EncodeSym, DecodeSym, KraftSum;
    var a := SymPiece(code, StepSym(st));
    PackOne(a, rest);
    if st.Plain? {
      TakeSym(code, st.n, x, pos, more, rest);
    } else {
      var b := Piece(st.k, StepBits(st));
      assert StepPieces(code, st) + more == [a] + ([b] + more);
      assert StepPieces(code, st) == [a] + [b];
      TakeSym(code, StepSym(st), x, pos, [b] + more, rest);
      TakeFirst(x, pos + code[StepSym(st)], b, more, rest);
      PackAppend([a], [b], rest);
      PackOne(b, rest);
    }
  }

  /** The decoder's step for one of them. */
  lemma OneStep(code: seq<nat>, st: LenStep, x: nat, pos: nat, n: nat, prev: nat, lens: seq<nat>, more: seq<Piece>, rest: nat)
    requires Usable(code) && |code| == 19 && prev <= 15 && forall j :: 0 <= j < |lens| ==> lens[j] <= 15
    requires StepOk(code, st) && |lens| + |StepLens(st, prev)| <= n
    requires Shr(x, pos) == Pack(StepPieces(code, st) + more, rest)
    ensures var next, lens' := pos + Width(StepPieces(code, st)), lens + StepLens(st, prev);
      && NextPrev(st, prev) <= 15 && (forall j :: 0 <= j < |lens'| ==> lens'[j] <= 15)
      && ReadLengths(code, x, pos, n, prev, lens) == ReadLengths(code, x, next, n, NextPrev(st, prev), lens')
      && Shr(x, next) == Pack(more, rest)
  {
    hide DecodeSym, Shr, Shl, Low, Pow2, EncodeSym, KraftSum, Pack, Width, StepPieces;
    TakeStep(code, st, x, pos, more, rest);
  }

  lemma {:induction false} LensBack(code: seq<nat>, steps: seq<LenStep>, x: nat, pos: nat, n: nat, prev: nat, lens: seq<nat>,
                                    more: seq<Piece>, rest: nat)
    requires Usable(code) && |code| == 19 && prev <= 15 && forall j :: 0 <= j < |lens| ==> lens[j] <= 15
    requires StepsOk(code, steps) && |lens| + |AllLens(steps, prev)| == n
    requires Shr(x, pos) == Pack(LenPieces(code, steps) + more, rest)
    ensures var end := pos + Width(LenPieces(code, steps));
      && ReadLengths(code, x, pos, n, prev, lens) == Lengths(end, lens + AllLens(steps, prev))
      && Shr(x, end) == Pack(more, rest)
    decreases |steps|
  {
    hide DecodeSym, Shr, Shl, Low, Pow2, EncodeSym, KraftSum, Pack, Width, StepPieces, StepLens, NextPrev, StepOk;
    if |steps| == 0 {
      NoPieces(rest);
      assert LenPieces(code, steps) + more == more;
      assert lens + AllLens(steps, prev) == lens;
    } else {
      hide ReadLengths;
      var st, later := steps[0], LenPieces(code, steps[1..]);
      var mine := StepLens(st, prev);
      assert LenPieces(code, steps) + more == StepPieces(code, st) + (later + more);
      PackAppend(StepPieces(code, st), later, rest);
      OneStep(code, st, x, pos, n, prev, lens, later + more, rest);
      assert lens + AllLens(steps, prev) == lens + mine + AllLens(steps[1..], NextPrev(st, prev));
      LensBack(code, steps[1..], x, pos + Width(StepPieces(code, st)), n, NextPrev(st, prev), lens + mine, more, rest);
    }
  }

  // ----- the code length code

  /** Its first `nb` lengths in the order they are sent. */
  function Ordered(code: seq<nat>, nb: nat): (vals: seq<nat>)
    requires |code| == 19 && nb <= 19
    ensures |vals| == nb
  {
    seq(nb, j requires 0 <= j < nb => code[ORDER[j]])
  }

  function ThreeBitPieces(vals: seq<nat>): seq<Piece> {
    if |vals| == 0 then [] else [Piece(vals[0], 3)] + ThreeBitPieces(vals[1..])
  }

  lemma {:induction false} TakeThrees(vals: seq<nat>, x: nat, pos: nat, more: seq<Piece>, rest: nat)
    requires (forall k: nat :: k < |vals| ==> vals[k] <= 7) && Shr(x, pos) == Pack(ThreeBitPieces(vals) + more, rest)
    ensures forall k: nat :: k < |vals| ==> Field(x, pos + 3 * k, 3) == vals[k]
    ensures Shr(x, pos + 3 * |vals|) == Pack(more, rest) && Width(ThreeBitPieces(vals)) == 3 * |vals|
    decreases |vals|
  {
    hide Shr, Shl, Low, Pow2, Pack, Width, Field;
    NoPieces(rest);
    if |vals| == 0 {
      assert ThreeBitPieces(vals) + more == more;
    } else {
      var p, later := Piece(vals[0], 3), ThreeBitPieces(vals[1..]);
      SmallPowers();
      assert ThreeBitPieces(vals) + more == [p] + (later + more);
      TakeFirst(x, pos, p, later + more, rest);
      TakeThrees(vals[1..], x, pos + 3, more, rest);
      PackAppend([p], later, rest);
      PackOne(p, rest);
      forall k: nat | k < |vals|
        ensures Field(x, pos + 3 * k, 3) == vals[k]
      {
        if k > 0 {
          assert Field(x, pos + 3 + 3 * (k - 1), 3) == vals[1..][k - 1];
        }
      }
    }
  }

  // ----- dynamic blocks

  /** The code length code, how many of its lengths are sent, the lengths, and how many of them are for literals. */
  datatype Preamble = Preamble(code: seq<nat>, nb: nat, steps: seq<LenStep>, nl: nat)

  /** Usable, and no length is left out that is not zero. */
  predicate CodeOk(code: seq<nat>, nb: nat) {
    && |code| == 19 && (forall s :: 0 <= s < 19 ==> code[s] <= 7) && SetCode(code) == 0
    && 4 <= nb <= 19 && (forall s: nat :: s < 19 && PLACE[s] >= nb ==> code[s] == 0)
  }

  /** Two usable sets, one after the other. */
  predicate SetsOk(lens: seq<nat>, nl: nat) {
    && 257 <= nl <= 286 && nl < |lens| <= nl + 30 && (forall j :: 0 <= j < |lens| ==> lens[j] <= 15)
    && SetCode(lens[..nl]) == 0 && SetCode(lens[nl..]) == 0
  }

  predicate HeaderOk(h: Preamble) {
    CodeOk(h.code, h.nb) && StepsOk(h.code, h.steps) && SetsOk(AllLens(h.steps, 0), h.nl)
  }

  function LitOf(h: Preamble): seq<nat>
    requires HeaderOk(h)
  {
    AllLens(h.steps, 0)[..h.nl]
  }

  function DistOf(h: Preamble): seq<nat>
    requires HeaderOk(h)
  {
    AllLens(h.steps, 0)[h.nl..]
  }

  lemma UsableSet(lens: seq<nat>)
    requires 1 <= |lens| <= N_MAX && (forall s :: 0 <= s < |lens| ==> lens[s] <= 15) && SetCode(lens) == 0
    ensures Usable(lens)
  {
    hide KraftSum, Pow2, MaxLen;
  }

  /** Three numbers, the code length code, the lengths and the data. */
  function CountPieces(h: Preamble): seq<Piece>
    requires HeaderOk(h)
  {
    [Piece(h.nl - 257, 5)] + [Piece(|AllLens(h.steps, 0)| - h.nl - 1, 5)] + [Piece(h.nb - 4, 4)]
  }

  predicate DynamicOk(h: Preamble, ts: seq<Token>) {
    HeaderOk(h) && LitOf(h)[256] > 0 && TokensOk(LitOf(h), DistOf(h), ts)
  }

  function DynamicPieces(h: Preamble, ts: seq<Token>): seq<Piece>
    requires DynamicOk(h, ts)
  {
    CountPieces(h) + (ThreeBitPieces(Ordered(h.code, h.nb))
                      + (LenPieces(h.code, h.steps) + CodePieces(LitOf(h), DistOf(h), ts)))
  }

  lemma TakeCounts(h: Preamble, x: nat, pos: nat, more: seq<Piece>, rest: nat)
    requires HeaderOk(h) && Shr(x, pos) == Pack(CountPieces(h) + more, rest)
    ensures Field(x, pos, 5) == h.nl - 257 && Field(x, pos + 5, 5) == |AllLens(h.steps, 0)| - h.nl - 1
    ensures Field(x, pos + 10, 4) == h.nb - 4 && Shr(x, pos + 14) == Pack(more, rest) && Width(CountPieces(h)) == 14
  {
    hide Shl, Shr, Low, Pow2, Pack, Width, AllLens, SetCode, StepOk, Field;
    var lens := AllLens(h.steps, 0);
    var (a, b, c) := (Piece(h.nl - 257, 5), Piece(|lens| - h.nl - 1, 5), Piece(h.nb - 4, 4));
    assert CountPieces(h) + more == [a] + ([b] + ([c] + more));
    SmallPowers();
    TakeFirst(x, pos, a, [b] + ([c] + more), rest);
    TakeFirst(x, pos + 5, b, [c] + more, rest);
    TakeFirst(x, pos + 10, c, more, rest);
    PackAppend([a] + [b], [c], rest);
    PackAppend([a], [b], rest);
    PackOne(a, rest);
    PackOne(b, rest);
    PackOne(c, rest);
  }

  /** What the decoder makes of the header. */
  lemma HeaderBack(h: Preamble, x: nat, pos: nat, out: seq<byte>, more: seq<Piece>, rest: nat, fuel: nat)
    requires HeaderOk(h)
    requires Shr(x, pos)
          == Pack(CountPieces(h) + (ThreeBitPieces(Ordered(h.code, h.nb)) + (LenPieces(h.code, h.steps) + more)), rest)
    ensures var p := pos + Width(CountPieces(h)) + Width(ThreeBitPieces(Ordered(h.code, h.nb)))
                     + Width(LenPieces(h.code, h.steps));
      && RunDynamic(x, pos, out, fuel) == RunCodes(LitOf(h), DistOf(h), x, p, out, fuel) && Shr(x, p) == Pack(more, rest)
  {
    hide Shl, Shr, Low, Pow2, Pack, Width, AllLens, SetCode, StepOk, Field, RunCodes, ReadLengths, CodeLengthCode,
         LenPieces, ThreeBitPieces, CountPieces, KraftSum;
    var lens, vals := AllLens(h.steps, 0), Ordered(h.code, h.nb);
    var inner := LenPieces(h.code, h.steps) + more;
    TakeCounts(h, x, pos, ThreeBitPieces(vals) + inner, rest);
    FourBits(x, pos + 10);
    TakeThrees(vals, x, pos + 14, inner, rest);
    CodeBack(h, x, pos + 14);
    UsableSet(h.code);
    LensBack(h.code, h.steps, x, pos + 14 + 3 * h.nb, |lens|, 0, [], more, rest);
    assert [] + lens == lens;
  }

  lemma CodeBack(h: Preamble, x: nat, pos: nat)
    requires HeaderOk(h) && forall k: nat :: k < h.nb ==> Field(x, pos + 3 * k, 3) == Ordered(h.code, h.nb)[k]
    ensures CodeLengthCode(x, pos, h.nb) == h.code
  {
    hide AllLens, SetCode, StepOk, Field, CodeLengthCode;
    forall s: nat | s < 19
      ensures CodeLengthCode(x, pos, h.nb)[s] == h.code[s]
    {
      PlaceOrder(s);
      CodeLengthAt(x, pos, h.nb, PLACE[s]);
      if PLACE[s] < h.nb {
        assert Field(x, pos + 3 * PLACE[s], 3) == Ordered(h.code, h.nb)[PLACE[s]];
      }
    }
  }

  lemma DynamicBack(h: Preamble, ts: seq<Token>, x: nat, pos: nat, out: seq<byte>, rest: nat)
    requires DynamicOk(h, ts) && Shr(x, pos) == Pack(DynamicPieces(h, ts), rest)
    ensures var end := pos + Width(DynamicPieces(h, ts));
      RunDynamic(x, pos, out, |ts| + 1) == Done(end, ExpandAll(ts, out)) && Shr(x, end) == rest
  {
    hide Shl, Shr, Low, Pow2, Pack, Width, AllLens, SetCode, StepOk, RunDynamic, RunCodes, CodePieces,
         LenPieces, ThreeBitPieces, CountPieces, KraftSum, TokenOk, ExpandAll;
    var code := CodePieces(LitOf(h), DistOf(h), ts);
    var (a, b, c) := (CountPieces(h), ThreeBitPieces(Ordered(h.code, h.nb)), LenPieces(h.code, h.steps));
    HeaderBack(h, x, pos, out, code, rest, |ts| + 1);
    PackAppend(a, b + (c + code), rest);
    PackAppend(b, c + code, rest);
    PackAppend(c, code, rest);
    UsableSet(LitOf(h));
    UsableSet(DistOf(h));
    CodesBack(LitOf(h), DistOf(h), ts, x, pos + Width(a) + Width(b) + Width(c), out, rest);
  }

  // ----- stored blocks

  function RawPieces(data: seq<byte>): seq<Piece> {
    if |data| == 0 then [] else [Piece(data[0], 8)] + RawPieces(data[1..])
  }

  lemma {:induction false} RawBack(data: seq<byte>, x: nat, pos: nat, rest: nat)
    requires Shr(x, pos) == Pack(RawPieces(data), rest)
    ensures RawBytes(x, pos, |data|) == data && Width(RawPieces(data)) == 8 * |data| && Shr(x, pos + 8 * |data|) == rest
  {
    hide Shl, Shr, Low, Pow2, Pack, Width, Field;
    NoPieces(rest);
    if |data| != 0 {
      SmallPowers();
      TakeFirst(x, pos, Piece(data[0], 8), RawPieces(data[1..]), rest);
      RawBack(data[1..], x, pos + 8, rest);
    }
  }

  /** Bits up to the next byte, which may hold anything. */
  function PadBits(pos: nat): nat {
    if pos % 8 == 0 then 0 else 8 - pos % 8
  }

  function StoredPieces(pad: nat, data: seq<byte>, pos: nat): seq<Piece>
    requires |data| <= 0xffff
  {
    [Piece(Low(pad, PadBits(pos)), PadBits(pos))]
    + ([Piece(|data|, 16)] + ([Piece(0xffff - |data|, 16)] + RawPieces(data)))
  }

  lemma StoredBack(pad: nat, data: seq<byte>, x: nat, pos: nat, out: seq<byte>, rest: nat)
    requires |data| <= 0xffff && Shr(x, pos) == Pack(StoredPieces(pad, data, pos), rest)
    ensures var end := pos + Width(StoredPieces(pad, data, pos));
      RunStored(x, pos, out) == Done(end, out + data) && Shr(x, end) == rest
  {
    hide Shl, Shr, Low, Pow2, Pack, Width, Field, RawPieces, RawBytes;
    var (a, b, c) := (Piece(Low(pad, PadBits(pos)), PadBits(pos)), Piece(|data|, 16), Piece(0xffff - |data|, 16));
    var p := pos + PadBits(pos);
    LowBound(pad, PadBits(pos));
    LargePowers();
    TakeFirst(x, pos, a, [b] + ([c] + RawPieces(data)), rest);
    TakeFirst(x, p, b, [c] + RawPieces(data), rest);
    TakeFirst(x, p + 16, c, RawPieces(data), rest);
    RawBack(data, x, p + 32, rest);
  }

  // ----- whole streams

  datatype Block = Stored(pad: nat, data: seq<byte>) | Fixed(tokens: seq<Token>) | Dynamic(head: Preamble, tokens: seq<Token>)

  predicate BlockOk(b: Block) {
    match b
    case Stored(_, data) => |data| <= 0xffff
    case Fixed(ts) => TokensOk(FixedLit(), FixedDist(), ts)
    case Dynamic(h, ts) => DynamicOk(h, ts)
  }

  function BlockPieces(b: Block, pos: nat): seq<Piece>
    requires BlockOk(b)
  {
    match b
    case Stored(pad, data) => [Piece(0, 2)] + StoredPieces(pad, data, pos + 2)
    case Fixed(ts) => [Piece(1, 2)] + CodePieces(FixedLit(), FixedDist(), ts)
    case Dynamic(h, ts) => [Piece(2, 2)] + DynamicPieces(h, ts)
  }

  function ExpandBlock(b: Block, out: seq<byte>): seq<byte>
    requires BlockOk(b)
  {
    match b
    case Stored(_, data) => out + data
    case Fixed(ts) => ExpandAll(ts, out)
    case Dynamic(_, ts) => ExpandAll(ts, out)
  }

  function BlockSteps(b: Block): nat {
    if b.Stored? then 1 else |b.tokens| + 1
  }

  lemma BlockBack(b: Block, x: nat, pos: nat, out: seq<byte>, rest: nat, fuel: nat)
    requires BlockOk(b) && Shr(x, pos) == Pack(BlockPieces(b, pos), rest) && BlockSteps(b) <= fuel
    ensures var end := pos + Width(BlockPieces(b, pos));
      RunBlock(x, pos, out, fuel) == Done(end, ExpandBlock(b, out)) && Shr(x, end) == rest
  {
    hide Shl, Shr, Low, Pow2, Pack, Width, Field, RunCodes, RunStored, RunDynamic, CodePieces, StoredPieces, DynamicPieces,
         DynamicOk, TokensOk, KraftSum, FixedLit, FixedDist, ExpandAll;
    assert Pow2(2) == 4 by {
      SmallPowers();
    }
    FixedUsable();
    match b
    case Stored(pad, data) =>
      TakeFirst(x, pos, Piece(0, 2), StoredPieces(pad, data, pos + 2), rest);
      StoredBack(pad, data, x, pos + 2, out, rest);
    case Fixed(ts) =>
      TakeFirst(x, pos, Piece(1, 2), CodePieces(FixedLit(), FixedDist(), ts), rest);
      CodesBack(FixedLit(), FixedDist(), ts, x, pos + 2, out, rest);
      MoreForCodes(FixedLit(), FixedDist(), x, pos + 2, out, |ts| + 1, fuel);
    case Dynamic(h, ts) =>
      TakeFirst(x, pos, Piece(2, 2), DynamicPieces(h, ts), rest);
      DynamicBack(h, ts, x, pos + 2, out, rest);
      MoreForDynamic(x, pos + 2, out, |ts| + 1, fuel);
  }

  predicate BlocksOk(bs: seq<Block>) {
    |bs| > 0 && forall b :: b in bs ==> BlockOk(b)
  }

  /** Each block with the bit before it that says whether it is the last. */
  function StreamPieces(bs: seq<Block>, pos: nat): seq<Piece>
    requires BlocksOk(bs)
  {
    var ps := BlockPieces(bs[0], pos + 1);
    if |bs| == 1 then [Piece(1, 1)] + ps
    else [Piece(0, 1)] + (ps + StreamPieces(bs[1..], pos + 1 + Width(ps)))
  }

  function ExpandBlocks(bs: seq<Block>, out: seq<byte>): seq<byte>
    requires BlocksOk(bs)
  {
    if |bs| == 1 then ExpandBlock(bs[0], out) else ExpandBlocks(bs[1..], ExpandBlock(bs[0], out))
  }

  function StepsNeeded(bs: seq<Block>): nat {
    if |bs| == 0 then 0 else BlockSteps(bs[0]) + StepsNeeded(bs[1..])
  }

  lemma {:induction false} BlocksBack(bs: seq<Block>, x: nat, pos: nat, out: seq<byte>, rest: nat, fuel: nat)
    requires BlocksOk(bs) && Shr(x, pos) == Pack(StreamPieces(bs, pos), rest) && StepsNeeded(bs) <= fuel
    ensures RunBlocks(x, pos, out, fuel) == Done(pos + Width(StreamPieces(bs, pos)), ExpandBlocks(bs, out))
    decreases |bs|
  {
    hide Shl, Shr, Low, Pow2, Pack, Width, Field, RunBlock, BlockPieces, ExpandBlock, BlockOk;
    var b := bs[0];
    var ps, next := BlockPieces(b, pos + 1), pos + 1 + Width(BlockPieces(b, pos + 1));
    SmallPowers();
    if |bs| == 1 {
      TakeFirst(x, pos, Piece(1, 1), ps, rest);
      BlockBack(b, x, pos + 1, out, rest, fuel);
    } else {
      var more := StreamPieces(bs[1..], next);
      TakeFirst(x, pos, Piece(0, 1), ps + more, rest);
      PackAppend(ps, more, rest);
      BlockBack(b, x, pos + 1, out, Pack(more, rest), fuel);
      BlocksBack(bs[1..], x, next, ExpandBlock(b, out), rest, fuel - 1);
    }
  }

  // ----- bytes

  predicate Fit(ps: seq<Piece>) {
    forall p :: p in ps ==> p.value < Pow2(p.width)
  }

  /** Pieces that fit take their width and no more, and what follows starts there. */
  lemma {:induction false} PackBound(ps: seq<Piece>, rest: nat)
    requires Fit(ps)
    ensures Pack(ps, 0) < Pow2(Width(ps)) && Pack(ps, rest) == Pack(ps, 0) + Shl(rest, Width(ps))
  {
    hide Shl, Pow2;
    if |ps| == 0 {
      NoBits(rest);
    } else {
      var w, x := ps[0].width, Pack(ps[1..], 0);
      PackBound(ps[1..], rest);
      assert ps[0] in ps;
      ShlAdd(x, Shl(rest, Width(ps[1..])), w);
      ShlShl(rest, Width(ps[1..]), w);
      ShlMono(x + 1, Pow2(Width(ps[1..])), w);
      ShlAdd(x, 1, w);
      ShlOne(w);
      ShlPow2(Width(ps[1..]), w);
    }
  }

  lemma FitAppend(a: seq<Piece>, b: seq<Piece>)
    requires Fit(a) && Fit(b)
    ensures Fit(a + b)
  {
    hide Pow2;
  }

  lemma SymFits(lens: seq<nat>, s: nat)
    requires s < |lens|
    ensures Fit([SymPiece(lens, s)])
  {
    hide Pow2, Rev;
    RevBound(lens[s], CodeOf(lens, s));
  }

  lemma TokenFits(lit: seq<nat>, dist: seq<nat>, t: Token)
    requires TokenOk(lit, dist, t)
    ensures Fit(TokenPieces(lit, dist, t))
  {
    hide Pow2, EncodeSym;
    match t
    case Literal(b) => SymFits(lit, b);
    case Match(s, e, d, f) =>
      SymFits(lit, s);
      SymFits(dist, d);
      assert Fit([SymPiece(lit, s)]) && Fit([SymPiece(dist, d)]);
      assert [SymPiece(lit, s)][0].value < Pow2(lit[s]) && [SymPiece(dist, d)][0].value < Pow2(dist[d]);
  }

  lemma {:induction false} CodesFit(lit: seq<nat>, dist: seq<nat>, ts: seq<Token>)
    requires |lit| > 256 && TokensOk(lit, dist, ts)
    ensures Fit(CodePieces(lit, dist, ts))
  {
    hide TokenOk, TokenPieces, EncodeSym, Fit;
    if |ts| == 0 {
      SymFits(lit, 256);
    } else {
      TokenFits(lit, dist, ts[0]);
      CodesFit(lit, dist, ts[1..]);
      FitAppend(TokenPieces(lit, dist, ts[0]), CodePieces(lit, dist, ts[1..]));
    }
  }

  lemma {:induction false} LensFit(code: seq<nat>, steps: seq<LenStep>)
    requires StepsOk(code, steps)
    ensures Fit(LenPieces(code, steps))
  {
    hide Pow2, EncodeSym;
    if |steps| != 0 {
      var st := steps[0];
      assert StepOk(code, st);
      SymFits(code, StepSym(st));
      assert [SymPiece(code, StepSym(st))][0].value < Pow2(code[StepSym(st)]);
      LensFit(code, steps[1..]);
      FitAppend(StepPieces(code, st), LenPieces(code, steps[1..]));
    }
  }

  lemma {:induction false} ThreesFit(vals: seq<nat>)
    requires forall k: nat :: k < |vals| ==> vals[k] <= 7
    ensures Fit(ThreeBitPieces(vals))
  {
    hide Pow2;
    SmallPowers();
    if |vals| != 0 {
      ThreesFit(vals[1..]);
      FitAppend([Piece(vals[0], 3)], ThreeBitPieces(vals[1..]));
    }
  }

  lemma {:induction false} RawFits(data: seq<byte>)
    ensures Fit(RawPieces(data))
  {
    hide Pow2;
    SmallPowers();
    if |data| != 0 {
      RawFits(data[1..]);
      FitAppend([Piece(data[0], 8)], RawPieces(data[1..]));
    }
  }

  lemma CountsFit(h: Preamble)
    requires HeaderOk(h)
    ensures Fit(CountPieces(h))
  {
    hide Pow2, AllLens, SetCode, StepOk;
    SmallPowers();
  }

  lemma DynamicFits(h: Preamble, ts: seq<Token>)
    requires DynamicOk(h, ts)
    ensures Fit(DynamicPieces(h, ts))
  {
    hide Fit, AllLens, SetCode, StepsOk, CodePieces, LenPieces, ThreeBitPieces, CountPieces, TokensOk;
    var code := CodePieces(LitOf(h), DistOf(h), ts);
    CountsFit(h);
    ThreesFit(Ordered(h.code, h.nb));
    LensFit(h.code, h.steps);
    CodesFit(LitOf(h), DistOf(h), ts);
    FitAppend(LenPieces(h.code, h.steps), code);
    FitAppend(ThreeBitPieces(Ordered(h.code, h.nb)), LenPieces(h.code, h.steps) + code);
    FitAppend(CountPieces(h), ThreeBitPieces(Ordered(h.code, h.nb)) + (LenPieces(h.code, h.steps) + code));
  }

  lemma StoredFits(pad: nat, data: seq<byte>, pos: nat)
    requires |data| <= 0xffff
    ensures Fit(StoredPieces(pad, data, pos))
  {
    hide Pow2, Low, RawPieces;
    var (a, b, c) := (Piece(Low(pad, PadBits(pos)), PadBits(pos)), Piece(|data|, 16), Piece(0xffff - |data|, 16));
    LowBound(pad, PadBits(pos));
    LargePowers();
    RawFits(data);
    FitAppend([c], RawPieces(data));
    FitAppend([b], [c] + RawPieces(data));
    FitAppend([a], [b] + ([c] + RawPieces(data)));
  }

  lemma BlockFits(b: Block, pos: nat)
    requires BlockOk(b)
    ensures Fit(BlockPieces(b, pos))
  {
    hide Pow2, CodePieces, StoredPieces, DynamicPieces, DynamicOk, TokensOk, FixedLit, FixedDist;
    SmallPowers();
    FixedUsable();
    match b
    case Stored(pad, data) =>
      StoredFits(pad, data, pos + 2);
      FitAppend([Piece(0, 2)], StoredPieces(pad, data, pos + 2));
    case Fixed(ts) =>
      CodesFit(FixedLit(), FixedDist(), ts);
      FitAppend([Piece(1, 2)], CodePieces(FixedLit(), FixedDist(), ts));
    case Dynamic(h, ts) =>
      DynamicFits(h, ts);
      FitAppend([Piece(2, 2)], DynamicPieces(h, ts));
  }

  lemma {:induction false} StreamFits(bs: seq<Block>, pos: nat)
    requires BlocksOk(bs)
    ensures Fit(StreamPieces(bs, pos))
    decreases |bs|
  {
    hide Pow2, BlockPieces, BlockOk, Fit;
    var ps := BlockPieces(bs[0], pos + 1);
    BlockFits(bs[0], pos + 1);
    OneBitFits();
    if |bs| == 1 {
      FitAppend([Piece(1, 1)], ps);
    } else {
      var more := StreamPieces(bs[1..], pos + 1 + Width(ps));
      StreamFits(bs[1..], pos + 1 + Width(ps));
      FitAppend(ps, more);
      FitAppend([Piece(0, 1)], ps + more);
    }
  }

  lemma OneBitFits()
    ensures Fit([Piece(0, 1)]) && Fit([Piece(1, 1)])
  {
    SmallPowers();
  }

  /** The low bytes of a number. */
  function CutBytes(x: nat, n: nat): (s: seq<byte>)
    ensures |s| == n
    decreases n
  {
    if n == 0 then [] else [x % 256] + CutBytes(x / 256, n - 1)
  }

  lemma {:induction false} StreamOfCut(x: nat, n: nat)
    requires x < Pow2(8 * n)
    ensures Stream(CutBytes(x, n)) == x
  {
    hide Shl, Pow2;
    if n == 0 {
      NoBits(x);
    } else {
      SmallPowers();
      ShlPow2(8 * (n - 1), 8);
      ByteUp(Pow2(8 * (n - 1)));
      ByteUp(x / 256);
      StreamOfCut(x / 256, n - 1);
      assert CutBytes(x, n)[1..] == CutBytes(x / 256, n - 1);
    }
  }

  lemma {:induction false} StreamAppend(a: seq<byte>, b: seq<byte>)
    ensures Stream(a + b) == Stream(a) + Shl(Stream(b), 8 * |a|)
  {
    hide Shl;
    if |a| == 0 {
      assert a + b == b;
      NoBits(Stream(b));
    } else {
      StreamAppend(a[1..], b);
      assert (a + b)[1..] == a[1..] + b;
      ShlAdd(Stream(a[1..]), Shl(Stream(b), 8 * (|a| - 1)), 8);
      ShlShl(Stream(b), 8 * (|a| - 1), 8);
    }
  }

  /** The bytes of a stream; the last is filled up with zeros. */
  function Compressed(bs: seq<Block>): seq<byte>
    requires BlocksOk(bs)
  {
    CutBytes(Pack(StreamPieces(bs, 0), 0), (Width(StreamPieces(bs, 0)) + 7) / 8)
  }

  /** Read as one number, the bytes are the pieces and what follows, from the next byte on. */
  lemma PiecesInBytes(ps: seq<Piece>, tail: seq<byte>)
    requires Fit(ps)
    ensures var n := (Width(ps) + 7) / 8;
      Stream(CutBytes(Pack(ps, 0), n) + tail) == Pack(ps, Shl(Stream(tail), 8 * n - Width(ps)))
  {
    hide Shl, Pow2, Pack, Width, Stream, Fit, CutBytes;
    var w := Width(ps);
    var n, x := (w + 7) / 8, Pack(ps, 0);
    PackBound(ps, Shl(Stream(tail), 8 * n - w));
    Pow2Mono(w, 8 * n);
    StreamOfCut(x, n);
    StreamAppend(CutBytes(x, n), tail);
    ShlShl(Stream(tail), 8 * n - w, w);
  }

  /** Every list of blocks comes back as what it stands for, whatever bytes follow. */
  lemma StreamRoundTrip(bs: seq<Block>, tail: seq<byte>, fuel: nat)
    requires BlocksOk(bs) && StepsNeeded(bs) <= fuel
    ensures Inflated(Compressed(bs) + tail, fuel) == Done(Width(StreamPieces(bs, 0)), ExpandBlocks(bs, []))
    ensures |Compressed(bs)| == (Width(StreamPieces(bs, 0)) + 7) / 8
  {
    hide Shl, Shr, Pow2, Pack, Width, StreamPieces, ExpandBlocks, RunBlocks, Stream, Fit, BlocksOk, CutBytes, StepsNeeded;
    var ps := StreamPieces(bs, 0);
    var x := Stream(Compressed(bs) + tail);
    var rest := Shl(Stream(tail), 8 * |Compressed(bs)| - Width(ps));
    StreamFits(bs, 0);
    PiecesInBytes(ps, tail);
    NoBits(x);
    BlocksBack(bs, x, 0, [], rest, fuel);
  }

  // ----- a stream for any output

  const STORED_MOST: nat := 0xffff

  /** The bytes in stored blocks, as large as they can be. */
  function StoredBlocks(data: seq<byte>): (bs: seq<Block>)
    ensures BlocksOk(bs)
  {
    if |data| <= STORED_MOST then [Stored(0, data)]
    else [Stored(0, data[..STORED_MOST])] + StoredBlocks(data[STORED_MOST..])
  }

  lemma {:induction false} StoredExpand(data: seq<byte>, out: seq<byte>)
    ensures ExpandBlocks(StoredBlocks(data), out) == out + data
    decreases |data|
  {
    if |data| > STORED_MOST {
      var bs, more := StoredBlocks(data), StoredBlocks(data[STORED_MOST..]);
      StoredExpand(data[STORED_MOST..], out + data[..STORED_MOST]);
      assert bs[0] == Stored(0, data[..STORED_MOST]) && bs[1..] == more;
      assert out + data[..STORED_MOST] + data[STORED_MOST..] == out + data;
    }
  }
}
