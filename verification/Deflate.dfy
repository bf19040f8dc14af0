/**
 A reference decoder for the deflate format, RFC 1951, on the whole input as one bit stream and the whole output
 as one byte string: no bit buffer, no tables, no window. Return codes and the order of the checks are those of
 inflate.c. Input that a valid stream never contains can make the C program run on for ever, so the decoder
 carries a step allowance; NoFuel says that it was too small.
 */
module Deflate {
  import opened Bits
  import opened Bytes
  import opened Huffman

  /** Done up to bit `pos` with output `out`; an error return after output `out`; C behaviour that is not defined; not finished. */
  datatype Run = Done(pos: nat, out: seq<byte>) | Fail(code: nat, out: seq<byte>) | Undef | NoFuel

  // ----- lengths and distances, RFC 1951 section 3.2.5

  /** Extra bits of the length code `s`, 257..285: none for the first eight, then one more every four codes. */
  function LengthExtra(s: nat): nat
    requires 257 <= s <= 285
  {
    if s < 265 || s == 285 then 0 else (s - 261) / 4
  }

  /** Least length of code `s`: each code goes on where the one before ends; the last is for 258 alone. */
  function LengthBase(s: nat): nat
    requires 257 <= s <= 285
  {
    if s == 285 then 258
    else if s == 257 then 3
    else LengthBase(s - 1) + Pow2(LengthExtra(s - 1))
  }

  function DistExtra(d: nat): nat
    requires d < 30
  {
    if d < 4 then 0 else (d - 2) / 2
  }

  function DistBase(d: nat): nat
    requires d < 30
  {
    if d == 0 then 1 else DistBase(d - 1) + Pow2(DistExtra(d - 1))
  }

  // ----- the output

  /** The byte at position `i` of the output; the window starts out zero, so zeros precede the output. */
  function History(out: seq<byte>, i: int): byte {
    if 0 <= i < |out| then out[i] else 0
  }

  /** Append `len` bytes, each a copy of the byte `dist` positions back. */
  function CopyMatch(out: seq<byte>, dist: nat, len: nat): (r: seq<byte>)
    ensures |r| == |out| + len && out <= r
    decreases len
  {
    if len == 0 then out else CopyMatch(out + [History(out, |out| - dist)], dist, len - 1)
  }

  /** `n` whole bytes of the stream from bit `pos` on. */
  function RawBytes(x: nat, pos: nat, n: nat): (r: seq<byte>)
    ensures |r| == n
    decreases n
  {
    if n == 0 then []
    else
      ByteBound(x, pos);
      [Field(x, pos, 8)] + RawBytes(x, pos + 8, n - 1)
  }

  lemma ByteBound(x: nat, pos: nat)
    ensures Field(x, pos, 8) < 256
  {
    FieldBound(x, pos, 8);
    assert Pow2(8) == 256;
  }

  // ----- blocks

  /** Length and distance codes with any lengths of codes: section 3.2.3, from "loop" on. */
  ghost function RunCodes(lit: seq<nat>, dist: seq<nat>, x: nat, pos: nat, out: seq<byte>, fuel: nat): (r: Run)
    requires |lit| <= 288 && |dist| <= 30
    ensures r.Fail? ==> r.code == 1
    decreases fuel
  {
    if fuel == 0 then NoFuel
    else
      match DecodeSym(lit, Shr(x, pos))
      case Undefined => Undef
      case NoCode => Fail(1, out)
      case Sym(s) =>
        if s >= |lit| then Undef // never: the symbol is one of the set
        else
          var p1 := pos + lit[s];
          if s < 256 then RunCodes(lit, dist, x, p1, out + [s], fuel - 1)
          else if s == 256 then Done(p1, out)
          else if s > 285 then Fail(1, out)
          else
            var len := LengthBase(s) + Field(x, p1, LengthExtra(s));
            var p2 := p1 + LengthExtra(s);
            match DecodeSym(dist, Shr(x, p2))
            case Undefined => Undef
            case NoCode => Fail(1, out)
            case Sym(d) =>
              if d >= |dist| then Undef // never
              else
                var p3 := p2 + dist[d];
                var back := DistBase(d) + Field(x, p3, DistExtra(d));
                RunCodes(lit, dist, x, p3 + DistExtra(d), CopyMatch(out, back, len), fuel - 1)
  }

  /** Section 3.2.4 */
  function RunStored(x: nat, pos: nat, out: seq<byte>): Run {
    var p := pos + (if pos % 8 == 0 then 0 else 8 - pos % 8);
    var len := Field(x, p, 16);
    if len + Field(x, p + 16, 16) != 0xffff then Fail(1, out)
    else Done(p + 32 + 8 * len, out + RawBytes(x, p + 32, len))
  }

  /** Section 3.2.6 */
  function FixedLit(): (lens: seq<nat>) {
    seq(144, _ => 8) + seq(112, _ => 9) + seq(24, _ => 7) + seq(8, _ => 8)
  }

  function FixedDist(): (lens: seq<nat>) {
    seq(30, _ => 5)
  }

  /** The order in which the code length code lengths come, section 3.2.7. */
  const ORDER: seq<nat> := [16, 17, 18, 0, 8, 7, 9, 6, 10, 5, 11, 4, 12, 3, 13, 2, 14, 1, 15]

  /** The code length code after `n` of its lengths have been read, three bits each. */
  function CodeLengthCode(x: nat, pos: nat, n: nat): (lens: seq<nat>)
    requires n <= 19
    ensures |lens| == 19 && forall s :: 0 <= s < 19 ==> lens[s] <= 7
    decreases n
  {
    if n == 0 then seq(19, _ => 0)
    else
      ThreeBits(x, pos + 3 * (n - 1));
      CodeLengthCode(x, pos, n - 1)[ORDER[n - 1] := Field(x, pos + 3 * (n - 1), 3)]
  }

  datatype Lengths = Lengths(pos: nat, lens: seq<nat>) | BadLengths | UndefLengths

  /**
   The literal and distance code lengths, read as one list of `n`, so a repeat may run across the boundary. `prev`
   is what code 16 repeats; the C program starts it at 0, where the format leaves it open.
   */
  ghost function ReadLengths(code: seq<nat>, x: nat, pos: nat, n: nat, prev: nat, lens: seq<nat>): (r: Lengths)
    requires |code| == 19 && |lens| <= n && prev <= 15 && forall j :: 0 <= j < |lens| ==> lens[j] <= 15
    ensures r.Lengths? ==> |r.lens| == n && forall j :: 0 <= j < n ==> r.lens[j] <= 15
    decreases n - |lens|
  {
    if |lens| == n then Lengths(pos, lens)
    else
      match DecodeSym(code, Shr(x, pos))
      case Undefined => UndefLengths
      case NoCode => UndefLengths // never: see CodeLengthComplete
      case Sym(s) =>
        if s >= 19 then UndefLengths // never
        else
          var p := pos + code[s];
          if s < 16 then ReadLengths(code, x, p, n, s, lens + [s])
          else
            var bits := if s == 16 then 2 else if s == 17 then 3 else 7;
            var times := (if s == 18 then 11 else 3) + Field(x, p, bits);
            var what := if s == 16 then prev else 0;
            if |lens| + times > n then BadLengths
            else ReadLengths(code, x, p + bits, n, what, lens + Repeat(what, times))
  }

  function Repeat(v: nat, n: nat): (r: seq<nat>)
    ensures |r| == n && forall j :: 0 <= j < n ==> r[j] == v
  {
    seq(n, _ => v)
  }

  /** The return code for a set of lengths: too many codes, too few, or usable. A one-bit code may be alone. */
  function SetCode(lens: seq<nat>): nat
    requires forall s :: 0 <= s < |lens| ==> lens[s] <= BMAX
  {
    if KraftSum(lens) > Pow2(BMAX) then 2
    else if MaxLen(lens) > 1 && KraftSum(lens) < Pow2(BMAX) then 1
    else 0
  }

  /** Section 3.2.7 */
  ghost function RunDynamic(x: nat, pos: nat, out: seq<byte>, fuel: nat): Run {
    var nl := 257 + Field(x, pos, 5);
    var nd := 1 + Field(x, pos + 5, 5);
    var nb := 4 + Field(x, pos + 10, 4);
    if nl > 286 || nd > 30 then Fail(1, out)
    else
      FourBits(x, pos + 10);
      RunCoded(CodeLengthCode(x, pos + 14, nb), nl, nd, x, pos + 14 + 3 * nb, out, fuel)
  }

  /** ... once the code length code is known. */
  ghost function RunCoded(code: seq<nat>, nl: nat, nd: nat, x: nat, pos: nat, out: seq<byte>, fuel: nat): Run
    requires |code| == 19 && (forall s :: 0 <= s < 19 ==> code[s] <= 7) && nl <= 286 && nd <= 30
  {
    if SetCode(code) != 0 then Fail(SetCode(code), out)
    else
      match ReadLengths(code, x, pos, nl + nd, 0, [])
      case BadLengths => Fail(1, out)
      case UndefLengths => Undef
      case Lengths(p, lens) => RunTrees(lens[..nl], lens[nl..], x, p, out, fuel)
  }

  /** The two sets of lengths are checked in order, then used. */
  ghost function RunTrees(lit: seq<nat>, dist: seq<nat>, x: nat, pos: nat, out: seq<byte>, fuel: nat): Run
    requires |lit| <= 286 && forall s :: 0 <= s < |lit| ==> lit[s] <= 15
    requires |dist| <= 30 && forall s :: 0 <= s < |dist| ==> dist[s] <= 15
  {
    if SetCode(lit) != 0 then Fail(SetCode(lit), out)
    else if SetCode(dist) != 0 then Fail(SetCode(dist), out)
    else RunCodes(lit, dist, x, pos, out, fuel)
  }

  lemma FourBits(x: nat, pos: nat)
    ensures Field(x, pos, 4) <= 15
  {
    FieldBound(x, pos, 4);
    assert Pow2(4) == 16;
  }

  lemma ThreeBits(x: nat, pos: nat)
    ensures Field(x, pos, 3) <= 7
  {
    FieldBound(x, pos, 3);
    assert Pow2(3) == 8;
  }

  /** Section 3.2.3: a block after its last-block bit. */
  ghost function RunBlock(x: nat, pos: nat, out: seq<byte>, fuel: nat): Run {
    var kind := Field(x, pos, 2);
    if kind == 0 then RunStored(x, pos + 2, out)
    else if kind == 1 then RunCodes(FixedLit(), FixedDist(), x, pos + 2, out, fuel)
    else if kind == 2 then RunDynamic(x, pos + 2, out, fuel)
    else Fail(2, out)
  }

  /** An error return is never 0. */
  lemma BlockFails(x: nat, pos: nat, out: seq<byte>, fuel: nat)
    ensures RunBlock(x, pos, out, fuel).Fail? ==> RunBlock(x, pos, out, fuel).code != 0
  {
    hide KraftSum, MaxLen, Pow2, Shr, Low, Shl;
  }

  /** The blocks up to and including the last. */
  ghost function RunBlocks(x: nat, pos: nat, out: seq<byte>, fuel: nat): Run
    decreases fuel
  {
    if fuel == 0 then NoFuel
    else
      var r := RunBlock(x, pos + 1, out, fuel);
      if r.Done? && Field(x, pos, 1) == 0 then RunBlocks(x, r.pos, r.out, fuel - 1)
      else r
  }

  /** A whole deflate stream. */
  ghost function Inflated(bytes: seq<byte>, fuel: nat): Run {
    RunBlocks(Stream(bytes), 0, [], fuel)
  }
}
