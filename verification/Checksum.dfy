/**
 The Internet checksum of RFC 1071 as mkelfImage computes it (mkelfImage.c:41-85, 498-504) and as the loaded image
 checks it (linux-i386/convert_params.c:446-487), on a little-endian host: byte at a time with the carry wrapped at
 once, and the sums of parts put together.
 */
module Checksum {
  import opened Bytes

  // ----- the sum

  /** A byte at an even offset is the low half of its word. */
  function Weight(offset: nat): nat {
    if offset % 2 == 1 then 0x100 else 1
  }

  /** The sum of the 16-bit words, without any wrapping, of data that starts at `offset`. */
  function Total(data: seq<byte>, offset: nat): nat {
    if |data| == 0 then 0
    else Total(data[..|data| - 1], offset) + Weight(offset + |data| - 1) * data[|data| - 1]
  }

  /** The ones'-complement value of a sum: carries wrapped until it fits; 0 for a sum of nothing only. */
  function Norm(t: nat): (r: nat)
    ensures r <= 0xffff
  {
    if t == 0 then 0 else (t - 1) % 0xffff + 1
  }

  /** The checksum of `data`. */
  function Chk(data: seq<byte>): (c: nat)
    ensures c <= 0xffff
  {
    0xffff - Norm(Total(data, 0))
  }

  /** The value is the sum less some carries. */
  lemma NormIs(t: nat) returns (q: nat)
    ensures t == 0xffff * q + Norm(t)
    ensures Norm(t) == 0 <==> t == 0
  {
    q := if t == 0 then 0 else (t - 1) / 0xffff;
  }

  /** ... and that is the only such value. */
  lemma NormUnique(t: nat, q: nat, r: nat)
    requires t == 0xffff * q + r && r <= 0xffff && (r == 0 <==> t == 0)
    ensures Norm(t) == r
  {
    if t != 0 {
      QuotientUnique(t - 1, q, r - 1);
    }
  }

  lemma QuotientUnique(t: nat, q: nat, r: nat)
    requires t == 0xffff * q + r && r < 0xffff
    ensures t % 0xffff == r
  {
  }

  /** The example of RFC 1071 section 3 with its bytes in this order: words 0100, 03f2, f5f4, f7f6, sum f2dd. */
  lemma ExampleSum()
    ensures Total([0x00, 0x01, 0xf2, 0x03, 0xf4, 0xf5, 0xf6, 0xf7], 0) == 0x1_f2dc
    ensures Chk([0x00, 0x01, 0xf2, 0x03, 0xf4, 0xf5, 0xf6, 0xf7]) == 0x0d22
    ensures Chk([]) == 0xffff && Chk([0xff, 0xff]) == 0
  {
    hide Total, Norm;
    var s: seq<byte> := [0x00, 0x01, 0xf2, 0x03, 0xf4, 0xf5, 0xf6, 0xf7];
    EmptySum(s);
    SumNext(s, 0);
    SumNext(s, 1);
    SumNext(s, 2);
    SumNext(s, 3);
    SumNext(s, 4);
    SumNext(s, 5);
    SumNext(s, 6);
    SumNext(s, 7);
    var t: seq<byte> := [0xff, 0xff];
    EmptySum(t);
    SumNext(t, 0);
    SumNext(t, 1);
    assert s[..8] == s && t[..2] == t;
    ExampleNorms();
  }

  lemma ExampleNorms()
    ensures Norm(0x1_f2dc) == 0xf2dd && Norm(0) == 0 && Norm(0xffff) == 0xffff
  {
  }

  lemma SumNext(data: seq<byte>, i: nat)
    requires i < |data|
    ensures Total(data[..i + 1], 0) == Total(data[..i], 0) + (if i % 2 == 1 then 0x100 * data[i] else data[i] as nat)
  {
    assert data[..i + 1][..i] == data[..i];
  }

  lemma EmptySum(data: seq<byte>)
    ensures Total(data[..0], 0) == 0 && Total([], 0) == 0
  {
    assert data[..0] == [];
  }

  /** One end-around carry. */
  function Fold(sum: nat): nat {
    if sum > 0xffff then sum - 0xffff else sum
  }

  lemma NormAdd(x: nat, y: nat)
    ensures Fold(Norm(x) + Norm(y)) == Norm(x + y)
  {
    hide Norm;
    var p := NormIs(x);
    var q := NormIs(y);
    var s := Norm(x) + Norm(y);
    NormUnique(x + y, if s > 0xffff then p + q + 1 else p + q, Fold(s));
  }

  lemma SmallNorm(x: nat)
    requires x <= 0xffff
    ensures Norm(x) == x
  {
  }

  /** mkelfImage.c:62: adding the high half and masking is that carry. */
  lemma WrapIs(sum: nat)
    requires 0xffff < sum < 0x1_ffff
    ensures (sum + sum / 0x1_0000) % 0x1_0000 == Fold(sum)
  {
  }

  /** The next byte. */
  lemma NextByte(data: seq<byte>, i: nat)
    requires i < |data|
    ensures Total(data[..i + 1], 0) == Total(data[..i], 0) + Weight(i) * data[i]
    ensures Weight(i) * data[i] <= 0xff00
    ensures Fold(Norm(Total(data[..i], 0)) + Weight(i) * data[i]) == Norm(Total(data[..i + 1], 0))
  {
    hide Norm;
    assert data[..i + 1][..i] == data[..i];
    NormAdd(Total(data[..i], 0), Weight(i) * data[i]);
    SmallNorm(Weight(i) * data[i]);
  }

  /** The loop of ipchksum (lines 50-64) and of checksum_partial (convert_params.c:458-472), which ignores its first argument. */
  method PartialSum(data: seq<byte>) returns (sum: nat)
    ensures sum == Norm(Total(data, 0))
  {
    hide Norm, Total, Fold, Weight;
    sum := 0;
    assert data[..0] == [] && Norm(Total([], 0)) == 0 by { NothingSums(); }
    var i := 0;
    while i < |data|
      invariant 0 <= i <= |data|
      invariant sum == Norm(Total(data[..i], 0))
    {
      NextByte(data, i);
      WeightIs(i, data[i]);
      var value: nat := data[i];
      if i % 2 == 1 {
        value := value * 0x100;
      }
      sum := sum + value;
      if sum > 0xffff {
        WrapIs(sum);
        sum := (sum + sum / 0x1_0000) % 0x1_0000;
      }
      FoldIs(Norm(Total(data[..i], 0)) + value);
      i := i + 1;
    }
    assert data[..i] == data;
  }

  lemma NothingSums()
    ensures Norm(Total([], 0)) == 0
  {
  }

  lemma WeightIs(i: nat, b: byte)
    ensures Weight(i) * b == if i % 2 == 1 then 0x100 * b else b
  {
  }

  lemma FoldIs(sum: nat)
    ensures Fold(sum) == if sum > 0xffff then sum - 0xffff else sum
  {
  }

  /** ipchksum, and compute_checksum of convert_params.c:479-487, which is the same. */
  method IpChksum(data: seq<byte>) returns (c: nat)
    ensures c == Chk(data)
  {
    var sum := PartialSum(data);
    c := 0xffff - sum;
  }

  // ----- putting sums together

  /** bswap_16 */
  function Swap(x: nat): nat {
    x % 0x100 * 0x100 + x / 0x100
  }

  /** mkelfImage.c:68-85 */
  function AddIpchksums(offset: nat, sum: nat, more: nat): nat
    requires sum <= 0xffff && more <= 0xffff
  {
    var s, n := 0xffff - sum, 0xffff - more;
    var n' := if offset % 2 == 1 then Swap(n) else n;
    var checksum := s + n';
    0xffff - (if checksum > 0xffff then checksum - 0xffff else checksum)
  }

  lemma {:induction false} TotalSplit(a: seq<byte>, b: seq<byte>, offset: nat)
    ensures Total(a + b, offset) == Total(a, offset) + Total(b, offset + |a|)
  {
    hide Weight;
    if |b| == 0 {
      assert a + b == a;
    } else {
      var last := |b| - 1;
      assert (a + b)[..|a + b| - 1] == a + b[..last];
      TotalSplit(a, b[..last], offset);
    }
  }

  /** Only the parity of the offset matters. */
  lemma {:induction false} TotalParity(data: seq<byte>, offset: nat)
    ensures Total(data, offset) == Total(data, offset % 2)
  {
    if |data| != 0 {
      TotalParity(data[..|data| - 1], offset);
    }
  }

  /** An odd offset multiplies the sum by 256, up to carries. */
  lemma {:induction false} OddOffset(data: seq<byte>) returns (q: nat)
    ensures 0x100 * Total(data, 0) == Total(data, 1) + 0xffff * q
    ensures Total(data, 0) == 0 <==> Total(data, 1) == 0
  {
    if |data| == 0 {
      q := 0;
    } else {
      var last := |data| - 1;
      q := OddOffset(data[..last]);
      if last % 2 == 1 {
        q := q + data[last];
      }
    }
  }

  lemma SwapIs(x: nat)
    requires x <= 0xffff
    ensures Swap(x) <= 0xffff && (Swap(x) == 0 <==> x == 0)
    ensures 0x100 * x == Swap(x) + 0xffff * (x / 0x100)
  {
  }

  /** So swapping the bytes of the value at an even offset gives that at an odd one. */
  lemma SwapNorm(data: seq<byte>)
    ensures Swap(Norm(Total(data, 0))) == Norm(Total(data, 1))
  {
    hide Norm, Total;
    var t, n := Total(data, 0), Norm(Total(data, 0));
    var p := NormIs(t);
    var q := OddOffset(data);
    SwapIs(n);
    var x := Swap(n);
    assert Total(data, 1) - x == 0xffff * (0x100 * p + n / 0x100 - q);
    Quotient(Total(data, 1), x, 0x100 * p + n / 0x100 - q);
  }

  lemma Quotient(t: nat, x: nat, q: int)
    requires t - x == 0xffff * q && x <= 0xffff && (x == 0 <==> t == 0)
    ensures Norm(t) == x
  {
    hide Norm;
    assert q >= 0;
    NormUnique(t, q, x);
  }

  /** The sums of two parts give exactly the sum of the whole, wherever the cut is. */
  lemma AddExact(a: seq<byte>, b: seq<byte>)
    ensures AddIpchksums(|a|, Chk(a), Chk(b)) == Chk(a + b)
  {
    hide Norm, Total, Swap;
    TotalSplit(a, b, 0);
    TotalParity(b, |a|);
    SwapNorm(b);
    NormAdd(Total(a, 0), Total(b, |a|));
  }

  // ----- the image

  datatype Phdr = Phdr(data: seq<byte>, memsz: nat)

  function Zeros(n: nat): (z: seq<byte>)
    ensures |z| == n && forall j: nat :: j < n ==> z[j] == 0
  {
    seq(n, _ => 0)
  }

  /** A segment in memory: its bytes from the file, then zeros. */
  function Loaded(p: Phdr): (s: seq<byte>)
    requires |p.data| <= p.memsz
    ensures |s| == p.memsz && p.data <= s && forall j: nat :: |p.data| <= j < |s| ==> s[j] == 0
  {
    p.data + Zeros(p.memsz - |p.data|)
  }

  predicate Fits(phdrs: seq<Phdr>) {
    forall p :: p in phdrs ==> |p.data| <= p.memsz
  }

  function LoadedAll(phdrs: seq<Phdr>): seq<byte>
    requires Fits(phdrs)
  {
    if |phdrs| == 0 then [] else LoadedAll(phdrs[..|phdrs| - 1]) + Loaded(phdrs[|phdrs| - 1])
  }

  /** A further segment comes behind those before it. */
  lemma LoadedMore(a: seq<Phdr>, p: Phdr)
    requires Fits(a) && |p.data| <= p.memsz
    ensures Fits(a + [p]) && LoadedAll(a + [p]) == LoadedAll(a) + Loaded(p)
  {
    hide Loaded;
    assert (a + [p])[..|a|] == a;
  }

  lemma {:induction false} ZerosAddNothing(n: nat, offset: nat)
    ensures Total(Zeros(n), offset) == 0
  {
    if n != 0 {
      ZerosAddNothing(n - 1, offset);
      assert Zeros(n)[..n - 1] == Zeros(n - 1);
    }
  }

  lemma LoadedChk(p: Phdr)
    requires |p.data| <= p.memsz
    ensures Chk(Loaded(p)) == Chk(p.data)
  {
    hide Norm;
    TotalSplit(p.data, Zeros(p.memsz - |p.data|), 0);
    ZerosAddNothing(p.memsz - |p.data|, |p.data|);
  }

  /** write_elf, lines 498-504: the checksum over the files' bytes is that of the image as it is in memory. */
  method ImageChecksum(headers: seq<byte>, phdrs: seq<Phdr>) returns (checksum: nat)
    requires Fits(phdrs)
    ensures checksum == Chk(headers + LoadedAll(phdrs))
  {
    hide Chk;
    checksum := IpChksum(headers);
    var bytes := |headers|;
    var i := 0;
    assert headers + LoadedAll(phdrs[..0]) == headers;
    while i < |phdrs|
      invariant 0 <= i <= |phdrs| && bytes == |headers + LoadedAll(phdrs[..i])|
      invariant checksum == Chk(headers + LoadedAll(phdrs[..i]))
    {
      var p := phdrs[i];
      assert phdrs[..i + 1][..i] == phdrs[..i];
      ghost var before := headers + LoadedAll(phdrs[..i]);
      assert headers + LoadedAll(phdrs[..i + 1]) == before + Loaded(p);
      var c := IpChksum(p.data);
      LoadedChk(p);
      AddExact(before, Loaded(p));
      checksum := AddIpchksums(bytes, checksum, c);
      bytes := bytes + p.memsz;
      i := i + 1;
    }
    assert phdrs[..i] == phdrs;
  }

  // ----- a checksum inside what it covers

  /** Sixteen bits, low byte first. */
  function HalfBytes(c: nat): (h: seq<byte>)
    requires c <= 0xffff
    ensures |h| == 2
  {
    [c % 0x100, c / 0x100]
  }

  lemma HalfTotal(c: nat, offset: nat)
    requires c <= 0xffff && offset % 2 == 0
    ensures Total(HalfBytes(c), offset) == c
  {
    var h := HalfBytes(c);
    assert h[..1][..0] == [];
    assert Total(h[..1], offset) == h[0];
  }

  /** A header with its checksum stored in a half-word at an even offset that was zero: the sum over all of it is then 0. */
  lemma StoredChecksum(a: seq<byte>, b: seq<byte>)
    requires |a| % 2 == 0
    ensures Chk(a + HalfBytes(Chk(a + HalfBytes(0) + b)) + b) == 0
  {
    hide Norm, Total;
    var c := Chk(a + HalfBytes(0) + b);
    var t := Total(a, 0) + Total(b, |a| + 2);
    FieldTotal(a, 0, b);
    FieldTotal(a, c, b);
    var q := NormIs(t);
    assert t + c == 0xffff * q + 0xffff;
    NormUnique(t + c, q, 0xffff);
  }

  lemma FieldTotal(a: seq<byte>, c: nat, b: seq<byte>)
    requires |a| % 2 == 0 && c <= 0xffff
    ensures Total(a + HalfBytes(c) + b, 0) == Total(a, 0) + c + Total(b, |a| + 2)
  {
    hide Total;
    TotalSplit(a + HalfBytes(c), b, 0);
    TotalSplit(a, HalfBytes(c), 0);
    HalfTotal(c, |a|);
  }
}
