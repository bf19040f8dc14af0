/**
 ELF notes: mkelfImage.c:245-328 lays them out, and linux-i386/convert_params.c:824-880 and
 linux-ia64/convert_params.c:144-154, 235-303 walk them in the block a boot loader hands over. Both sides little-endian.
 Memory is given from the block on; what lies past it reads as zeros.
 */
module ElfNotes {
  import opened Bytes
  import opened Checksum
  import opened Words

  /** A note to write; the name is without the zero at its end. */
  datatype Note = Note(kind: nat, name: seq<byte>, desc: seq<byte>)

  const NHDR: nat := 12 // sizeof(Elf_Nhdr), and sizeof(Elf_Bhdr)
  const MAGIC: nat := 0x0E1F_B007

  // ----- writing

  /** roundup(x, 4) */
  function Round4(x: nat): (r: nat)
    ensures x <= r < x + 4 && r % 4 == 0
  {
    (x + 3) / 4 * 4
  }

  function NoteSize(n: Note): nat {
    NHDR + Round4(|n.name| + 1) + Round4(|n.desc|)
  }

  function SizeOf(notes: seq<Note>): nat {
    if |notes| == 0 then 0 else NoteSize(notes[0]) + SizeOf(notes[1..])
  }

  function Padded(s: seq<byte>): (p: seq<byte>)
    ensures |p| == Round4(|s|) && s <= p && forall j: nat :: |s| <= j < |p| ==> p[j] == 0
  {
    s + Zeros(Round4(|s|) - |s|)
  }

  function HeaderOf(n: Note): (h: seq<byte>)
    ensures |h| == NHDR
  {
    LongBytes(|n.name| + 1) + LongBytes(|n.desc|) + LongBytes(n.kind)
  }

  function NoteBytes(n: Note): (s: seq<byte>)
    ensures |s| == NoteSize(n)
  {
    HeaderOf(n) + Padded(n.name + [0]) + Padded(n.desc)
  }

  function Serialized(notes: seq<Note>): (s: seq<byte>)
    ensures |s| == SizeOf(notes)
  {
    if |notes| == 0 then [] else NoteBytes(notes[0]) + Serialized(notes[1..])
  }

  lemma {:induction false} SerializedMore(notes: seq<Note>, i: nat)
    requires i < |notes|
    ensures Serialized(notes[..i + 1]) == Serialized(notes[..i]) + NoteBytes(notes[i])
    ensures SizeOf(notes[..i + 1]) == SizeOf(notes[..i]) + NoteSize(notes[i])
    decreases |notes|
  {
    hide NoteBytes, NoteSize;
    if i == 0 {
      OneNote(notes[..1]);
    } else {
      SerializedMore(notes[1..], i - 1);
      assert notes[1..][..i - 1] == notes[..i][1..] && notes[1..][..i] == notes[..i + 1][1..];
    }
  }

  lemma OneNote(notes: seq<Note>)
    requires |notes| == 1
    ensures Serialized(notes) == NoteBytes(notes[0]) && SizeOf(notes) == NoteSize(notes[0])
  {
    hide NoteBytes, NoteSize;
    assert notes[1..] == [];
  }

  lemma {:induction false} SizeMono(notes: seq<Note>, i: nat)
    requires i <= |notes|
    ensures SizeOf(notes[..i]) <= SizeOf(notes)
    decreases |notes| - i
  {
    if i == |notes| {
      assert notes[..i] == notes;
    } else {
      SerializedMore(notes, i);
      SizeMono(notes, i + 1);
    }
  }

  method SizeofNotes(notes: seq<Note>) returns (size: nat)
    ensures size == |Serialized(notes)|
  {
    hide NoteSize, Serialized;
    size := 0;
    var i := 0;
    while i < |notes|
      invariant 0 <= i <= |notes| && size == SizeOf(notes[..i])
    {
      SerializedMore(notes, i);
      SizeIs(notes[i]);
      size := size + NHDR;
      size := size + Round4(|notes[i].name| + 1);
      size := size + Round4(|notes[i].desc|);
      i := i + 1;
    }
    assert notes[..i] == notes;
  }

  lemma SizeIs(n: Note)
    ensures NoteSize(n) == NHDR + Round4(|n.name| + 1) + Round4(|n.desc|)
  {
  }

  /** `src` put at `at`. */
  function Splice(s: seq<byte>, at: nat, src: seq<byte>): (r: seq<byte>)
    requires at + |src| <= |s|
    ensures |r| == |s|
  {
    s[..at] + src + s[at + |src|..]
  }

  method MemCpy(buf: array<byte>, at: nat, src: seq<byte>)
    requires at + |src| <= buf.Length
    modifies buf
    ensures buf[..] == Splice(old(buf[..]), at, src)
  {
    var i := 0;
    while i < |src|
      invariant 0 <= i <= |src|
      invariant buf[..] == old(buf[..at]) + src[..i] + old(buf[at + i..])
    {
      buf[at + i] := src[i];
      i := i + 1;
    }
  }

  lemma SpliceTwice(s: seq<byte>, at: nat, x: seq<byte>, y: seq<byte>)
    requires at + |x| + |y| <= |s|
    ensures Splice(Splice(s, at, x), at + |x|, y) == Splice(s, at, x + y)
  {
    assert Splice(s, at, x)[..at + |x|] == s[..at] + x;
    assert Splice(s, at, x)[at + |x| + |y|..] == s[at + |x| + |y|..];
  }

  ghost predicate ZerosAt(s: seq<byte>, from: nat, to: nat) {
    from <= to <= |s| && forall j: nat :: from <= j < to ==> s[j] == 0
  }

  /** Into zeros, the padding is there already. */
  lemma SplicePadded(s: seq<byte>, at: nat, src: seq<byte>, end: nat)
    requires at + Round4(|src|) <= end && ZerosAt(s, at, end)
    ensures Splice(s, at, src) == Splice(s, at, Padded(src))
    ensures ZerosAt(Splice(s, at, src), at + Round4(|src|), end)
  {
    hide Round4;
    var pad := Zeros(Round4(|src|) - |src|);
    assert s[at + |src|..] == pad + s[at + Round4(|src|)..];
  }

  /** One note of serialize_notes, lines 312-325. */
  method PutNote(buf: array<byte>, at: nat, n: Note)
    requires at + NoteSize(n) <= buf.Length && ZerosAt(buf[..], at, at + NoteSize(n))
    modifies buf
    ensures buf[..] == Splice(old(buf[..]), at, NoteBytes(n))
  {
    hide Splice, ZerosAt, HeaderOf, Padded, Round4;
    ghost var s, end := buf[..], at + NoteSize(n);
    HeaderIs(n);
    MemCpy(buf, at, LongBytes(|n.name| + 1) + LongBytes(|n.desc|) + LongBytes(n.kind));
    ghost var s1 := buf[..];
    ZerosAfter(s, at, HeaderOf(n), end);
    SplicePadded(s1, at + NHDR, n.name + [0], end);
    MemCpy(buf, at + NHDR, n.name + [0]);
    ghost var s2 := buf[..];
    SpliceTwice(s, at, HeaderOf(n), Padded(n.name + [0]));
    SplicePadded(s2, at + NHDR + Round4(|n.name| + 1), n.desc, end);
    MemCpy(buf, at + NHDR + Round4(|n.name| + 1), n.desc);
    SpliceTwice(s, at, HeaderOf(n) + Padded(n.name + [0]), Padded(n.desc));
  }

  lemma ZerosAfter(s: seq<byte>, at: nat, x: seq<byte>, end: nat)
    requires at + |x| <= end && ZerosAt(s, at, end)
    ensures ZerosAt(Splice(s, at, x), at + |x|, end)
  {
  }

  /** serialize_notes: exactly sizeof_notes bytes are written, and they are the notes. */
  method SerializeNotes(buf: array<byte>, notes: seq<Note>)
    requires SizeOf(notes) <= buf.Length
    modifies buf
    ensures buf[..] == Splice(old(buf[..]), 0, Serialized(notes))
  {
    hide NoteSize, Serialized, NoteBytes, ZerosAt, Splice;
    ghost var was := buf[..];
    var size := SizeofNotes(notes);
    MemClear(buf, size);
    ghost var cleared := buf[..];
    var offset, i := 0, 0;
    NothingYet(cleared, notes);
    while i < |notes|
      invariant 0 <= i <= |notes| && 0 <= offset == SizeOf(notes[..i]) <= size
      invariant buf[..] == Splice(cleared, 0, Serialized(notes[..i]))
    {
      var n := notes[i];
      SerializedMore(notes, i);
      SizeMono(notes, i + 1);
      SizeIs(n);
      ZerosAfter(cleared, 0, Serialized(notes[..i]), size);
      ZerosLess(buf[..], offset, offset + NoteSize(n), size);
      PutNote(buf, offset, n);
      SpliceTwice(cleared, 0, Serialized(notes[..i]), NoteBytes(n));
      offset := offset + NHDR + Round4(|n.name| + 1) + Round4(|n.desc|);
      i := i + 1;
    }
    assert notes[..i] == notes;
    SpliceAll(was, Serialized(notes));
  }

  lemma NothingYet(s: seq<byte>, notes: seq<Note>)
    ensures SizeOf(notes[..0]) == 0 && Splice(s, 0, Serialized(notes[..0])) == s
  {
    assert notes[..0] == [];
    assert s[..0] + [] + s[0..] == s;
  }

  lemma ZerosLess(s: seq<byte>, from: nat, to: nat, end: nat)
    requires ZerosAt(s, from, end) && from <= to <= end
    ensures ZerosAt(s, from, to)
  {
  }

  lemma SpliceAll(s: seq<byte>, x: seq<byte>)
    requires |x| <= |s|
    ensures Splice(Splice(s, 0, Zeros(|x|)), 0, x) == Splice(s, 0, x)
  {
    assert Splice(s, 0, Zeros(|x|))[|x|..] == s[|x|..];
  }

  /** memset to zero */
  method MemClear(buf: array<byte>, size: nat)
    requires size <= buf.Length
    modifies buf
    ensures buf[..] == Splice(old(buf[..]), 0, Zeros(size)) && ZerosAt(buf[..], 0, size)
  {
    ghost var was := buf[..];
    var k := 0;
    while k < size
      invariant 0 <= k <= size && buf[k..] == was[k..]
      invariant forall j: nat :: j < k ==> buf[j] == 0
    {
      buf[k] := 0;
      k := k + 1;
    }
    assert buf[..size] == Zeros(size);
    assert buf[..] == buf[..size] + buf[size..];
    assert was[..0] + Zeros(size) + was[size..] == Zeros(size) + was[size..];
  }

  lemma HeaderIs(n: Note)
    ensures HeaderOf(n) == LongBytes(|n.name| + 1) + LongBytes(|n.desc|) + LongBytes(n.kind)
  {
  }
}
