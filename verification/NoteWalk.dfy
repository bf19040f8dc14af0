/**
 The readers of a block of ELF notes: count_elf_notes, find_elf_note and the test of a block in
 linux-i386/convert_params.c (lines 425-438, 824-880, 1176-1191), and the memcmp of
 linux-ia64/convert_params.c (lines 144-154). Memory is given from the block on; what lies past it reads as
 zeros.
 */
module NoteWalk {
  import opened Bytes
  import opened Checksum
  import opened ElfNotes
  import opened Wrappers
  import opened Words

  /** A note as it is found: its name with the zero, and where its descriptor is. */
  datatype Found = Found(kind: nat, name: seq<byte>, desc: seq<byte>, descAt: nat)

  /** (x + 3) & ~3 on a 32-bit word */
  function Round4Word(x: nat): nat {
    (x + 3) % LONG / 4 * 4
  }

  function Slice(mem: seq<byte>, at: nat, n: nat): (s: seq<byte>)
    ensures |s| == n
  {
    seq<byte>(n, i requires 0 <= i => ByteAt(mem, at + i))
  }

  function DescAt(mem: seq<byte>, note: nat): nat {
    note + NHDR + Round4Word(LongAt(mem, note))
  }

  function NextAt(mem: seq<byte>, note: nat): (next: nat)
    ensures next >= note + NHDR
  {
    DescAt(mem, note) + Round4Word(LongAt(mem, note + 4))
  }

  function FoundAt(mem: seq<byte>, note: nat): Found {
    Found(LongAt(mem, note + 8), Slice(mem, note + NHDR, LongAt(mem, note)),
          Slice(mem, DescAt(mem, note), LongAt(mem, note + 4)), DescAt(mem, note))
  }

  /** The notes from `note` on, up to one that would pass the end. */
  function NotesIn(mem: seq<byte>, note: nat, end: nat): seq<Found>
    decreases if note < end then end - note else 0
  {
    if note >= end || NextAt(mem, note) > end then []
    else [FoundAt(mem, note)] + NotesIn(mem, NextAt(mem, note), end)
  }

  /** bhdr->b_size */
  function BlockEnd(mem: seq<byte>): nat {
    LongAt(mem, 4)
  }

  function BlockNotes(mem: seq<byte>): seq<Found> {
    NotesIn(mem, NHDR, BlockEnd(mem))
  }

  // ----- the walks

  method CountElfNotes(mem: seq<byte>) returns (count: nat)
    ensures count == |BlockNotes(mem)|
  {
    hide DescAt, LongAt, FoundAt, NextAt;
    count := 0;
    var note, end := NHDR, BlockEnd(mem);
    while note < end
      invariant 0 <= note && count + |NotesIn(mem, note, end)| == |BlockNotes(mem)|
      decreases if note < end then end - note else 0
    {
      var next := NextAt(mem, note);
      if next > end {
        break;
      }
      count := count + 1;
      note := next;
    }
  }

  /** memcmp of the i386 side, which never moves on from the first byte. */
  method MemCmpI386(s1: seq<byte>, s2: seq<byte>) returns (r: int)
    requires |s1| == |s2|
    ensures r == if |s1| == 0 then 0 else s2[0] as int - s1[0] as int
    ensures r == 0 <==> SameStart(s1, s2)
  {
    var i := 0;
    while i < |s1|
      invariant 0 <= i <= |s1|
      invariant i > 0 ==> s1[0] == s2[0]
    {
      if s1[0] != s2[0] {
        r := s2[0] as int - s1[0] as int;
        return;
      }
      i := i + 1;
    }
    return 0;
  }

  predicate SameStart(s1: seq<byte>, s2: seq<byte>) {
    |s1| == |s2| && (|s1| > 0 ==> s1[0] == s2[0])
  }

  /** memcmp of the ia64 side: equality, and otherwise the difference at the first byte that differs. */
  method MemCmpIa64(s1: seq<byte>, s2: seq<byte>) returns (r: int)
    requires |s1| == |s2|
    ensures r == 0 <==> s1 == s2
    ensures forall j: nat :: j < |s1| && s1[..j] == s2[..j] && s1[j] != s2[j] ==> r == s1[j] as int - s2[j] as int
  {
    var i := 0;
    while i < |s1|
      invariant 0 <= i <= |s1| && s1[..i] == s2[..i]
    {
      if s1[i] != s2[i] {
        r := s1[i] as int - s2[i] as int;
        FirstDifference(s1, s2, i);
        return;
      }
      i := i + 1;
    }
    assert s1[..i] == s1 && s2[..i] == s2;
    return 0;
  }

  lemma FirstDifference(s1: seq<byte>, s2: seq<byte>, i: nat)
    requires |s1| == |s2| && i < |s1| && s1[..i] == s2[..i] && s1[i] != s2[i]
    ensures forall j: nat :: j < |s1| && s1[..j] == s2[..j] && s1[j] != s2[j] ==> j == i
  {
    SamePrefix(s1, s2, i);
    forall j: nat | j < |s1|
      ensures s1[..j] == s2[..j] && s1[j] != s2[j] ==> j == i
    {
      SamePrefix(s1, s2, j);
    }
  }

  lemma SamePrefix(s1: seq<byte>, s2: seq<byte>, j: nat)
    requires |s1| == |s2| && j <= |s1|
    ensures s1[..j] == s2[..j] ==> forall i: nat :: i < j ==> s1[i] == s2[i]
  {
    forall i: nat | i < j
      ensures s1[..j][i] == s1[i] && s2[..j][i] == s2[i]
    {
    }
  }

  /** What find_elf_note takes for the note asked for. */
  predicate Taken(f: Found, name: seq<byte>, kind: nat) {
    f.kind == kind && SameStart(f.name, name)
  }

  predicate Wanted(f: Found, name: seq<byte>, kind: nat) {
    f.kind == kind && f.name == name
  }

  function FirstTaken(notes: seq<Found>, name: seq<byte>, kind: nat): Option<Found> {
    if |notes| == 0 then None
    else if Taken(notes[0], name, kind) then Some(notes[0])
    else FirstTaken(notes[1..], name, kind)
  }

  function FirstWanted(notes: seq<Found>, name: seq<byte>, kind: nat): Option<Found> {
    if |notes| == 0 then None
    else if Wanted(notes[0], name, kind) then Some(notes[0])
    else FirstWanted(notes[1..], name, kind)
  }

  /** find_elf_note: where the note is. */
  method FindElfNote(mem: seq<byte>, name: seq<byte>, kind: nat) returns (r: Option<nat>)
    ensures r.None? <==> FirstTaken(BlockNotes(mem), name, kind).None?
    ensures r.Some? ==> FirstTaken(BlockNotes(mem), name, kind) == Some(FoundAt(mem, r.value))
  {
    hide DescAt, LongAt, NextAt, Slice, SameStart;
    var note, end := NHDR, BlockEnd(mem);
    ghost var all := FirstTaken(BlockNotes(mem), name, kind);
    while note < end
      invariant 0 <= note && FirstTaken(NotesIn(mem, note, end), name, kind) == all
      decreases if note < end then end - note else 0
    {
      var next := NextAt(mem, note);
      if next > end {
        break;
      }
      ghost var rest := NotesIn(mem, note, end);
      assert rest[0] == FoundAt(mem, note) && rest[1..] == NotesIn(mem, next, end);
      if LongAt(mem, note + 8) == kind && LongAt(mem, note) == |name| {
        var c := MemCmpI386(Slice(mem, note + NHDR, |name|), name);
        if c == 0 {
          return Some(note);
        }
      }
      SizesDiffer(mem, note, name);
      note := next;
    }
    return None;
  }

  lemma SizesDiffer(mem: seq<byte>, note: nat, name: seq<byte>)
    ensures SameStart(FoundAt(mem, note).name, name) ==> LongAt(mem, note) == |name|
  {
    hide DescAt, LongAt;
  }

  ghost predicate FirstAt(notes: seq<Found>, i: nat, name: seq<byte>, kind: nat) {
    i < |notes| && Taken(notes[i], name, kind) && forall j: nat :: j < i ==> !Taken(notes[j], name, kind)
  }

  /** It is the first in the block, and nothing is found only if no note is taken. */
  lemma {:induction false} FirstTakenIs(notes: seq<Found>, name: seq<byte>, kind: nat)
    ensures FirstTaken(notes, name, kind).None? ==> forall f :: f in notes ==> !Taken(f, name, kind)
    ensures forall f :: FirstTaken(notes, name, kind) == Some(f) ==> exists i: nat :: FirstAt(notes, i, name, kind) && notes[i] == f
  {
    hide Taken;
    if |notes| != 0 {
      var rest, r := notes[1..], FirstTaken(notes, name, kind);
      FirstTakenIs(rest, name, kind);
      assert FirstAt(notes, 0, name, kind) || !Taken(notes[0], name, kind);
      if r.Some? && !Taken(notes[0], name, kind) {
        var i: nat :| FirstAt(rest, i, name, kind) && rest[i] == r.value;
        forall j: nat | j < i + 1
          ensures !Taken(notes[j], name, kind)
        {
          assert j > 0 ==> notes[j] == rest[j - 1];
        }
        assert FirstAt(notes, i + 1, name, kind) && notes[i + 1] == r.value;
      }
      assert forall f :: f in notes <==> f == notes[0] || f in rest;
    }
  }

  lemma {:induction false} ShortNames(notes: seq<Found>, name: seq<byte>, kind: nat)
    requires |name| <= 1
    ensures FirstTaken(notes, name, kind) == FirstWanted(notes, name, kind)
  {
    if |notes| != 0 {
      ShortNames(notes[1..], name, kind);
    }
  }

  // ----- reading back what was written

  function AsFound(n: Note, at: nat): Found {
    Found(n.kind, n.name + [0], n.desc, at + NHDR + Round4(|n.name| + 1))
  }

  function AllFound(notes: seq<Note>, at: nat): seq<Found> {
    if |notes| == 0 then [] else [AsFound(notes[0], at)] + AllFound(notes[1..], at + NoteSize(notes[0]))
  }

  lemma {:induction false} AllFoundSize(notes: seq<Note>, at: nat)
    ensures |AllFound(notes, at)| == |notes|
  {
    if |notes| != 0 {
      AllFoundSize(notes[1..], at + NoteSize(notes[0]));
    }
  }

  /** The words of a note header hold its numbers. */
  ghost predicate Writable(n: Note) {
    n.kind < LONG && |n.name| + 4 < LONG && |n.desc| + 3 < LONG
  }

  /** `s` is in memory at `at`. */
  ghost predicate Holds(mem: seq<byte>, at: nat, s: seq<byte>) {
    at + |s| <= |mem| && mem[at..at + |s|] == s
  }

  lemma HoldsParts(mem: seq<byte>, at: nat, x: seq<byte>, y: seq<byte>)
    requires Holds(mem, at, x + y)
    ensures Holds(mem, at, x) && Holds(mem, at + |x|, y)
  {
    assert mem[at..at + |x + y|][..|x|] == mem[at..at + |x|];
    assert mem[at..at + |x + y|][|x|..] == mem[at + |x|..at + |x| + |y|];
  }

  lemma HoldsSlice(mem: seq<byte>, at: nat, s: seq<byte>)
    requires Holds(mem, at, s)
    ensures Slice(mem, at, |s|) == s
  {
    forall i: nat | i < |s|
      ensures ByteAt(mem, at + i) == s[i]
    {
      assert mem[at..at + |s|][i] == mem[at + i];
    }
  }

  lemma HoldsLong(mem: seq<byte>, at: nat, x: nat)
    requires x < LONG && Holds(mem, at, LongBytes(x))
    ensures LongAt(mem, at) == x
  {
    hide LongBytes, Long;
    HoldsSlice(mem, at, LongBytes(x));
    var s := [ByteAt(mem, at), ByteAt(mem, at + 1), ByteAt(mem, at + 2), ByteAt(mem, at + 3)];
    assert s == Slice(mem, at, 4) == LongBytes(x);
    LongOfBytes(x, s, 0);
  }

  lemma HoldsPadded(mem: seq<byte>, at: nat, s: seq<byte>)
    requires Holds(mem, at, Padded(s))
    ensures Slice(mem, at, |s|) == s
  {
    HoldsParts(mem, at, s, Zeros(Round4(|s|) - |s|));
    HoldsSlice(mem, at, s);
  }

  lemma RoundSame(x: nat)
    requires x + 3 < LONG
    ensures Round4Word(x) == Round4(x)
  {
  }

  /** Sizes within three of 2^32 round to 0. */
  lemma RoundWraps(x: nat)
    requires 0xffff_fffd <= x <= 0xffff_ffff
    ensures Round4Word(x) == 0
  {
  }

  /** A note that was written is found as it was. */
  lemma NoteFound(mem: seq<byte>, at: nat, n: Note)
    requires Writable(n) && Holds(mem, at, NoteBytes(n))
    ensures FoundAt(mem, at) == AsFound(n, at) && NextAt(mem, at) == at + NoteSize(n)
  {
    hide LongBytes, LongAt, Round4, Round4Word, Padded, Slice, Holds;
    HoldsParts(mem, at, HeaderOf(n) + Padded(n.name + [0]), Padded(n.desc));
    HoldsParts(mem, at, HeaderOf(n), Padded(n.name + [0]));
    HoldsParts(mem, at, LongBytes(|n.name| + 1) + LongBytes(|n.desc|), LongBytes(n.kind));
    HoldsParts(mem, at, LongBytes(|n.name| + 1), LongBytes(|n.desc|));
    HoldsLong(mem, at, |n.name| + 1);
    HoldsLong(mem, at + 4, |n.desc|);
    HoldsLong(mem, at + 8, n.kind);
    RoundSame(|n.name| + 1);
    RoundSame(|n.desc|);
    HoldsPadded(mem, at + NHDR, n.name + [0]);
    HoldsPadded(mem, at + NHDR + Round4(|n.name| + 1), n.desc);
  }

  /** Where the parts of a written note are, in numbers: three words, the name with its zero, the descriptor, the next note. */
  lemma NotePlaces(mem: seq<byte>, at: nat, n: Note)
    requires Writable(n) && Holds(mem, at, NoteBytes(n))
    ensures LongAt(mem, at) == |n.name| + 1 && LongAt(mem, at + 4) == |n.desc| && LongAt(mem, at + 8) == n.kind
    ensures Slice(mem, at + 12, |n.name| + 1) == n.name + [0]
    ensures var d := at + 12 + (|n.name| + 4) / 4 * 4;
      && FoundAt(mem, at).descAt == d && Slice(mem, d, |n.desc|) == n.desc && NextAt(mem, at) == d + (|n.desc| + 3) / 4 * 4
  {
    hide LongBytes, LongAt, Slice, Holds, DescAt;
    NoteFound(mem, at, n);
    HoldsParts(mem, at, HeaderOf(n) + Padded(n.name + [0]), Padded(n.desc));
    HoldsParts(mem, at, HeaderOf(n), Padded(n.name + [0]));
    HoldsParts(mem, at, LongBytes(|n.name| + 1) + LongBytes(|n.desc|), LongBytes(n.kind));
    HoldsParts(mem, at, LongBytes(|n.name| + 1), LongBytes(|n.desc|));
    HoldsLong(mem, at, |n.name| + 1);
    HoldsLong(mem, at + 4, |n.desc|);
    HoldsLong(mem, at + 8, n.kind);
    HoldsPadded(mem, at + 12, n.name + [0]);
    HoldsPadded(mem, at + 12 + Round4(|n.name| + 1), n.desc);
  }

  /** The walk over serialized notes finds each of them, in order, and stops at the end. */
  lemma {:induction false} WalkFinds(mem: seq<byte>, at: nat, notes: seq<Note>)
    requires Holds(mem, at, Serialized(notes)) && forall n :: n in notes ==> Writable(n)
    ensures NotesIn(mem, at, at + SizeOf(notes)) == AllFound(notes, at)
    decreases |notes|
  {
    hide FoundAt, NextAt, NoteSize, NoteBytes, Holds, Writable, AsFound;
    if |notes| != 0 {
      HoldsParts(mem, at, NoteBytes(notes[0]), Serialized(notes[1..]));
      NoteFound(mem, at, notes[0]);
      WalkFinds(mem, at + NoteSize(notes[0]), notes[1..]);
    }
  }

  // ----- when find_elf_note is right

  /** A block of one note without a descriptor, whose name need not end in a zero. */
  function OneNoteBlock(name: seq<byte>, kind: nat): seq<byte> {
    (LongBytes(MAGIC) + LongBytes(2 * NHDR + Round4(|name|)) + LongBytes(0))
    + (LongBytes(|name|) + LongBytes(0) + LongBytes(kind) + Padded(name))
  }

  lemma OneNoteFields(name: seq<byte>, kind: nat)
    ensures var mem := OneNoteBlock(name, kind);
      && Holds(mem, 4, LongBytes(2 * NHDR + Round4(|name|))) && Holds(mem, NHDR, LongBytes(|name|))
      && Holds(mem, NHDR + 4, LongBytes(0)) && Holds(mem, NHDR + 8, LongBytes(kind))
      && Holds(mem, 2 * NHDR, Padded(name))
  {
    hide Holds, LongBytes, Padded, Round4;
    var mem := OneNoteBlock(name, kind);
    var size := LongBytes(2 * NHDR + Round4(|name|));
    var head := LongBytes(|name|) + LongBytes(0) + LongBytes(kind);
    HoldsAll(mem);
    HoldsParts(mem, 0, LongBytes(MAGIC) + size + LongBytes(0), head + Padded(name));
    HoldsParts(mem, 0, LongBytes(MAGIC) + size, LongBytes(0));
    HoldsParts(mem, 0, LongBytes(MAGIC), size);
    HoldsParts(mem, NHDR, head, Padded(name));
    HoldsParts(mem, NHDR, LongBytes(|name|) + LongBytes(0), LongBytes(kind));
    HoldsParts(mem, NHDR, LongBytes(|name|), LongBytes(0));
  }

  lemma HoldsAll(mem: seq<byte>)
    ensures Holds(mem, 0, mem)
  {
  }

  /** The walk finds that note and no other. */
  lemma OneNoteFound(name: seq<byte>, kind: nat)
    requires kind < LONG && 2 * NHDR + Round4(|name|) < LONG
    ensures BlockNotes(OneNoteBlock(name, kind)) == [Found(kind, name, [], 2 * NHDR + Round4(|name|))]
  {
    hide Holds, LongBytes, LongAt, Padded, Slice, OneNoteBlock;
    var mem := OneNoteBlock(name, kind);
    OneNoteFields(name, kind);
    HoldsLong(mem, 4, 2 * NHDR + Round4(|name|));
    HoldsLong(mem, NHDR, |name|);
    HoldsLong(mem, NHDR + 4, 0);
    HoldsLong(mem, NHDR + 8, kind);
    HoldsPadded(mem, 2 * NHDR, name);
    RoundSame(|name|);
    RoundSame(0);
    assert NotesIn(mem, BlockEnd(mem), BlockEnd(mem)) == [];
  }

  /** find_elf_note finds the right note, in every block, for names of at most one byte, and for no other name that a block can hold. */
  lemma FindsWantedIff(name: seq<byte>, kind: nat)
    requires kind < LONG && 2 * NHDR + Round4(|name|) < LONG
    ensures (forall mem: seq<byte> :: FirstTaken(BlockNotes(mem), name, kind) == FirstWanted(BlockNotes(mem), name, kind))
        <==> |name| <= 1
  {
    hide BlockNotes;
    if |name| <= 1 {
      forall mem: seq<byte>
        ensures FirstTaken(BlockNotes(mem), name, kind) == FirstWanted(BlockNotes(mem), name, kind)
      {
        ShortNames(BlockNotes(mem), name, kind);
      }
    } else {
      WrongNote(name, kind);
    }
  }

  /** The name with its second byte changed. */
  function OtherName(name: seq<byte>): seq<byte>
    requires |name| > 1
  {
    name[1 := if name[1] == 0 then 1 else 0]
  }

  /** In a block with that note only, it is taken for the one asked for. */
  lemma WrongNote(name: seq<byte>, kind: nat)
    requires |name| > 1 && kind < LONG && 2 * NHDR + Round4(|name|) < LONG
    ensures var notes := BlockNotes(OneNoteBlock(OtherName(name), kind));
      FirstTaken(notes, name, kind).Some? && FirstWanted(notes, name, kind).None?
  {
    hide BlockNotes, OneNoteBlock;
    var other := OtherName(name);
    assert other[1] != name[1];
    OneNoteFound(other, kind);
    var notes := BlockNotes(OneNoteBlock(other, kind));
    assert Taken(notes[0], name, kind) && !Wanted(notes[0], name, kind);
    assert FirstWanted(notes[1..], name, kind) == None;
  }

  // ----- the block

  /** An Elf_Bhdr and its notes; `checksum` is stored at offset 8. */
  function Block(notes: seq<Note>, checksum: nat): seq<byte>
    requires checksum <= 0xffff && |notes| <= 0xffff
  {
    LongBytes(MAGIC) + LongBytes(NHDR + SizeOf(notes)) + HalfBytes(checksum) + (HalfBytes(|notes|) + Serialized(notes))
  }

  /** bhdr->b_checksum, bhdr->b_records */
  function HalfAt(mem: seq<byte>, at: nat): nat {
    var (b0: nat, b1: nat) := (ByteAt(mem, at), ByteAt(mem, at + 1));
    b0 + 0x100 * b1
  }

  /** The half-word at `at` is the number in the 16 bits of the stream from byte `at` on. */
  lemma HalfInStream(mem: seq<byte>, at: nat)
    ensures HalfAt(mem, at) == Field(Stream(mem), 8 * at, 16)
  {
    hide Field, Stream;
    StreamByte(mem, at);
    StreamByte(mem, at + 1);
    ByteAndMore(Stream(mem), 8 * at, 8);
  }

  /** convert_params.c:1176-1191 */
  method AcceptsElfBoot(mem: seq<byte>) returns (ok: bool)
    ensures ok <==>
      && LongAt(mem, 0) == 0x0E1F_B007
      && (HalfAt(mem, 8) == 0 || Chk(Slice(mem, 0, LongAt(mem, 4))) == 0)
      && HalfAt(mem, 10) == |NotesIn(mem, 12, LongAt(mem, 4))|
  {
    var checksum := 0;
    if HalfAt(mem, 8) != 0 {
      checksum := IpChksum(Slice(mem, 0, BlockEnd(mem)));
    }
    var count := CountElfNotes(mem);
    ok := LongAt(mem, 0) == MAGIC && checksum == 0 && HalfAt(mem, 10) == count;
  }

  lemma HoldsHalf(mem: seq<byte>, at: nat, x: nat)
    requires x <= 0xffff && Holds(mem, at, HalfBytes(x))
    ensures HalfAt(mem, at) == x
  {
    HoldsSlice(mem, at, HalfBytes(x));
    assert Slice(mem, at, 2)[0] == ByteAt(mem, at) && Slice(mem, at, 2)[1] == ByteAt(mem, at + 1);
  }

  /** The fields of a block are where its readers look. */
  lemma BlockFields(mem: seq<byte>, notes: seq<Note>, c: nat)
    requires c <= 0xffff && |notes| <= 0xffff && Holds(mem, 0, Block(notes, c))
    ensures Holds(mem, 0, LongBytes(MAGIC)) && Holds(mem, 4, LongBytes(NHDR + SizeOf(notes)))
    ensures Holds(mem, 8, HalfBytes(c)) && Holds(mem, 10, HalfBytes(|notes|)) && Holds(mem, NHDR, Serialized(notes))
    ensures |Block(notes, c)| == NHDR + SizeOf(notes)
  {
    hide LongBytes, HalfBytes, Holds, Serialized, SizeOf;
    var lead := LongBytes(MAGIC) + LongBytes(NHDR + SizeOf(notes));
    var tail := HalfBytes(|notes|) + Serialized(notes);
    HoldsParts(mem, 0, lead + HalfBytes(c), tail);
    HoldsParts(mem, 0, lead, HalfBytes(c));
    HoldsParts(mem, 0, LongBytes(MAGIC), LongBytes(NHDR + SizeOf(notes)));
    HoldsParts(mem, 10, HalfBytes(|notes|), Serialized(notes));
  }

  lemma BlockParts(mem: seq<byte>, notes: seq<Note>, c: nat)
    requires c <= 0xffff && |notes| <= 0xffff && NHDR + SizeOf(notes) < LONG
    requires Holds(mem, 0, Block(notes, c)) && forall n :: n in notes ==> Writable(n)
    ensures LongAt(mem, 0) == MAGIC && BlockEnd(mem) == NHDR + SizeOf(notes)
    ensures HalfAt(mem, 8) == c && HalfAt(mem, 10) == |notes|
    ensures BlockNotes(mem) == AllFound(notes, NHDR) && Slice(mem, 0, BlockEnd(mem)) == Block(notes, c)
  {
    hide LongBytes, LongAt, HalfAt, HalfBytes, Holds, Serialized, Slice, NotesIn, AllFound, SizeOf, Writable, Block;
    BlockFields(mem, notes, c);
    HoldsLong(mem, 0, MAGIC);
    HoldsLong(mem, 4, NHDR + SizeOf(notes));
    HoldsHalf(mem, 8, c);
    HoldsHalf(mem, 10, |notes|);
    HoldsSlice(mem, 0, Block(notes, c));
    WalkFinds(mem, NHDR, notes);
  }

  /** A block with its checksum stored in it passes the test, and its notes are found, whatever lies behind it. */
  lemma BlockAccepted(notes: seq<Note>, rest: seq<byte>)
    requires |notes| <= 0xffff && NHDR + SizeOf(notes) < LONG && forall n :: n in notes ==> Writable(n)
    ensures var mem := Block(notes, Chk(Block(notes, 0))) + rest;
      && LongAt(mem, 0) == 0x0E1F_B007 && LongAt(mem, 4) == BlockEnd(mem) == 12 + SizeOf(notes)
      && Chk(Slice(mem, 0, BlockEnd(mem))) == 0
      && HalfAt(mem, 10) == |BlockNotes(mem)| && BlockNotes(mem) == AllFound(notes, 12)
  {
    hide LongBytes, LongAt, HalfAt, HalfBytes, Holds, Serialized, Slice, NotesIn, AllFound, SizeOf, Total, Norm, Chk;
    var c := Chk(Block(notes, 0));
    var mem := Block(notes, c) + rest;
    StartsWith(Block(notes, c), rest);
    BlockParts(mem, notes, c);
    AllFoundSize(notes, NHDR);
    StoredChecksum(LongBytes(MAGIC) + LongBytes(NHDR + SizeOf(notes)), HalfBytes(|notes|) + Serialized(notes));
  }

  lemma StartsWith(s: seq<byte>, rest: seq<byte>)
    ensures Holds(s + rest, 0, s)
  {
    assert (s + rest)[0..|s|] == s;
  }
}
