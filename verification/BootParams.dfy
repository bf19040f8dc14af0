/**
 What the ia64 program takes from the notes of its boot loader: strappend, append_command_line and convert_bhdr_params
 of linux-ia64/convert_params.c (lines 156-176, 196-200, 229-303).
 */
module BootParams {
  import opened Bits
  import opened Bytes
  import opened Checksum
  import opened ElfNotes
  import opened NoteWalk
  import opened Words
  import opened Wrappers

  // ----- strings

  /** The string in a buffer: up to the first zero, or all of it. */
  function StrOf(s: seq<byte>): (r: seq<byte>)
    ensures |r| <= |s| && r == s[..|r|] && (|r| < |s| ==> s[|r|] == 0)
    ensures forall j: nat :: j < |r| ==> r[j] != 0
  {
    if |s| == 0 || s[0] == 0 then [] else [s[0]] + StrOf(s[1..])
  }

  /** A string followed by another, cut to leave room for the zero. */
  function Appended(dest: seq<byte>, src: seq<byte>, max: nat): (r: seq<byte>)
    requires max > 0
    ensures r <= dest + src && |r| == if |dest| + |src| < max then |dest| + |src| else max - 1
  {
    if |dest + src| < max then dest + src else (dest + src)[..max - 1]
  }

  const SPACE: seq<byte> := [0x20]

  /** A buffer holds a string when it starts with it, without zeros, and a zero follows or the end. */
  lemma {:induction false} StrIs(s: seq<byte>, n: nat)
    requires n <= |s| && (n < |s| ==> s[n] == 0) && 0 !in s[..n]
    ensures StrOf(s) == s[..n]
  {
    if n != 0 {
      assert s[0] == s[..n][0];
      assert s[..n] == [s[0]] + s[1..][..n - 1];
      StrIs(s[1..], n - 1);
    }
  }

  /** A blank read from its constant is the blank, however long the buffer. */
  lemma SpaceString(max: nat)
    requires max > 0
    ensures StrOf(Slice(SPACE, 0, max)) == SPACE
  {
    var s := Slice(SPACE, 0, max);
    assert s[0] == 0x20;
    StrIs(s, 1);
    assert s[..1] == SPACE;
  }

  /** strappend on a buffer of `max` bytes, from the string at `at` in memory. */
  method StrAppend(dest: array<byte>, mem: seq<byte>, at: nat)
    requires dest.Length > 0
    modifies dest
    ensures StrOf(dest[..]) == Appended(old(StrOf(dest[..])), StrOf(Slice(mem, at, dest.Length)), dest.Length)
  {
    hide StrOf, ByteAt, Appended;
    ghost var was, src := dest[..], Slice(mem, at, dest.Length);
    var max, len := dest.Length, 0;
    while len < max && dest[len] != 0
      invariant 0 <= len <= max && 0 !in was[..len]
    {
      assert was[..len + 1] == was[..len] + [was[len]];
      len := len + 1;
    }
    StrIs(was, len);
    var i := 0;
    while i + len < max && ByteAt(mem, at + i) != 0
      invariant 0 <= i && i + len <= max && 0 !in src[..i]
      invariant dest[..len + i] == was[..len] + src[..i]
    {
      dest[len + i] := ByteAt(mem, at + i);
      assert src[..i + 1] == src[..i] + [src[i]];
      i := i + 1;
    }
    assert i + len < max ==> src[i] == 0;
    ghost var copied := dest[..];
    len := if len + i >= max then max - 1 else len + i;
    dest[len] := 0;
    Closed(was, src, copied, dest[..], max, i);
  }

  /** A zero at the end of what was copied, or at the end of the buffer, and the string is there. */
  lemma Closed(was: seq<byte>, src: seq<byte>, copied: seq<byte>, after: seq<byte>, max: nat, i: nat)
    requires |was| == |src| == |copied| == max > 0 && |StrOf(was)| + i <= max && 0 !in src[..i]
    requires copied[..|StrOf(was)| + i] == StrOf(was) + src[..i] && (|StrOf(was)| + i < max ==> src[i] == 0)
    requires after == copied[if |StrOf(was)| + i >= max then max - 1 else |StrOf(was)| + i := 0]
    ensures StrOf(after) == Appended(StrOf(was), StrOf(src), max)
  {
    hide StrOf, Appended;
    var len := |StrOf(was)|;
    var n := if len + i >= max then max - 1 else len + i;
    Copied(StrOf(was), src, i);
    assert after[..n] == copied[..len + i][..n];
    forall b: byte | b in after[..n]
      ensures b != 0
    {
      assert b in StrOf(was) + src[..i];
      assert b in StrOf(was) || b in src[..i];
    }
    StrIs(after, n);
  }

  /** What fits of a string and its source, up to the source's zero, is what appending makes of them. */
  lemma Copied(dest: seq<byte>, src: seq<byte>, i: nat)
    requires |dest| + i <= |src| && |src| > 0 && 0 !in src[..i]
    requires |dest| + i < |src| ==> src[i] == 0
    ensures Appended(dest, StrOf(src), |src|)
         == if |dest| + i < |src| then dest + src[..i] else (dest + src[..i])[..|src| - 1]
  {
    hide StrOf;
    StrFrom(src, i);
    if |dest| + i < |src| {
      StrIs(src, i);
    } else {
      AppendedCut(dest, StrOf(src), i, |src|);
    }
  }

  lemma {:induction false} StrFrom(s: seq<byte>, n: nat)
    requires n <= |s| && 0 !in s[..n]
    ensures n <= |StrOf(s)| && StrOf(s)[..n] == s[..n]
  {
    if n != 0 {
      assert s[0] == s[..n][0];
      assert s[..n] == [s[0]] + s[1..][..n - 1];
      StrFrom(s[1..], n - 1);
    }
  }

  lemma AppendedCut(dest: seq<byte>, src: seq<byte>, i: nat, max: nat)
    requires i <= |src| && |dest| + i == max > 0
    ensures Appended(dest, src, max) == (dest + src[..i])[..max - 1]
  {
    assert (dest + src)[..max] == dest + src[..i];
  }

  // ----- the notes

  const ETHERBOOT: seq<byte> := [0x45, 0x74, 0x68, 0x65, 0x72, 0x62, 0x6f, 0x6f, 0x74, 0]
  const EBN_FIRMWARE_TYPE: nat := 1
  const EBN_BOOTLOADER_NAME: nat := 2
  const EBN_BOOTLOADER_VERSION: nat := 3
  const EBN_COMMAND_LINE: nat := 4
  const EB_IA64_SYSTAB: nat := 1
  const EB_IA64_MEMMAP: nat := 2
  const EB_IA64_FPSWA: nat := 3
  const EB_IA64_CONINFO: nat := 4

  /** The fields of bp that convert_bhdr_params sets, the command line, and where the names are that it prints. */
  datatype Params = Params(command: seq<byte>, firmware: Option<nat>, ldrName: Option<nat>, ldrVersion: Option<nat>,
                           efiSystab: nat, fpswa: nat, consoleInfo: seq<byte>,
                           efiMemmap: nat, memmapSize: nat, memdescSize: nat, memdescVersion: nat)

  /** A 64-bit word, lowest byte first. */
  function QuadAt(mem: seq<byte>, at: nat): nat {
    LongAt(mem, at) + LONG * LongAt(mem, at + 4)
  }

  /** One note, with a command line buffer of `max` bytes. */
  function Apply(mem: seq<byte>, max: nat, bp: Params, f: Found): Params
    requires max > 0
  {
    if |f.name| == 0 then
      if f.kind == EBN_FIRMWARE_TYPE then bp.(firmware := Some(f.descAt))
      else if f.kind == EBN_BOOTLOADER_NAME then bp.(ldrName := Some(f.descAt))
      else if f.kind == EBN_BOOTLOADER_VERSION then bp.(ldrVersion := Some(f.descAt))
      else if f.kind == EBN_COMMAND_LINE then
        bp.(command := Appended(Appended(bp.command, SPACE, max), StrOf(Slice(mem, f.descAt, max)), max))
      else bp
    else if f.name != ETHERBOOT then bp
    else if f.kind == EB_IA64_SYSTAB then bp.(efiSystab := QuadAt(mem, f.descAt))
    else if f.kind == EB_IA64_FPSWA then bp.(fpswa := QuadAt(mem, f.descAt))
    else if f.kind == EB_IA64_CONINFO then bp.(consoleInfo := Slice(mem, f.descAt, 8))
    else if f.kind == EB_IA64_MEMMAP then
      bp.(efiMemmap := f.descAt + 32, memmapSize := QuadAt(mem, f.descAt), memdescSize := QuadAt(mem, f.descAt + 16),
          memdescVersion := QuadAt(mem, f.descAt + 24) % LONG)
    else bp
  }

  function ApplyAll(mem: seq<byte>, max: nat, bp: Params, notes: seq<Found>): Params
    requires max > 0
    decreases |notes|
  {
    if |notes| == 0 then bp else ApplyAll(mem, max, Apply(mem, max, bp, notes[0]), notes[1..])
  }

  class BootParam {
    const cmdline: array<byte>
    var firmware: Option<nat>
    var ldrName: Option<nat>
    var ldrVersion: Option<nat>
    var efiSystab: nat
    var fpswa: nat
    var consoleInfo: seq<byte>
    var efiMemmap: nat
    var memmapSize: nat
    var memdescSize: nat
    var memdescVersion: nat

    constructor (buf: array<byte>)
      ensures cmdline == buf
    {
      cmdline := buf;
      firmware, ldrName, ldrVersion := None, None, None;
      efiSystab, fpswa, consoleInfo, efiMemmap, memmapSize, memdescSize, memdescVersion := 0, 0, [], 0, 0, 0, 0;
    }

    ghost function State(): Params
      reads this, cmdline
    {
      Params(StrOf(cmdline[..]), firmware, ldrName, ldrVersion, efiSystab, fpswa, consoleInfo,
             efiMemmap, memmapSize, memdescSize, memdescVersion)
    }

    /** Every note that ends within the block has its effect, in order. */
    method ConvertBhdrParams(mem: seq<byte>)
      requires cmdline.Length > 0
      modifies this, cmdline
      ensures State() == ApplyAll(mem, cmdline.Length,
        old(State()).(firmware := None, ldrName := None, ldrVersion := None), BlockNotes(mem))
    {
      hide DescAt, LongAt, NextAt, Slice, QuadAt, StrOf, Apply;
      firmware, ldrName, ldrVersion := None, None, None;
      ghost var bp := State();
      var note, end := NHDR, BlockEnd(mem);
      while note < end
        invariant 0 <= note
        invariant ApplyAll(mem, cmdline.Length, State(), NotesIn(mem, note, end))
               == ApplyAll(mem, cmdline.Length, bp, BlockNotes(mem))
        decreases if note < end then end - note else 0
      {
        var next := NextAt(mem, note);
        if next > end {
          break;
        }
        ghost var rest := NotesIn(mem, note, end);
        assert rest[0] == FoundAt(mem, note) && rest[1..] == NotesIn(mem, next, end);
        ConvertNote(mem, note);
        note := next;
      }
    }

    /** Lines 251-301 */
    method ConvertNote(mem: seq<byte>, note: nat)
      requires cmdline.Length > 0
      modifies this, cmdline
      ensures State() == Apply(mem, cmdline.Length, old(State()), FoundAt(mem, note))
    {
      hide DescAt, LongAt, NextAt, QuadAt, StrOf;
      var namesz, kind, desc := LongAt(mem, note), LongAt(mem, note + 8), DescAt(mem, note);
      if namesz == 0 {
        if kind == EBN_FIRMWARE_TYPE {
          firmware := Some(desc);
        } else if kind == EBN_BOOTLOADER_NAME {
          ldrName := Some(desc);
        } else if kind == EBN_BOOTLOADER_VERSION {
          ldrVersion := Some(desc);
        } else if kind == EBN_COMMAND_LINE {
          AppendCommandLine(mem, desc);
        }
      } else if namesz == 10 {
        var c := MemCmpIa64(Slice(mem, note + NHDR, 10), ETHERBOOT);
        if c == 0 {
          if kind == EB_IA64_SYSTAB {
            efiSystab := QuadAt(mem, desc);
          } else if kind == EB_IA64_FPSWA {
            fpswa := QuadAt(mem, desc);
          } else if kind == EB_IA64_CONINFO {
            consoleInfo := Slice(mem, desc, 8);
          } else if kind == EB_IA64_MEMMAP {
            efiMemmap := desc + 32;
            memmapSize := QuadAt(mem, desc);
            memdescSize := QuadAt(mem, desc + 16);
            memdescVersion := QuadAt(mem, desc + 24) % LONG;
          }
        }
      }
    }

    /** Lines 196-200 */
    method AppendCommandLine(mem: seq<byte>, arg: nat)
      requires cmdline.Length > 0
      modifies cmdline
      ensures StrOf(cmdline[..])
           == Appended(Appended(old(StrOf(cmdline[..])), [0x20], cmdline.Length),
                       StrOf(Slice(mem, arg, cmdline.Length)), cmdline.Length)
    {
      hide StrOf, Appended, Slice;
      SpaceString(cmdline.Length);
      StrAppend(cmdline, SPACE, 0);
      StrAppend(cmdline, mem, arg);
    }
  }

  // ----- what the notes set

  /** No note after this one is of its name and kind. */
  ghost predicate Last(notes: seq<Found>, i: nat)
    requires i < |notes|
  {
    forall j: nat :: i < j < |notes| ==> notes[j].name != notes[i].name || notes[j].kind != notes[i].kind
  }

  ghost predicate Absent(notes: seq<Found>, name: seq<byte>, kind: nat) {
    forall j: nat :: j < |notes| ==> notes[j].name != name || notes[j].kind != kind
  }

  lemma {:induction false} ApplyLast(mem: seq<byte>, max: nat, bp: Params, notes: seq<Found>)
    requires max > 0 && |notes| > 0
    ensures ApplyAll(mem, max, bp, notes)
         == Apply(mem, max, ApplyAll(mem, max, bp, notes[..|notes| - 1]), notes[|notes| - 1])
    decreases |notes|
  {
    hide Apply;
    if |notes| == 1 {
      assert notes[..0] == [] && notes[1..] == [];
      assert ApplyAll(mem, max, Apply(mem, max, bp, notes[0]), notes[1..]) == Apply(mem, max, bp, notes[0]);
    } else {
      ApplyLast(mem, max, Apply(mem, max, bp, notes[0]), notes[1..]);
      assert notes[1..][..|notes| - 2] == notes[..|notes| - 1][1..];
    }
  }

  /** Eight bytes, and the lower four of them, are numbers in the stream of memory. */
  lemma QuadIs(mem: seq<byte>, at: nat)
    ensures QuadAt(mem, at) == Field(Stream(mem), 8 * at, 64) && QuadAt(mem, at) % LONG == Field(Stream(mem), 8 * at, 32)
  {
    hide LongAt, Stream, Low, Shr, Shl;
    var x, pos := Stream(mem), 8 * at;
    LongInStream(mem, at);
    LongInStream(mem, at + 4);
    FieldBound(x, pos, 32);
    LargePowers();
    LowSplit(Shr(x, pos), 32, 32);
    ShrShr(x, pos, 32);
    ShlLong(LongAt(mem, at + 4));
  }

  lemma ShlLong(x: nat)
    ensures Shl(x, 32) == LONG * x
  {
    hide Shl;
    ByteShift(x);
    ShlShl(x, 8, 8);
    ByteShift(Shl(x, 8));
    ShlShl(x, 16, 8);
    ByteShift(Shl(x, 16));
    ShlShl(x, 24, 8);
    ByteShift(Shl(x, 24));
  }

  /** What one note sets, in numbers. */
  lemma OneNoteSets(mem: seq<byte>, max: nat, bp: Params, f: Found)
    requires max > 0
    ensures var (r, x, d) := (Apply(mem, max, bp, f), Stream(mem), f.descAt);
      var ours := f.name == [0x45, 0x74, 0x68, 0x65, 0x72, 0x62, 0x6f, 0x6f, 0x74, 0];
      && r.efiSystab == (if ours && f.kind == 1 then Field(x, 8 * d, 64) else bp.efiSystab)
      && r.fpswa == (if ours && f.kind == 3 then Field(x, 8 * d, 64) else bp.fpswa)
      && r.consoleInfo == (if ours && f.kind == 4 then Slice(mem, d, 8) else bp.consoleInfo)
      && r.efiMemmap == (if ours && f.kind == 2 then d + 32 else bp.efiMemmap)
      && r.memmapSize == (if ours && f.kind == 2 then Field(x, 8 * d, 64) else bp.memmapSize)
      && r.memdescSize == (if ours && f.kind == 2 then Field(x, 8 * (d + 16), 64) else bp.memdescSize)
      && r.memdescVersion == (if ours && f.kind == 2 then Field(x, 8 * (d + 24), 32) else bp.memdescVersion)
      && r.firmware == (if f.name == [] && f.kind == 1 then Some(d) else bp.firmware)
      && r.ldrName == (if f.name == [] && f.kind == 2 then Some(d) else bp.ldrName)
      && r.ldrVersion == (if f.name == [] && f.kind == 3 then Some(d) else bp.ldrVersion)
      && r.command == (if f.name == [] && f.kind == 4
                       then Appended(Appended(bp.command, [0x20], max), StrOf(Slice(mem, d, max)), max) else bp.command)
  {
    hide QuadAt, Field, Stream, Slice, StrOf, Appended;
    QuadIs(mem, f.descAt);
    QuadIs(mem, f.descAt + 16);
    QuadIs(mem, f.descAt + 24);
  }

  /** The last note of its name and kind decides what it sets. */
  lemma {:induction false} LastWins(mem: seq<byte>, max: nat, bp: Params, notes: seq<Found>, i: nat)
    requires max > 0 && i < |notes| && Last(notes, i)
    ensures var (r, x, f) := (ApplyAll(mem, max, bp, notes), Stream(mem), notes[i]);
      && (f.name == [0x45, 0x74, 0x68, 0x65, 0x72, 0x62, 0x6f, 0x6f, 0x74, 0] ==>
        && (f.kind == 1 ==> r.efiSystab == Field(x, 8 * f.descAt, 64))
        && (f.kind == 2 ==> r.efiMemmap == f.descAt + 32 && r.memmapSize == Field(x, 8 * f.descAt, 64))
        && (f.kind == 2 ==> r.memdescSize == Field(x, 8 * (f.descAt + 16), 64))
        && (f.kind == 2 ==> r.memdescVersion == Field(x, 8 * (f.descAt + 24), 32))
        && (f.kind == 3 ==> r.fpswa == Field(x, 8 * f.descAt, 64))
        && (f.kind == 4 ==> r.consoleInfo == Slice(mem, f.descAt, 8)))
      && (f.name == [] ==>
        && (f.kind == 1 ==> r.firmware == Some(f.descAt))
        && (f.kind == 2 ==> r.ldrName == Some(f.descAt))
        && (f.kind == 3 ==> r.ldrVersion == Some(f.descAt)))
    decreases |notes|
  {
    hide Apply, ApplyAll, Field, Stream, Slice, StrOf, Appended;
    var n := |notes| - 1;
    ApplyLast(mem, max, bp, notes);
    OneNoteSets(mem, max, ApplyAll(mem, max, bp, notes[..n]), notes[n]);
    if i < n {
      assert Last(notes[..n], i);
      LastWins(mem, max, bp, notes[..n], i);
    }
  }

  /** What no note is about stays. */
  lemma {:induction false} AbsentKeeps(mem: seq<byte>, max: nat, bp: Params, notes: seq<Found>)
    requires max > 0
    ensures var r, ours := ApplyAll(mem, max, bp, notes), [0x45, 0x74, 0x68, 0x65, 0x72, 0x62, 0x6f, 0x6f, 0x74, 0];
      && (Absent(notes, ours, 1) ==> r.efiSystab == bp.efiSystab)
      && (Absent(notes, ours, 2) ==> r.efiMemmap == bp.efiMemmap && r.memmapSize == bp.memmapSize)
      && (Absent(notes, ours, 2) ==> r.memdescSize == bp.memdescSize && r.memdescVersion == bp.memdescVersion)
      && (Absent(notes, ours, 3) ==> r.fpswa == bp.fpswa)
      && (Absent(notes, ours, 4) ==> r.consoleInfo == bp.consoleInfo)
      && (Absent(notes, [], 1) ==> r.firmware == bp.firmware)
      && (Absent(notes, [], 2) ==> r.ldrName == bp.ldrName)
      && (Absent(notes, [], 3) ==> r.ldrVersion == bp.ldrVersion)
      && (Absent(notes, [], 4) ==> r.command == bp.command)
    decreases |notes|
  {
    hide Apply, Field, Stream, Slice, StrOf, Appended, Absent;
    if |notes| != 0 {
      OneNoteSets(mem, max, bp, notes[0]);
      AbsentKeeps(mem, max, Apply(mem, max, bp, notes[0]), notes[1..]);
      forall name: seq<byte>, kind: nat | Absent(notes, name, kind)
        ensures Absent(notes[1..], name, kind) && (notes[0].name != name || notes[0].kind != kind)
      {
        AbsentFirst(notes, name, kind);
      }
    }
  }

  /** The strings of the unnamed notes of kind 4, in order, a blank before each. */
  function Lines(mem: seq<byte>, max: nat, notes: seq<Found>): seq<byte> {
    if |notes| == 0 then []
    else
      (if notes[0].name == [] && notes[0].kind == 4 then [0x20] + StrOf(Slice(mem, notes[0].descAt, max)) else [])
      + Lines(mem, max, notes[1..])
  }

  /** Appending piece by piece is appending the whole. */
  lemma AppendedTwice(dest: seq<byte>, x: seq<byte>, y: seq<byte>, max: nat)
    requires max > 0
    ensures Appended(Appended(dest, x, max), y, max) == Appended(dest, x + y, max)
  {
    assert dest + (x + y) == (dest + x) + y;
  }

  /** The command line grows by all these strings, and only its end is cut. */
  lemma CommandGrows(mem: seq<byte>, max: nat, bp: Params, notes: seq<Found>)
    requires max > 0
    ensures var (r, more) := (ApplyAll(mem, max, bp, notes).command, Lines(mem, max, notes));
      if more == [] then r == bp.command
      else r <= bp.command + more && |r| == if |bp.command| + |more| < max then |bp.command| + |more| else max - 1
  {
    hide ApplyAll, Lines;
    CommandIs(mem, max, bp, notes);
  }

  lemma {:induction false} CommandIs(mem: seq<byte>, max: nat, bp: Params, notes: seq<Found>)
    requires max > 0
    ensures var more := Lines(mem, max, notes);
      ApplyAll(mem, max, bp, notes).command == if more == [] then bp.command else Appended(bp.command, more, max)
    decreases |notes|
  {
    hide Apply, Slice, StrOf, Appended;
    if |notes| != 0 {
      var f, rest := notes[0], Lines(mem, max, notes[1..]);
      OneNoteSets(mem, max, bp, f);
      CommandIs(mem, max, Apply(mem, max, bp, f), notes[1..]);
      if f.name == [] && f.kind == 4 {
        var line := StrOf(Slice(mem, f.descAt, max));
        AppendedTwice(bp.command, [0x20], line, max);
        AppendedTwice(bp.command, [0x20] + line, rest, max);
        assert rest == [] ==> [0x20] + line + rest == [0x20] + line;
      } else {
        assert [] + rest == rest;
      }
    }
  }

  // ----- notes as mkelfImage writes them

  lemma {:induction false} WrittenAt(mem: seq<byte>, notes: seq<Note>, at: nat, i: nat)
    requires i < |notes| && Holds(mem, at, Serialized(notes))
    ensures |AllFound(notes, at)| == |notes|
    ensures AllFound(notes, at)[i] == AsFound(notes[i], at + SizeOf(notes[..i]))
    ensures Holds(mem, at + SizeOf(notes[..i]), NoteBytes(notes[i]))
    decreases |notes|
  {
    hide NoteSize, NoteBytes, AsFound, Holds;
    AllFoundSize(notes, at);
    HoldsParts(mem, at, NoteBytes(notes[0]), Serialized(notes[1..]));
    if i != 0 {
      WrittenAt(mem, notes[1..], at + NoteSize(notes[0]), i - 1);
      assert notes[1..][..i - 1] == notes[..i][1..];
    }
  }

  /** The descriptor is in memory where it was found. */
  lemma DescThere(mem: seq<byte>, at: nat, n: Note)
    requires Holds(mem, at, NoteBytes(n))
    ensures Holds(mem, at + NHDR + Round4(|n.name| + 1), n.desc)
  {
    hide HeaderOf, Round4, Holds;
    HoldsParts(mem, at, HeaderOf(n) + Padded(n.name + [0]), Padded(n.desc));
    HoldsParts(mem, at + NHDR + Round4(|n.name| + 1), n.desc, Zeros(Round4(|n.desc|) - |n.desc|));
  }

  lemma ByteThere(mem: seq<byte>, at: nat, s: seq<byte>, i: nat)
    requires Holds(mem, at, s) && i < |s|
    ensures ByteAt(mem, at + i) == ByteAt(s, i)
  {
    assert mem[at..at + |s|][i] == mem[at + i];
  }

  lemma WordThere(mem: seq<byte>, at: nat, s: seq<byte>, i: nat)
    requires Holds(mem, at, s) && i + 4 <= |s|
    ensures LongAt(mem, at + i) == LongAt(s, i)
  {
    hide Long, Holds, ByteAt;
    ByteThere(mem, at, s, i);
    ByteThere(mem, at, s, i + 1);
    ByteThere(mem, at, s, i + 2);
    ByteThere(mem, at, s, i + 3);
  }

  /** A number in memory is the number in what is there. */
  lemma NumbersThere(mem: seq<byte>, at: nat, s: seq<byte>, i: nat)
    requires Holds(mem, at, s) && i + 8 <= |s|
    ensures Field(Stream(mem), 8 * (at + i), 64) == Field(Stream(s), 8 * i, 64)
    ensures Field(Stream(mem), 8 * (at + i), 32) == Field(Stream(s), 8 * i, 32)
  {
    hide LongAt, Field, Stream, Holds;
    WordThere(mem, at, s, i);
    WordThere(mem, at, s, i + 4);
    QuadIs(mem, at + i);
    QuadIs(s, i);
  }

  ghost predicate LastWritten(notes: seq<Note>, i: nat)
    requires i < |notes|
  {
    forall j: nat :: i < j < |notes| ==> notes[j].name != notes[i].name || notes[j].kind != notes[i].kind
  }

  /** A name and its zero say which name it is. */
  lemma SameName(x: seq<byte>, y: seq<byte>)
    ensures x + [0] == y + [0] <==> x == y
  {
    assert (x + [0])[..|x|] == x && (y + [0])[..|y|] == y;
  }

  /** Of notes written one after the other, the last of each kind from Etherboot sets its field to the number written. */
  lemma WrittenWins(mem: seq<byte>, max: nat, bp: Params, notes: seq<Note>, at: nat, i: nat)
    requires max > 0 && i < |notes| && LastWritten(notes, i) && Holds(mem, at, Serialized(notes))
    requires notes[i].name == [0x45, 0x74, 0x68, 0x65, 0x72, 0x62, 0x6f, 0x6f, 0x74]
    ensures var (r, d, kind) := (ApplyAll(mem, max, bp, AllFound(notes, at)), notes[i].desc, notes[i].kind);
      && (kind == 1 && |d| >= 8 ==> r.efiSystab == Field(Stream(d), 0, 64))
      && (kind == 2 && |d| >= 32 ==> r.efiMemmap == at + SizeOf(notes[..i]) + 56)
      && (kind == 2 && |d| >= 32 ==> r.memmapSize == Field(Stream(d), 0, 64) && r.memdescSize == Field(Stream(d), 128, 64))
      && (kind == 2 && |d| >= 32 ==> r.memdescVersion == Field(Stream(d), 192, 32))
      && (kind == 3 && |d| >= 8 ==> r.fpswa == Field(Stream(d), 0, 64))
      && (kind == 4 && |d| >= 8 ==> r.consoleInfo == d[..8])
  {
    hide ApplyAll, AllFound, Holds, Field, Stream, Slice, Round4, SizeOf, NoteBytes;
    var all, d := AllFound(notes, at), notes[i].desc;
    AllFoundSize(notes, at);
    forall j: nat | i <= j < |notes|
      ensures all[j] == AsFound(notes[j], at + SizeOf(notes[..j]))
    {
      WrittenAt(mem, notes, at, j);
    }
    forall j: nat | i < j < |notes|
      ensures all[j].name != all[i].name || all[j].kind != all[i].kind
    {
      SameName(notes[j].name, notes[i].name);
    }
    LastWins(mem, max, bp, all, i);
    WrittenAt(mem, notes, at, i);
    DescThere(mem, at + SizeOf(notes[..i]), notes[i]);
    NameTakes12();
    var where := all[i].descAt;
    assert Holds(mem, where, d);
    if |d| >= 8 {
      NumbersThere(mem, where, d, 0);
      SliceThere(mem, where, d);
    }
    if |d| >= 32 {
      NumbersThere(mem, where, d, 16);
      NumbersThere(mem, where, d, 24);
    }
  }

  /** Without such a note, and only then, AbsentKeeps applies. */
  lemma {:induction false} WrittenAbsent(notes: seq<Note>, at: nat, name: seq<byte>, kind: nat)
    ensures Absent(AllFound(notes, at), name + [0], kind) <==> forall n :: n in notes ==> n.name != name || n.kind != kind
    decreases |notes|
  {
    hide NoteSize;
    if |notes| != 0 {
      var rest := AllFound(notes[1..], at + NoteSize(notes[0]));
      WrittenAbsent(notes[1..], at + NoteSize(notes[0]), name, kind);
      SameName(notes[0].name, name);
      AbsentFirst(AllFound(notes, at), name + [0], kind);
      assert AllFound(notes, at)[1..] == rest;
      assert forall n :: n in notes <==> n == notes[0] || n in notes[1..];
    }
  }

  lemma AbsentFirst(notes: seq<Found>, name: seq<byte>, kind: nat)
    requires |notes| > 0
    ensures Absent(notes, name, kind)
        <==> (notes[0].name != name || notes[0].kind != kind) && Absent(notes[1..], name, kind)
  {
    if Absent(notes[1..], name, kind) && (notes[0].name != name || notes[0].kind != kind) {
      forall j: nat | j < |notes|
        ensures notes[j].name != name || notes[j].kind != kind
      {
        assert j > 0 ==> notes[j] == notes[1..][j - 1];
      }
    }
  }

  lemma NameTakes12()
    ensures Round4(10) == 12
  {
  }

  lemma SliceThere(mem: seq<byte>, at: nat, s: seq<byte>)
    requires Holds(mem, at, s) && |s| >= 8
    ensures Slice(mem, at, 8) == s[..8]
  {
    HoldsSlice(mem, at, s);
    assert Slice(mem, at, 8) == Slice(mem, at, |s|)[..8];
  }

  /** Notes as mkelfImage writes them always have a name, if only its zero: the readers see no standard note in them. */
  lemma {:induction false} WrittenAreNamed(mem: seq<byte>, max: nat, bp: Params, notes: seq<Note>, at: nat)
    requires max > 0
    ensures var r := ApplyAll(mem, max, bp, AllFound(notes, at));
      r.command == bp.command && r.firmware == bp.firmware && r.ldrName == bp.ldrName && r.ldrVersion == bp.ldrVersion
    decreases |notes|
  {
    hide NoteSize, QuadAt, Slice, StrOf, Appended;
    if |notes| != 0 {
      WrittenAreNamed(mem, max, Apply(mem, max, bp, AsFound(notes[0], at)), notes[1..], at + NoteSize(notes[0]));
      var all := AllFound(notes, at);
      assert all[1..] == AllFound(notes[1..], at + NoteSize(notes[0]));
    }
  }
}
