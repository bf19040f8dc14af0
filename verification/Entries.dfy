/**
 The 64-bit page table entries of page.h:107-124: the two views of one word, for a table and for a 2 MiB page, with
 the widths that gcc computes in.
 */
module Entries {
  import opened Bits
  import opened Bytes
  import opened HostAlloc

  const PRESENT_RW_US: nat := 0x7
  const PRESENT_RW_PS: nat := 0x83
  const US: nat := 0x4

  /** Assignment to the bit field of `w` bits at `off`. */
  function SetField(raw: nat, off: nat, w: nat, v: nat): nat {
    Low(raw, off) + Shl(Low(v, w) + Shl(Shr(Shr(raw, off), w), w), off)
  }

  lemma SetFieldReads(raw: nat, off: nat, w: nat, v: nat)
    ensures Low(SetField(raw, off, w, v), off) == Low(raw, off)
    ensures Field(SetField(raw, off, w, v), off, w) == Low(v, w)
    ensures Shr(SetField(raw, off, w, v), off + w) == Shr(raw, off + w)
  {
    hide Low, Shr, Shl, Pow2;
    var above := Low(v, w) + Shl(Shr(Shr(raw, off), w), w);
    LowBound(raw, off);
    LowBound(v, w);
    LowShrUnique(Low(raw, off), above, off);
    LowShrUnique(Low(v, w), Shr(Shr(raw, off), w), w);
    ShrShr(SetField(raw, off, w, v), off, w);
    ShrShr(raw, off, w);
  }

  lemma {:induction false} BitOfLow(x: nat, n: nat, i: nat)
    requires i < n
    ensures Bit(Low(x, n), i) == Bit(x, i)
  {
    if i != 0 {
      BitOfLow(x / 2, n - 1, i - 1);
    }
  }

  // ----- reading

  /** x->term.flags & PTTEF_PRESENT */
  predicate Present(e: nat) {
    Bit(Field(e, 0, 21), 0) == 1
  }

  /** e->term.flags & PTTEF_PAGE_SIZE */
  predicate LargePage(e: nat) {
    Bit(Field(e, 0, 21), 7) == 1
  }

  /** e->non_term.base << PAGE_SHIFT as a page number: the shift is done in the 40 bits of the field. */
  function Child(e: nat): nat {
    Low(Field(e, 12, 40), 28)
  }

  /** (e->term.base << PAGE_SHIFT_2MB) + offset: the shift is done in int. */
  function Address(e: nat, v: nat): nat {
    (ToInt(Shl(Field(e, 21, 31), 21)) + Low(v, 21)) % 0x1_0000_0000_0000_0000
  }

  // ----- writing

  /** page.c:150-151 */
  function TableEntry(raw: nat, pfn: nat): nat {
    SetField(SetField(raw, 12, 40, pfn), 0, 12, PRESENT_RW_US)
  }

  /** page.c:135-137 */
  function PageEntry(raw: nat, p: nat, user: bool): nat {
    SetField(SetField(raw, 21, 31, Shr(p, 21)), 0, 21, if user then PRESENT_RW_PS + US else PRESENT_RW_PS)
  }

  lemma ZeroEntry()
    ensures !Present(0)
  {
    ShrZero(0);
    ShrZero(21);
  }

  lemma TableEntryReads(raw: nat, pfn: nat)
    requires pfn < Pow2(28)
    ensures Present(TableEntry(raw, pfn)) && Child(TableEntry(raw, pfn)) == pfn
    ensures Low(TableEntry(raw, pfn), 12) == 0x7 && Field(TableEntry(raw, pfn), 12, 40) == pfn
  {
    hide Low, Shr, Shl, Pow2, SetField, Bit;
    var r1, e := SetField(raw, 12, 40, pfn), TableEntry(raw, pfn);
    SetFieldReads(raw, 12, 40, pfn);
    SetFieldReads(r1, 0, 12, PRESENT_RW_US);
    SameField(e, r1);
    LowNest(pfn, 28, 40);
    SmallLow(pfn, 28);
    NoBits(e);
    BitOfLow(e, 21, 0);
    BitOfLow(e, 12, 0);
    FlagBits();
    FlagsFit();
    NoBits(pfn);
    Pow2Mono(28, 40);
    SmallLow(pfn, 40);
  }

  lemma SameField(e: nat, r: nat)
    requires Shr(e, 12) == Shr(r, 12)
    ensures Field(e, 12, 40) == Field(r, 12, 40)
  {
  }

  lemma FlagBits()
    ensures Bit(Low(PRESENT_RW_US, 12), 0) == 1
    ensures Bit(Low(PRESENT_RW_PS, 21), 0) == 1 && Bit(Low(PRESENT_RW_PS + US, 21), 0) == 1
    ensures Bit(Low(PRESENT_RW_PS, 21), 7) == 1 && Bit(Low(PRESENT_RW_PS + US, 21), 7) == 1
  {
    hide Low;
    BitOfLow(PRESENT_RW_US, 12, 0);
    BitOfLow(PRESENT_RW_PS, 21, 0);
    BitOfLow(PRESENT_RW_PS, 21, 7);
    BitOfLow(PRESENT_RW_PS + US, 21, 0);
    BitOfLow(PRESENT_RW_PS + US, 21, 7);
    assert Shr(0x83, 7) == Shr(0x10, 4) == 1;
    assert Shr(0x87, 7) == Shr(0x10, 4) == 1;
  }

  lemma PageEntryReads(raw: nat, p: nat, user: bool)
    ensures var e := PageEntry(raw, p, user);
      && Present(e) && LargePage(e) && Field(e, 21, 31) == Low(Shr(p, 21), 31)
      && Low(e, 21) == if user then 0x87 else 0x83
  {
    hide Low, Shr, Shl, Pow2, SetField, Bit;
    var r1, e := SetField(raw, 21, 31, Shr(p, 21)), PageEntry(raw, p, user);
    var flags := if user then PRESENT_RW_PS + US else PRESENT_RW_PS;
    SetFieldReads(raw, 21, 31, Shr(p, 21));
    SetFieldReads(r1, 0, 21, flags);
    NoBits(e);
    FlagBits();
    FlagsFit();
  }

  lemma FlagsFit()
    ensures Low(0x7, 12) == 0x7 && Low(0x83, 21) == 0x83 && Low(0x87, 21) == 0x87
  {
    hide Low, Pow2;
    SmallPowers();
    LargePowers();
    Pow2Mono(3, 12);
    Pow2Mono(8, 12);
    SmallLow(0x7, 12);
    SmallLow(0x83, 21);
    SmallLow(0x87, 21);
  }

  /** In numbers: bit 0 and bit 7 of the word. */
  lemma PresentIs(e: nat)
    ensures Present(e) <==> e % 2 == 1
    ensures LargePage(e) <==> e / 0x80 % 2 == 1
  {
    hide Low, Shr;
    NoBits(e);
    BitOfLow(e, 21, 0);
    BitOfLow(e, 21, 7);
    EighthBit(e);
  }

  lemma EighthBit(e: nat)
    ensures Shr(e, 7) == e / 0x80
  {
    hide Low, Shr;
    var q := e / 0x80;
    assert Shl(q, 2) == 2 * Shl(q, 1) == 4 * q;
    assert Shl(q, 4) == 2 * Shl(q, 3) == 4 * Shl(q, 2);
    assert Shl(q, 7) == 2 * Shl(q, 6) == 4 * Shl(q, 5) == 8 * Shl(q, 4);
    assert Pow2(7) == 0x80;
    LowShrUnique(e % 0x80, q, 7);
  }

  lemma AddressOfPage(raw: nat, p: nat, user: bool, v: nat)
    ensures Address(PageEntry(raw, p, user), v) == Mapped(p, v)
  {
    hide Low, Shr, Shl, PageEntry;
    PageEntryReads(raw, p, user);
  }

  /** What the walker makes of a page that was mapped to `p`. */
  function Mapped(p: nat, v: nat): nat {
    (ToInt(Shl(Low(Shr(p, 21), 31), 21)) + Low(v, 21)) % 0x1_0000_0000_0000_0000
  }

  /** A 2 MiB aligned address comes back from the field as it was, and then goes through an int. */
  lemma MappedIs(p: nat, v: nat)
    requires Low(p, 21) == 0 && p < Pow2(52)
    ensures Mapped(p, v) == (ToInt(p) + Low(v, 21)) % 0x1_0000_0000_0000_0000
  {
    hide Low, Shr, Shl, Pow2, ToInt;
    ShrBound(p, 21, 31);
    SmallLow(Shr(p, 21), 31);
    LowShr(p, 21);
  }

  lemma MappedBelow(p: nat, v: nat)
    requires Low(p, 21) == 0 && p < Pow2(52) && p < 0x8000_0000
    ensures Mapped(p, v) == p + Low(v, 21)
  {
    hide Low, Pow2, ToInt, Mapped;
    MappedIs(p, v);
    LargePowers();
    SmallLow(p, 32);
    SignedLow(p);
    LowBound(v, 21);
    Unwrapped(p + Low(v, 21));
  }

  lemma MappedAbove(p: nat, v: nat)
    requires Low(p, 21) == 0 && 0x8000_0000 <= p < Pow2(52)
    ensures Mapped(p, v) != p + Low(v, 21)
  {
    hide Low, Shr, Shl, Pow2, ToInt, Mapped;
    MappedIs(p, v);
    LargePowers();
    LowNest(p, 21, 32);
    LowBound(p, 32);
    LowShr(p, 32);
    LowBound(v, 21);
    SignedLow(p);
    var low := Low(p, 32);
    if low < 0x8000_0000 {
      Unwrapped(low + Low(v, 21));
    } else {
      AlignedLow(low);
      Negative(low - 0x1_0000_0000 + Low(v, 21));
    }
  }

  lemma Unwrapped(x: nat)
    requires x < 0x1_0000_0000_0000_0000
    ensures x % 0x1_0000_0000_0000_0000 == x
  {
  }

  lemma Negative(x: int)
    requires -0x1_0000_0000 <= x < 0
    ensures x % 0x1_0000_0000_0000_0000 == x + 0x1_0000_0000_0000_0000
  {
  }

  /** The walker finds the address exactly below 2 GiB; from there on the int overflows. */
  lemma MappedExactIff(p: nat, v: nat)
    requires Low(p, 21) == 0 && p < Pow2(52)
    ensures Mapped(p, v) == p + Low(v, 21) <==> p < 0x8000_0000
  {
    hide Low, Pow2, Mapped;
    if p < 0x8000_0000 {
      MappedBelow(p, v);
    } else {
      MappedAbove(p, v);
    }
  }

  lemma SignedLow(p: nat)
    ensures ToInt(p) == if Low(p, 32) < 0x8000_0000 then Low(p, 32) else Low(p, 32) - 0x1_0000_0000
  {
  }

  /** A number of 32 bits that is 2 MiB aligned has room for an offset. */
  lemma AlignedLow(x: nat)
    requires Low(x, 21) == 0 && x < 0x1_0000_0000
    ensures x + 0x20_0000 <= 0x1_0000_0000
  {
    hide Low, Shr, Pow2;
    LargePowers();
    ShrBound(x, 21, 11);
    LowShr(x, 21);
    SmallPowers();
    ShlMono(Shr(x, 21) + 1, 2048, 21);
    ShlAdd(Shr(x, 21), 1, 21);
    ShlOne(21);
    ShlPow2(11, 21);
  }
}
