/**
 What becomes of create_2mb_nested_pagetable (vm.c:106-141) when fewer different pages can be granted than the map needs
 tables: there is a memory for which the map is not the identity. In that memory every page but those that can be granted
 is filled with entries that lead astray.
 */
module TooFewPages {
  import opened Bits
  import opened Bytes
  import opened HostAlloc
  import opened AllocRuns
  import opened Entries
  import opened PageTable
  import opened NestedPaging
  import opened Bitmap
  import opened MemMap
  import opened Wrappers

  // ----- entries

  function Base(e: nat): nat {
    Field(e, 21, 31)
  }

  predicate Leaf(e: nat) {
    Present(e) && LargePage(e)
  }

  /** The entry written for guest page `i`; read as a table, it leads to the first 4 KiB of that page. */
  predicate IsPage(e: nat, i: nat) {
    Leaf(e) && Base(e) == i && Child(e) == ENTRIES * i
  }

  /** An entry that leads to one of two pages that are never granted, and is never right itself. */
  predicate IsStray(e: nat, x: nat) {
    Leaf(e) && Base(e) == (if x == 0 then 1 else 0) && (Child(e) == 33 || Child(e) == 545)
  }

  lemma ChildSplit(e: nat)
    ensures Child(e) == Field(e, 12, 9) + ENTRIES * Low(Base(e), 19)
  {
    hide Low, Shr, Shl, Pow2;
    var x := Shr(e, 12);
    LowNest(x, 28, 40);
    LowSplit(x, 9, 19);
    ShrShr(e, 12, 9);
    LowNest(Shr(e, 21), 19, 31);
    ShlNine(Low(Base(e), 19));
  }

  lemma SmallBase(i: nat)
    requires i < PAGES
    ensures Low(i, 19) == i && Low(i, 31) == i
  {
    hide Low, Pow2;
    SmallPowers();
    Pow2Mono(10, 19);
    Pow2Mono(10, 31);
    SmallLow(i, 19);
    SmallLow(i, 31);
  }

  lemma GuestEntry(raw: nat, i: nat)
    requires i < PAGES
    ensures IsPage(PageEntry(raw, PAGE_2MB * i, true), i)
  {
    hide Low, Shr, Shl, Pow2, SetField, Bit;
    var e := PageEntry(raw, PAGE_2MB * i, true);
    GuestAddress(i);
    PageEntryReads(raw, PAGE_2MB * i, true);
    SmallBase(i);
    ChildSplit(e);
    SetFieldReads(SetField(raw, 21, 31, i), 0, 21, PRESENT_RW_PS + US);
    NoBits(e);
    FlagsLow();
    LowSplit(e, 12, 9);
    NothingAbove(Low(e, 12), Field(e, 12, 9));
  }

  lemma FlagsLow()
    ensures Low(PRESENT_RW_PS + US, 21) == 0x87
  {
    hide Low, Pow2;
    SmallPowers();
    Pow2Mono(8, 21);
    SmallLow(0x87, 21);
  }

  lemma NothingAbove(low: nat, high: nat)
    requires low + Shl(high, 12) == 0x87
    ensures high == 0
  {
    hide Shl;
    ShlTwelve(high);
  }

  lemma ShlTwelve(x: nat)
    ensures Shl(x, 12) == 4096 * x
  {
    hide Shl;
    ShlFive(x, 0);
    ShlFive(x, 5);
    ShlTwo(x, 10);
  }

  lemma ShlTwo(x: nat, n: nat)
    ensures Shl(x, n + 2) == 4 * Shl(x, n)
  {
    assert Shl(x, n + 1) == 2 * Shl(x, n);
  }

  function Stray(x: nat): nat {
    SetField(PageEntry(0, PAGE_2MB * (if x == 0 then 1 else 0), true), 12, 9, 33)
  }

  lemma StrayIs(x: nat)
    ensures IsStray(Stray(x), x)
  {
    hide Low, Shr, Shl, Pow2, SetField, Bit, PageEntry;
    var i := if x == 0 then 1 else 0;
    var p := PageEntry(0, PAGE_2MB * i, true);
    var e := Stray(x);
    GuestEntry(0, i);
    SetFieldReads(p, 12, 9, 33);
    NoBits(e);
    NoBits(p);
    SameFlag(e, p, 0);
    SameFlag(e, p, 7);
    ChildSplit(e);
    SmallBase(i);
    Low33();
  }

  lemma SameFlag(e: nat, p: nat, i: nat)
    requires Low(e, 12) == Low(p, 12) && i < 12
    ensures Bit(Low(e, 21), i) == Bit(Low(p, 21), i)
  {
    hide Low, Bit;
    BitOfLow(e, 21, i);
    BitOfLow(e, 12, i);
    BitOfLow(p, 21, i);
    BitOfLow(p, 12, i);
  }

  lemma Low33()
    ensures Low(33, 9) == 33
  {
    hide Low, Pow2;
    Pow2Mono(8, 9);
    SmallPowers();
    SmallLow(33, 9);
  }

  /** The entry for a table is never a large page. */
  lemma TableNotLarge(raw: nat, c: nat)
    ensures !LargePage(TableEntry(raw, c))
  {
    hide Low, Shr, Shl, Pow2, SetField, Bit;
    var r1, e := SetField(raw, 12, 40, c), TableEntry(raw, c);
    SetFieldReads(r1, 0, 12, PRESENT_RW_US);
    NoBits(e);
    BitOfLow(e, 21, 7);
    BitOfLow(e, 12, 7);
    BitOfLow(PRESENT_RW_US, 12, 7);
    SeventhBit();
  }

  lemma SeventhBit()
    ensures Bit(PRESENT_RW_US, 7) == 0
  {
    assert Shr(7, 3) == 0;
    ShrShr(7, 3, 4);
    ShrZero(4);
  }

  // ----- walks by index

  function Digits(a: nat, b: nat, y: nat): nat {
    ENTRIES * (ENTRIES * a + b) + y
  }

  lemma DigitIndex(a: nat, b: nat, y: nat)
    requires a < ENTRIES && b < ENTRIES && y < ENTRIES
    ensures var v := PAGE_2MB * Digits(a, b, y);
      && Index(v, 4) == a && Index(v, 3) == b && Index(v, 2) == y
      && Shr(v, 21) == Digits(a, b, y) && Low(v, 21) == 0 && v < Pow2(48)
  {
    hide Low, Shr, Shl, Pow2, Index;
    var q := Digits(a, b, y);
    var v := PAGE_2MB * q;
    ShlBy21(q);
    LowBound(0, 21);
    LowShrUnique(0, q, 21);
    Highest(v, a, b, y);
    PathDigits(v);
    ShlNine(Index(v, 4));
    ShlNine(Index(v, 3) + Shl(Index(v, 4), 9));
    OneReading(a, b, y, Index(v, 4), Index(v, 3), Index(v, 2));
  }

  lemma Highest(v: nat, a: nat, b: nat, y: nat)
    requires a < ENTRIES && b < ENTRIES && y < ENTRIES && v == PAGE_2MB * Digits(a, b, y)
    ensures v < Pow2(48)
  {
    hide Pow2, Digits;
    LargePowers();
    DigitsBound(a, b, y);
  }

  lemma DigitsBound(a: nat, b: nat, y: nat)
    requires a < ENTRIES && b < ENTRIES && y < ENTRIES
    ensures Digits(a, b, y) < 0x800_0000
  {
  }

  lemma OneReading(a: nat, b: nat, y: nat, a': nat, b': nat, y': nat)
    requires b < ENTRIES && y < ENTRIES && b' < ENTRIES && y' < ENTRIES
    requires ENTRIES * (ENTRIES * a + b) + y == y' + ENTRIES * (b' + ENTRIES * a')
    ensures a == a' && b == b' && y == y'
  {
  }

  /** What the walk by these indices finds: the entry of the last level. */
  function Reach(mem: seq<nat>, root: nat, a: nat, b: nat, y: nat): Option<nat> {
    var e4 := EntryAt(mem, root, a);
    if !Present(e4) then None
    else Below(mem, Child(e4), b, y)
  }

  function Below(mem: seq<nat>, t: nat, b: nat, y: nat): Option<nat> {
    var e3 := EntryAt(mem, t, b);
    if !Present(e3) then None
    else Last(mem, Child(e3), y)
  }

  function Last(mem: seq<nat>, t: nat, y: nat): Option<nat> {
    var e2 := EntryAt(mem, t, y);
    if Leaf(e2) then Some(e2) else None
  }

  lemma ReachIs(mem: seq<nat>, root: nat, a: nat, b: nat, y: nat)
    requires a < ENTRIES && b < ENTRIES && y < ENTRIES
    ensures var r, v := Reach(mem, root, a, b, y), PAGE_2MB * Digits(a, b, y);
      Translate(mem, root, v) == if r.Some? then Some(Address(r.value, v)) else None
  {
    hide EntryAt, Present, LargePage, Child, Index, Address, Digits;
    var v := PAGE_2MB * Digits(a, b, y);
    DigitIndex(a, b, y);
    var e4 := EntryAt(mem, root, a);
    if Present(e4) {
      var e3 := EntryAt(mem, Child(e4), b);
      assert Walk(mem, Child(e4), v, 3) == if Present(e3) then Walk(mem, Child(e3), v, 2) else None;
    }
  }

  lemma BaseAddress(e: nat, v: nat)
    requires Base(e) < PAGES && Low(v, 21) == 0
    ensures Address(e, v) == PAGE_2MB * Base(e)
  {
    hide Low, Shr, Shl, Pow2, ToInt;
    var x := Shl(Base(e), 21);
    ShlBy21(Base(e));
    LargePowers();
    SmallLow(x, 32);
    SignedLow(x);
  }

  /** A map that is the identity, read entry by entry. */
  lemma IdentityAt(mem: seq<nat>, root: nat, start: nat, size: nat, a: nat, b: nat, y: nat)
    requires IdentityMap(mem, root, start, size, PAGES) && a < ENTRIES && b < ENTRIES && y < ENTRIES
    ensures var r := Reach(mem, root, a, b, y);
      if a == 0 && b < 2 && !Hidden(start, size, ENTRIES * b + y)
      then r.Some? && (Base(r.value) < PAGES ==> Base(r.value) == ENTRIES * b + y)
      else r == None
  {
    hide EntryAt, Present, LargePage, Child, Index, Address, Digits, Hidden, Low, Shr, Shl, Pow2, Reach, Base;
    var q, r := Digits(a, b, y), Reach(mem, root, a, b, y);
    var v := PAGE_2MB * q;
    DigitIndex(a, b, y);
    ReachIs(mem, root, a, b, y);
    LowDigits(a, b, y);
    if r.Some? && Base(r.value) < PAGES {
      BaseAddress(r.value, v);
    }
  }

  lemma LowDigits(a: nat, b: nat, y: nat)
    requires b < ENTRIES && y < ENTRIES
    ensures Digits(a, b, y) < PAGES <==> a == 0 && b < 2
    ensures a == 0 ==> Digits(a, b, y) == ENTRIES * b + y
  {
  }

  // ----- the memory that leads astray, while pages are mapped

  /** Pages that can be reached: 4 KiB pages of the low 2 GiB. */
  const REACH: nat := ENTRIES * PAGES

  /** An entry for a page that has been mapped. */
  predicate Mine(e: nat, start: nat, size: nat, n: nat, x: nat) {
    Base(e) < n && IsPage(e, Base(e)) && Base(e) % ENTRIES == x && !Hidden(start, size, Base(e))
  }

  /** A page that cannot be granted is written only as the first 4 KiB of a guest page that was mapped before. */
  predicate Before(t: nat, i: nat) {
    t == 33 || t == 545 || (t % ENTRIES == 0 && t / ENTRIES < i)
  }

  predicate Slot(e: nat, pool: seq<nat>, start: nat, size: nat, n: nat, t: nat, x: nat) {
    if t in pool then !Present(e) || (!LargePage(e) && Child(e) in pool) || Mine(e, start, size, n, x)
    else IsStray(e, x) || (Mine(e, start, size, n, x) && Before(t, Base(e)))
  }

  ghost predicate Strewn(mem: seq<nat>, pool: seq<nat>, start: nat, size: nat, n: nat) {
    forall t: nat, x: nat :: t < REACH && x < ENTRIES ==> Slot(EntryAt(mem, t, x), pool, start, size, n, t, x)
  }

  predicate PageAt(mem: seq<nat>, t: nat, x: nat, i: nat) {
    IsPage(EntryAt(mem, t, x), i)
  }

  /** Each guest page is in one entry at most. */
  ghost predicate Once(mem: seq<nat>) {
    forall t: nat, t': nat, x: nat, i: nat ::
      t < REACH && t' < REACH && x < ENTRIES && i < PAGES && PageAt(mem, t, x, i) && PageAt(mem, t', x, i) ==> t == t'
  }

  ghost predicate Pool(pool: seq<nat>) {
    forall t :: t in pool ==> t <= HALF
  }

  /** Where the walk for page `n` can lead. */
  predicate Walked(t: nat, pool: seq<nat>, n: nat) {
    t in pool || Before(t, n)
  }

  lemma WalkedInReach(t: nat, pool: seq<nat>, n: nat)
    requires Pool(pool) && Walked(t, pool, n) && n <= PAGES
    ensures t < REACH
  {
  }

  /** An entry that is present leads on. */
  lemma LeadsOn(e: nat, pool: seq<nat>, start: nat, size: nat, n: nat, t: nat, x: nat)
    requires Slot(e, pool, start, size, n, t, x) && n <= PAGES && Present(e)
    ensures Walked(Child(e), pool, n)
  {
    hide Present, LargePage, Child, Base, Hidden;
    if Mine(e, start, size, n, x) {
      TimesOver(Base(e));
    }
  }

  lemma TimesOver(i: nat)
    ensures ENTRIES * i % ENTRIES == 0 && ENTRIES * i / ENTRIES == i
  {
  }

  /** Nothing new is there but page `n`. */
  ghost predicate NoOther(mem: seq<nat>, mem': seq<nat>, n: nat) {
    forall t: nat, x: nat, i: nat :: x < ENTRIES && i != n && PageAt(mem', t, x, i) ==> PageAt(mem, t, x, i)
  }

  /** A table is added behind an absent entry. */
  lemma AddTableStrewn(s: Paged, t: nat, x: nat, pool: seq<nat>, start: nat, size: nat, n: nat)
    requires Strewn(s.mem, pool, start, size, n) && Once(s.mem) && Pool(pool) && AllIn(s.lows + [HALF], pool)
    requires t in pool && x < ENTRIES && ENTRIES * REACH <= |s.mem|
    ensures var s', c := AddTable(s, t, x), Granted(s.lows);
      && |s'.mem| == |s.mem| && Strewn(s'.mem, pool, start, size, n) && Once(s'.mem) && AllIn(s'.lows + [HALF], pool)
      && NoOther(s.mem, s'.mem, n) && c in pool && Present(EntryAt(s'.mem, t, x)) && Child(EntryAt(s'.mem, t, x)) == c
      && forall t': nat, x': nat :: x' < ENTRIES ==> AddedEntry(s.mem, s'.mem, t, x, c, t', x')
  {
    hide Present, LargePage, Child, Base, Hidden, EntryAt, Slot, TableEntry, Granted, Later, Pow2, ClearPage, Put, PageAt, Strewn, Once;
    var s', c := AddTable(s, t, x), Granted(s.lows);
    GrantIn(s.lows, pool);
    InMemory(|s.mem|, pool, t, x);
    LowPage(c);
    forall t': nat, x': nat | x' < ENTRIES
      ensures AddedEntry(s.mem, s'.mem, t, x, c, t', x')
    {
      AddTableEntry(s, t, x, t', x');
    }
    assert AddedEntry(s.mem, s'.mem, t, x, c, t, x);
    ClearedSize(s.mem, ClearPage(s.mem, c), c);
    AddedAll(s.mem, s'.mem, t, x, c, pool, start, size, n);
  }

  lemma InMemory(words: nat, pool: seq<nat>, t: nat, x: nat)
    requires Pool(pool) && t in pool && x < ENTRIES && ENTRIES * REACH <= words
    ensures ENTRIES * t + x < words && t < REACH
  {
  }

  lemma GrantIn(lows: seq<nat>, pool: seq<nat>)
    requires Pool(pool) && AllIn(lows + [HALF], pool)
    ensures Granted(lows) in pool && Granted(lows) <= HALF && AllIn(Later(lows) + [HALF], pool)
  {
    var all := lows + [HALF];
    assert all[|lows|] == HALF && all[0] == Granted(lows);
    assert AllIn(Later(lows) + [HALF], all);
  }

  /** What an entry is afterwards: the link, empty in the new table, or as before. */
  predicate AddedEntry(mem: seq<nat>, mem': seq<nat>, t: nat, x: nat, c: nat, t': nat, x': nat) {
    var e := EntryAt(mem', t', x');
    if t' == t && x' == x then Present(e) && !LargePage(e) && Child(e) == c
    else if t' == c then !Present(e)
    else e == EntryAt(mem, t', x')
  }

  lemma AddTableEntry(s: Paged, t: nat, x: nat, t': nat, x': nat)
    requires x < ENTRIES && x' < ENTRIES && ENTRIES * t + x < |s.mem| && Granted(s.lows) < Pow2(28)
    ensures AddedEntry(s.mem, AddTable(s, t, x).mem, t, x, Granted(s.lows), t', x')
  {
    hide Present, LargePage, Child, EntryAt, TableEntry, Granted, Later, Pow2, ClearPage, Put, Cleared, Wrote;
    var c := Granted(s.lows);
    var mem1 := ClearPage(s.mem, c);
    ClearedSize(s.mem, mem1, c);
    var raw := EntryAt(mem1, t, x);
    TableEntryReads(raw, c);
    TableNotLarge(raw, c);
    ZeroEntry();
    ClearedEntry(s.mem, mem1, c, t', x');
    WroteEntry(mem1, Put(mem1, t, x, TableEntry(raw, c)), t, x, TableEntry(raw, c), t', x');
  }

  lemma AddedAll(mem: seq<nat>, mem': seq<nat>, t: nat, x: nat, c: nat, pool: seq<nat>, start: nat, size: nat, n: nat)
    requires Strewn(mem, pool, start, size, n) && Once(mem) && t in pool && c in pool
    requires forall t': nat, x': nat :: x' < ENTRIES ==> AddedEntry(mem, mem', t, x, c, t', x')
    ensures Strewn(mem', pool, start, size, n) && Once(mem') && NoOther(mem, mem', n)
  {
    hide Present, LargePage, Child, Base, Hidden, EntryAt;
    forall t': nat, x': nat | t' < REACH && x' < ENTRIES
      ensures Slot(EntryAt(mem', t', x'), pool, start, size, n, t', x')
    {
      assert AddedEntry(mem, mem', t, x, c, t', x');
    }
    forall t': nat, x': nat, i: nat | x' < ENTRIES && PageAt(mem', t', x', i)
      ensures PageAt(mem, t', x', i)
    {
      assert AddedEntry(mem, mem', t, x, c, t', x');
    }
  }

  /** A guest page is entered where the walk has led. */
  lemma PageStrewn(mem: seq<nat>, t: nat, n: nat, pool: seq<nat>, start: nat, size: nat)
    requires Strewn(mem, pool, start, size, n) && Once(mem) && Pool(pool) && Walked(t, pool, n)
    requires n < PAGES && !Hidden(start, size, n) && ENTRIES * REACH <= |mem|
    ensures var x := n % ENTRIES;
      var mem' := Put(mem, t, x, PageEntry(EntryAt(mem, t, x), PAGE_2MB * n, true));
      Strewn(mem', pool, start, size, n + 1) && Once(mem') && NoOther(mem, mem', n)
  {
    hide Present, LargePage, Child, Base, Hidden, EntryAt, PageEntry, Wrote;
    var x := n % ENTRIES;
    var e := PageEntry(EntryAt(mem, t, x), PAGE_2MB * n, true);
    var mem' := Put(mem, t, x, e);
    WalkedInReach(t, pool, n);
    GuestEntry(EntryAt(mem, t, x), n);
    forall t': nat, x': nat | x' < ENTRIES
      ensures EntryAt(mem', t', x') == if t' == t && x' == x then e else EntryAt(mem, t', x')
    {
      WroteEntry(mem, mem', t, x, e, t', x');
    }
    forall t': nat, x': nat | t' < REACH && x' < ENTRIES
      ensures Slot(EntryAt(mem', t', x'), pool, start, size, n + 1, t', x')
    {
      assert Slot(EntryAt(mem, t', x'), pool, start, size, n, t', x');
    }
    forall t': nat, t'': nat, x': nat, i: nat | t' < REACH && t'' < REACH && x' < ENTRIES && i < PAGES
      && PageAt(mem', t', x', i) && PageAt(mem', t'', x', i)
      ensures t' == t''
    {
      assert Slot(EntryAt(mem, t', x'), pool, start, size, n, t', x');
      assert Slot(EntryAt(mem, t'', x'), pool, start, size, n, t'', x');
      assert PageAt(mem, t', x', i) || (t' == t && x' == x);
      assert PageAt(mem, t'', x', i) || (t'' == t && x' == x);
    }
  }

  /** Mapping page `n` from a table on its way down. */
  lemma {:induction false} MmapStrewn(s: Paged, t: nat, n: nat, level: nat, pool: seq<nat>, start: nat, size: nat)
    requires Strewn(s.mem, pool, start, size, n) && Once(s.mem) && Pool(pool) && AllIn(s.lows + [HALF], pool)
    requires PD <= level <= PML4 && Walked(t, pool, n) && n < PAGES && !Hidden(start, size, n) && ENTRIES * REACH <= |s.mem|
    ensures var s' := Mmap(s, t, PAGE_2MB * n, PAGE_2MB * n, level, true);
      && |s'.mem| == |s.mem| && Strewn(s'.mem, pool, start, size, n + 1) && Once(s'.mem) && AllIn(s'.lows + [HALF], pool)
      && NoOther(s.mem, s'.mem, n)
    decreases level
  {
    hide Present, LargePage, Child, Base, Hidden, EntryAt, PageEntry, AddTable, Put, Slot, Once, Index, PageAt, Strewn, Walked;
    var v := PAGE_2MB * n;
    var x := Index(v, level);
    GuestDigits(n);
    if level == PD {
      PageStrewn(s.mem, t, n, pool, start, size);
    } else {
      var e := EntryAt(s.mem, t, x);
      var s1 := if Present(e) then s else AddTable(s, t, x);
      WalkedInReach(t, pool, n);
      SlotAt(s.mem, pool, start, size, n, t, x);
      if Present(e) {
        LeadsOn(e, pool, start, size, n, t, x);
      } else {
        AbsentInPool(e, pool, start, size, n, t, x);
        AddTableStrewn(s, t, x, pool, start, size, n);
        InPoolWalked(Child(EntryAt(s1.mem, t, x)), pool, n);
      }
      MmapStrewn(s1, Child(EntryAt(s1.mem, t, x)), n, level - 1, pool, start, size);
      NoOtherTwice(s.mem, s1.mem, Mmap(s1, Child(EntryAt(s1.mem, t, x)), v, v, level - 1, true).mem, n);
    }
  }

  lemma GuestDigits(n: nat)
    requires n < PAGES
    ensures Index(PAGE_2MB * n, 4) == 0 && Index(PAGE_2MB * n, 3) == n / ENTRIES && Index(PAGE_2MB * n, 2) == n % ENTRIES
  {
    hide Index;
    DigitIndex(0, n / ENTRIES, n % ENTRIES);
    assert Digits(0, n / ENTRIES, n % ENTRIES) == n;
  }

  lemma SlotAt(mem: seq<nat>, pool: seq<nat>, start: nat, size: nat, n: nat, t: nat, x: nat)
    requires Strewn(mem, pool, start, size, n) && t < REACH && x < ENTRIES
    ensures Slot(EntryAt(mem, t, x), pool, start, size, n, t, x)
  {
  }

  lemma AbsentInPool(e: nat, pool: seq<nat>, start: nat, size: nat, n: nat, t: nat, x: nat)
    requires Slot(e, pool, start, size, n, t, x) && !Present(e)
    ensures t in pool
  {
    hide Present, LargePage, Child, Base, Hidden;
  }

  lemma InPoolWalked(t: nat, pool: seq<nat>, n: nat)
    requires t in pool
    ensures Walked(t, pool, n)
  {
  }

  lemma NoOtherTwice(mem0: seq<nat>, mem1: seq<nat>, mem2: seq<nat>, n: nat)
    requires (mem1 == mem0 || NoOther(mem0, mem1, n)) && NoOther(mem1, mem2, n)
    ensures NoOther(mem0, mem2, n)
  {
    hide PageAt;
  }

  // ----- if the map came out right nevertheless

  /** Everything has been mapped, and the map is the identity. */
  ghost predicate Finished(mem: seq<nat>, root: nat, pool: seq<nat>, start: nat, size: nat) {
    && Strewn(mem, pool, start, size, PAGES) && Once(mem) && IdentityMap(mem, root, start, size, PAGES)
    && Pool(pool) && root in pool && (0 in pool ==> root == 0) && (root == 0 ==> !PageAt(mem, root, 0, 0))
  }

  /** The second table, and the third for each half. */
  function Pdp(mem: seq<nat>, root: nat): nat {
    Child(EntryAt(mem, root, 0))
  }

  function Pd(mem: seq<nat>, root: nat, h: nat): nat {
    Child(EntryAt(mem, Pdp(mem, root), h))
  }

  /** Page `y` of half `h` is mapped. */
  predicate Shown(start: nat, size: nat, h: nat, y: nat) {
    h < 2 && y < ENTRIES && !Hidden(start, size, ENTRIES * h + y)
  }

  lemma Nothing(mem: seq<nat>, root: nat, pool: seq<nat>, start: nat, size: nat, a: nat, b: nat, y: nat)
    requires Finished(mem, root, pool, start, size) && a < ENTRIES && b < ENTRIES && y < ENTRIES
    ensures a != 0 || b >= 2 || Hidden(start, size, ENTRIES * b + y) ==> Reach(mem, root, a, b, y) == None
  {
    hide Reach, Hidden, Strewn, Once, IdentityMap, PageAt;
    IdentityAt(mem, root, start, size, a, b, y);
  }

  /** Where a guest page that is mapped has its entry. */
  lemma Placed(mem: seq<nat>, root: nat, pool: seq<nat>, start: nat, size: nat, h: nat, y: nat)
    requires Finished(mem, root, pool, start, size) && Shown(start, size, h, y)
    ensures var p, d := Pdp(mem, root), Pd(mem, root, h);
      && Present(EntryAt(mem, root, 0)) && Present(EntryAt(mem, p, h)) && p < REACH && d < REACH
      && PageAt(mem, d, y, ENTRIES * h + y)
  {
    hide EntryAt, Present, LargePage, Child, Hidden, Once, IdentityMap, Base, Slot;
    IdentityAt(mem, root, start, size, 0, h, y);
    var p, d := Pdp(mem, root), Pd(mem, root, h);
    SlotAt(mem, pool, start, size, PAGES, root, 0);
    LeadsOn(EntryAt(mem, root, 0), pool, start, size, PAGES, root, 0);
    WalkedInReach(p, pool, PAGES);
    SlotAt(mem, pool, start, size, PAGES, p, h);
    LeadsOn(EntryAt(mem, p, h), pool, start, size, PAGES, p, h);
    WalkedInReach(d, pool, PAGES);
    SlotAt(mem, pool, start, size, PAGES, d, y);
    RightLeaf(EntryAt(mem, d, y), pool, start, size, d, y, ENTRIES * h + y);
  }

  /** A leaf that is right, if its page is one of the 1024, is the entry of a guest page. */
  lemma RightLeaf(e: nat, pool: seq<nat>, start: nat, size: nat, t: nat, x: nat, i: nat)
    requires Slot(e, pool, start, size, PAGES, t, x) && Leaf(e) && (Base(e) < PAGES ==> Base(e) == i)
    requires i < PAGES && i % ENTRIES == x
    ensures IsPage(e, i)
  {
    hide Present, LargePage, Child, Hidden, Base;
  }

  /** A page that is never granted has leaves only. */
  lemma StrayLast(mem: seq<nat>, pool: seq<nat>, start: nat, size: nat, t: nat, y: nat)
    requires Strewn(mem, pool, start, size, PAGES) && t < REACH && t !in pool && y < ENTRIES
    ensures Last(mem, t, y).Some? && Present(EntryAt(mem, t, y))
  {
    hide Present, LargePage, Child, Hidden, Base, EntryAt, Strewn;
    SlotAt(mem, pool, start, size, PAGES, t, y);
  }

  /** Below a guest page taken for a table everything is present. */
  lemma PageAstray(mem: seq<nat>, pool: seq<nat>, start: nat, size: nat, t: nat, x: nat, i: nat, y: nat)
    requires Strewn(mem, pool, start, size, PAGES) && Pool(pool) && PageAt(mem, t, x, i) && 1 <= i < PAGES && y < ENTRIES
    ensures Child(EntryAt(mem, t, x)) !in pool && Child(EntryAt(mem, t, x)) < REACH
    ensures Below(mem, t, x, y).Some?
  {
    hide Present, LargePage, Child, Base, EntryAt, Strewn, Last;
    StrayLast(mem, pool, start, size, Child(EntryAt(mem, t, x)), y);
  }

  lemma StrayBelow(mem: seq<nat>, pool: seq<nat>, start: nat, size: nat, t: nat, b: nat, y: nat)
    requires Strewn(mem, pool, start, size, PAGES) && Pool(pool) && t < REACH && t !in pool && 1 <= b < ENTRIES && y < ENTRIES
    ensures Below(mem, t, b, y).Some?
  {
    hide Present, LargePage, Child, Hidden, Base, EntryAt, Strewn, Last;
    SlotAt(mem, pool, start, size, PAGES, t, b);
    StrayLast(mem, pool, start, size, t, b);
    StrayLast(mem, pool, start, size, Child(EntryAt(mem, t, b)), y);
  }

  lemma PdpInPool(mem: seq<nat>, root: nat, pool: seq<nat>, start: nat, size: nat, h: nat, y: nat)
    requires Finished(mem, root, pool, start, size) && Shown(start, size, h, y)
    ensures Pdp(mem, root) in pool
  {
    hide Present, LargePage, Child, Hidden, Base, EntryAt, Strewn, Once, IdentityMap, Below, PageAt, Shown;
    Placed(mem, root, pool, start, size, h, y);
    Nothing(mem, root, pool, start, size, 0, 2, 0);
    if Pdp(mem, root) !in pool {
      StrayBelow(mem, pool, start, size, Pdp(mem, root), 2, 0);
    }
  }

  /** A guest page in the root, but for page 0, would be seen far above. */
  lemma RootAstray(mem: seq<nat>, root: nat, pool: seq<nat>, start: nat, size: nat, x: nat, i: nat)
    requires Finished(mem, root, pool, start, size) && 1 <= x < ENTRIES && 1 <= i < PAGES
    ensures !PageAt(mem, root, x, i)
  {
    hide Present, LargePage, Child, Hidden, Base, EntryAt, Strewn, Once, IdentityMap, Below;
    Nothing(mem, root, pool, start, size, x, 1, 0);
    if PageAt(mem, root, x, i) {
      PageAstray(mem, pool, start, size, root, x, i, 0);
      StrayBelow(mem, pool, start, size, Child(EntryAt(mem, root, x)), 1, 0);
    }
  }

  lemma RootApart(mem: seq<nat>, root: nat, pool: seq<nat>, start: nat, size: nat, h: nat, y: nat)
    requires Finished(mem, root, pool, start, size) && Shown(start, size, h, y)
    ensures Pdp(mem, root) != root
  {
    hide Present, LargePage, Child, Hidden, Base, EntryAt, Strewn, Once, IdentityMap, Last;
    Placed(mem, root, pool, start, size, h, y);
    if Pdp(mem, root) == root {
      if h == 0 {
        if y >= 1 {
          RootAstray(mem, root, pool, start, size, y, y);
        }
      } else {
        Nothing(mem, root, pool, start, size, 1, y, 0);
        PageAstray(mem, pool, start, size, Pd(mem, root, 1), y, ENTRIES + y, 0);
      }
    }
  }

  /** The hidden pages are neighbours. */
  lemma HiddenBetween(start: nat, size: nat, i: nat, j: nat, k: nat)
    requires Hidden(start, size, i) && Hidden(start, size, k) && i <= j <= k
    ensures Hidden(start, size, j)
  {
  }

  lemma OnceAt(mem: seq<nat>, t: nat, t': nat, x: nat, i: nat)
    requires Once(mem) && t < REACH && t' < REACH && x < ENTRIES && i < PAGES && PageAt(mem, t, x, i) && PageAt(mem, t', x, i)
    ensures t == t'
  {
    hide PageAt;
  }

  /** What leads from the second table, which can be granted, to a page that cannot. */
  lemma PageLeads(e: nat, pool: seq<nat>, start: nat, size: nat, t: nat, h: nat) returns (i: nat)
    requires Slot(e, pool, start, size, PAGES, t, h) && t in pool && h < 2 && Present(e) && Child(e) !in pool
    ensures IsPage(e, i) && (i == h || i == ENTRIES + h) && !Hidden(start, size, i)
  {
    hide Present, LargePage, Child, Hidden, Base;
    i := Base(e);
  }

  lemma PdInPool(mem: seq<nat>, root: nat, pool: seq<nat>, start: nat, size: nat, h: nat, y: nat)
    requires Finished(mem, root, pool, start, size) && Shown(start, size, h, y)
    ensures Pd(mem, root, h) in pool
  {
    hide Present, LargePage, Child, Hidden, Base, EntryAt, Strewn, Once, IdentityMap, Below, Slot;
    var p, d := Pdp(mem, root), Pd(mem, root, h);
    Placed(mem, root, pool, start, size, h, y);
    PdpInPool(mem, root, pool, start, size, h, y);
    if d !in pool {
      SlotAt(mem, pool, start, size, PAGES, p, h);
      var i := PageLeads(EntryAt(mem, p, h), pool, start, size, p, h);
      assert PageAt(mem, p, h, i);
      if i == ENTRIES * h + h {
        Placed(mem, root, pool, start, size, h, h);
        OnceAt(mem, d, p, h, i);
      } else if h == 0 {
        FirstInLast(mem, root, pool, start, size);
      } else {
        SecondInSelf(mem, root, pool, start, size);
      }
    }
  }

  /** Page 512 in place of the table for the first half: it cannot hold page 0, which was mapped before. */
  lemma FirstInLast(mem: seq<nat>, root: nat, pool: seq<nat>, start: nat, size: nat)
    requires Finished(mem, root, pool, start, size)
    requires Present(EntryAt(mem, root, 0)) && Present(EntryAt(mem, Pdp(mem, root), 0))
    ensures Pd(mem, root, 0) != ENTRIES * ENTRIES || Pd(mem, root, 0) in pool
  {
    hide Present, LargePage, Child, Hidden, Base, EntryAt, Strewn, Once, IdentityMap, Last;
    var d := Pd(mem, root, 0);
    if d == ENTRIES * ENTRIES && d !in pool {
      StrayLast(mem, pool, start, size, d, 0);
      Nothing(mem, root, pool, start, size, 0, 0, 0);
      Placed(mem, root, pool, start, size, 0, 0);
      SlotAt(mem, pool, start, size, PAGES, d, 0);
      NotBefore(EntryAt(mem, d, 0), pool, start, size, d);
    }
  }

  lemma NotBefore(e: nat, pool: seq<nat>, start: nat, size: nat, t: nat)
    requires t == ENTRIES * ENTRIES && t !in pool && Slot(e, pool, start, size, PAGES, t, 0)
    ensures !IsPage(e, 0)
  {
    hide Present, LargePage, Child, Hidden, Base;
  }

  /** Page 1 in place of the table for the second half: then the second table is its own third for the first half. */
  lemma SecondInSelf(mem: seq<nat>, root: nat, pool: seq<nat>, start: nat, size: nat)
    requires Finished(mem, root, pool, start, size) && !Hidden(start, size, 1) && Pdp(mem, root) in pool
    ensures !PageAt(mem, Pdp(mem, root), 1, 1)
  {
    hide Present, LargePage, Child, Hidden, Base, EntryAt, Strewn, Once, IdentityMap, Below;
    var p := Pdp(mem, root);
    Placed(mem, root, pool, start, size, 0, 1);
    RootApart(mem, root, pool, start, size, 0, 1);
    Nothing(mem, root, pool, start, size, 0, 2, 0);
    if PageAt(mem, p, 1, 1) {
      OnceAt(mem, Pd(mem, root, 0), p, 1, 1);
      if !Hidden(start, size, 2) {
        Placed(mem, root, pool, start, size, 0, 2);
        PageAstray(mem, pool, start, size, p, 2, 2, 0);
      } else if Hidden(start, size, 0) {
        HiddenBetween(start, size, 0, 1, 2);
      } else {
        Placed(mem, root, pool, start, size, 0, 0);
      }
    }
  }

  lemma PdApart(mem: seq<nat>, root: nat, pool: seq<nat>, start: nat, size: nat, h: nat, y: nat)
    requires Finished(mem, root, pool, start, size) && Shown(start, size, h, y)
    ensures Pd(mem, root, h) != Pdp(mem, root)
  {
    hide Present, LargePage, Child, Hidden, Base, EntryAt, Strewn, Once, IdentityMap, Below;
    var p, d := Pdp(mem, root), Pd(mem, root, h);
    var i := ENTRIES * h + y;
    Placed(mem, root, pool, start, size, h, y);
    PdpInPool(mem, root, pool, start, size, h, y);
    RootApart(mem, root, pool, start, size, h, y);
    if d == p && y != h {
      PageAstray(mem, pool, start, size, p, y, i, 0);
      Nothing(mem, root, pool, start, size, 0, y, 0);
      if y < 2 {
        PdInPool(mem, root, pool, start, size, y, 0);
      }
    }
  }

  lemma PdNotRoot(mem: seq<nat>, root: nat, pool: seq<nat>, start: nat, size: nat, h: nat, y: nat)
    requires Finished(mem, root, pool, start, size) && Shown(start, size, h, y)
    ensures Pd(mem, root, h) != root
  {
    hide Present, LargePage, Child, Hidden, Base, EntryAt, Strewn, Once, IdentityMap;
    Placed(mem, root, pool, start, size, h, y);
    PdpInPool(mem, root, pool, start, size, h, y);
    RootApart(mem, root, pool, start, size, h, y);
    if y >= 1 {
      RootAstray(mem, root, pool, start, size, y, ENTRIES * h + y);
    }
  }

  lemma HalvesApart(mem: seq<nat>, root: nat, pool: seq<nat>, start: nat, size: nat, y: nat, y': nat)
    requires Finished(mem, root, pool, start, size) && Shown(start, size, 0, y) && Shown(start, size, 1, y')
    ensures Pd(mem, root, 0) != Pd(mem, root, 1)
  {
    hide Present, LargePage, Child, Hidden, Base, EntryAt, Strewn, Once, IdentityMap;
    Placed(mem, root, pool, start, size, 0, y);
    Placed(mem, root, pool, start, size, 1, y');
    IdentityAt(mem, root, start, size, 0, 1, y);
  }

  // ----- counting

  function Elements(pool: seq<nat>): set<nat> {
    set t | t in pool
  }

  lemma {:induction false} ElementsFew(pool: seq<nat>)
    ensures |Elements(pool)| <= |pool|
  {
    if pool != [] {
      ElementsFew(pool[1..]);
      assert Elements(pool) == Elements(pool[1..]) + {pool[0]};
    }
  }

  lemma {:induction false} SubsetFew(a: set<nat>, b: set<nat>)
    requires a <= b
    ensures |a| <= |b|
  {
    if a != {} {
      var t :| t in a;
      SubsetFew(a - {t}, b - {t});
    }
  }

  lemma ThreeIn(pool: seq<nat>, a: nat, b: nat, c: nat)
    requires a in pool && b in pool && c in pool && a != b && a != c && b != c
    ensures 3 <= |pool|
  {
    SubsetFew({a, b, c}, Elements(pool));
    ElementsFew(pool);
  }

  lemma FourIn(pool: seq<nat>, a: nat, b: nat, c: nat, d: nat)
    requires a in pool && b in pool && c in pool && d in pool
    requires a != b && a != c && a != d && b != c && b != d && c != d
    ensures 4 <= |pool|
  {
    SubsetFew({a, b, c, d}, Elements(pool));
    ElementsFew(pool);
  }

  /** The identity takes as many different pages that can be granted as the map needs tables. */
  lemma FinishedNeeds(mem: seq<nat>, root: nat, pool: seq<nat>, start: nat, size: nat)
    requires Finished(mem, root, pool, start, size)
    ensures TablesNeeded(start, size) <= |pool|
  {
    hide Hidden, Finished, Pdp, Pd;
    RootInPool(mem, root, pool, start, size);
    if HalfUsed(start, size, 0) {
      var i: nat :| i < PAGES && i / ENTRIES == 0 && !Hidden(start, size, i);
      TablesApart(mem, root, pool, start, size, 0, i);
      if HalfUsed(start, size, 1) {
        var j: nat :| j < PAGES && j / ENTRIES == 1 && !Hidden(start, size, j);
        TablesApart(mem, root, pool, start, size, 1, j - ENTRIES);
        HalvesApart(mem, root, pool, start, size, i, j - ENTRIES);
        FourIn(pool, root, Pdp(mem, root), Pd(mem, root, 0), Pd(mem, root, 1));
      } else {
        ThreeIn(pool, root, Pdp(mem, root), Pd(mem, root, 0));
      }
    } else if HalfUsed(start, size, 1) {
      var j: nat :| j < PAGES && j / ENTRIES == 1 && !Hidden(start, size, j);
      TablesApart(mem, root, pool, start, size, 1, j - ENTRIES);
      ThreeIn(pool, root, Pdp(mem, root), Pd(mem, root, 1));
    }
  }

  lemma RootInPool(mem: seq<nat>, root: nat, pool: seq<nat>, start: nat, size: nat)
    requires Finished(mem, root, pool, start, size)
    ensures root in pool
  {
  }

  lemma TablesApart(mem: seq<nat>, root: nat, pool: seq<nat>, start: nat, size: nat, h: nat, y: nat)
    requires Finished(mem, root, pool, start, size) && Shown(start, size, h, y)
    ensures Pdp(mem, root) in pool && Pd(mem, root, h) in pool && Pdp(mem, root) != root && Pd(mem, root, h) != root
    ensures Pd(mem, root, h) != Pdp(mem, root)
  {
    hide Hidden, Finished, Pdp, Pd;
    PdpInPool(mem, root, pool, start, size, h, y);
    PdInPool(mem, root, pool, start, size, h, y);
    RootApart(mem, root, pool, start, size, h, y);
    PdApart(mem, root, pool, start, size, h, y);
    PdNotRoot(mem, root, pool, start, size, h, y);
  }

  // ----- the run

  /** Every page that can be granted is empty, the others are full of strays. */
  function StrayMemory(pool: seq<nat>, max: nat): (mem: seq<nat>)
    ensures |mem| == ENTRIES * max
  {
    seq(ENTRIES * max, a requires 0 <= a => if a / ENTRIES in pool then 0 else Stray(a % ENTRIES))
  }

  lemma StrayEntry(pool: seq<nat>, max: nat, t: nat, x: nat)
    requires x < ENTRIES
    ensures EntryAt(StrayMemory(pool, max), t, x) == if t < max && t !in pool then Stray(x) else 0
  {
    hide Stray;
    WordPage(t, x);
  }

  lemma WordPage(t: nat, x: nat)
    requires x < ENTRIES
    ensures (ENTRIES * t + x) / ENTRIES == t && (ENTRIES * t + x) % ENTRIES == x
  {
  }

  /** Nothing has been mapped in it, and strays never look like a guest page. */
  lemma StrayStart(pool: seq<nat>, max: nat, start: nat, size: nat)
    requires Pool(pool) && REACH <= max
    ensures Strewn(StrayMemory(pool, max), pool, start, size, 0)
    ensures forall t: nat, x: nat, i: nat :: x < ENTRIES ==> !PageAt(StrayMemory(pool, max), t, x, i)
  {
    hide Present, LargePage, Child, Base, Hidden, Stray, EntryAt, StrayMemory;
    var mem := StrayMemory(pool, max);
    ZeroEntry();
    forall t: nat, x: nat | t < REACH && x < ENTRIES
      ensures Slot(EntryAt(mem, t, x), pool, start, size, 0, t, x)
    {
      StrayEntry(pool, max, t, x);
      StrayIs(x);
    }
    forall t: nat, x: nat, i: nat | x < ENTRIES
      ensures !PageAt(mem, t, x, i)
    {
      StrayEntry(pool, max, t, x);
      StrayIs(x);
      assert Child(Stray(x)) == ENTRIES * i ==> i != 0;
    }
  }

  /** The first guest page does not land in the root, while that is not granted again. */
  lemma FirstPage(s: Paged)
    requires !Present(EntryAt(s.mem, 0, 0)) && ENTRIES * (HALF + 1) <= |s.mem|
    requires 0 < Granted(s.lows) <= HALF && 0 < Granted(Later(s.lows)) <= HALF
    ensures !PageAt(Mmap(s, 0, PAGE_2MB * 0, PAGE_2MB * 0, PML4, true).mem, 0, 0, 0)
  {
    hide Present, LargePage, Child, Base, EntryAt, PageEntry, AddTable, Put, Index, Granted, Later, Pow2, Wrote;
    GuestDigits(0);
    var c1, c2 := Granted(s.lows), Granted(Later(s.lows));
    LowPage(c1);
    LowPage(c2);
    var s1 := AddTable(s, 0, 0);
    AddTableSizes(s, 0, 0);
    AddTableEntry(s, 0, 0, 0, 0);
    AddTableEntry(s, 0, 0, c1, 0);
    var s2 := AddTable(s1, c1, 0);
    AddTableSizes(s1, c1, 0);
    AddTableEntry(s1, c1, 0, 0, 0);
    AddTableEntry(s1, c1, 0, c1, 0);
    var e := PageEntry(EntryAt(s2.mem, c2, 0), 0, true);
    var mem3 := Put(s2.mem, c2, 0, e);
    WroteEntry(s2.mem, mem3, c2, 0, e, 0, 0);
    assert Mmap(s2, c2, 0, 0, PD, true).mem == mem3;
    assert Mmap(s1, c1, 0, 0, 3, true) == Mmap(s2, c2, 0, 0, PD, true);
    assert Mmap(s, 0, 0, 0, PML4, true) == Mmap(s1, c1, 0, 0, 3, true);
  }

  lemma AddTableSizes(s: Paged, t: nat, x: nat)
    ensures |AddTable(s, t, x).mem| == |s.mem| && AddTable(s, t, x).lows == Later(s.lows)
  {
    hide TableEntry, EntryAt;
    ClearedSize(s.mem, ClearPage(s.mem, Granted(s.lows)), Granted(s.lows));
  }

  /** What holds before each page, and after all of them. */
  ghost predicate Straying(s: Paged, root: nat, pool: seq<nat>, start: nat, size: nat, n: nat) {
    && Strewn(s.mem, pool, start, size, n) && Once(s.mem) && AllIn(s.lows + [HALF], pool)
    && ENTRIES * REACH <= |s.mem| && (root == 0 ==> !PageAt(s.mem, root, 0, 0))
  }

  lemma {:induction false} MapPagesStray(s: Paged, root: nat, pool: seq<nat>, start: nat, size: nat, n: nat)
    requires Straying(s, root, pool, start, size, 0) && Pool(pool) && root in pool && n <= PAGES
    requires root == 0 ==>
      !Present(EntryAt(s.mem, 0, 0)) && 0 < Granted(s.lows) <= HALF && 0 < Granted(Later(s.lows)) <= HALF
    ensures Straying(MapPages(s, root, start, size, n), root, pool, start, size, n)
  {
    hide Hidden, Strewn, Once, PageAt, Mmap, Granted, Later, EntryAt, Present;
    if n != 0 {
      MapPagesStray(s, root, pool, start, size, n - 1);
      var s1, s' := MapPages(s, root, start, size, n - 1), MapPages(s, root, start, size, n);
      if Hidden(start, size, n - 1) {
        StrewnMore(s1.mem, pool, start, size, n - 1);
      } else {
        InPoolWalked(root, pool, n - 1);
        MmapStrewn(s1, root, n - 1, PML4, pool, start, size);
        if root == 0 {
          if n == 1 {
            FirstPage(s);
          } else {
            StillNoPage(s1.mem, s'.mem, n - 1);
          }
        }
      }
    }
  }

  lemma StillNoPage(mem: seq<nat>, mem': seq<nat>, n: nat)
    requires NoOther(mem, mem', n) && n != 0 && !PageAt(mem, 0, 0, 0)
    ensures !PageAt(mem', 0, 0, 0)
  {
    hide PageAt;
  }

  lemma StrewnMore(mem: seq<nat>, pool: seq<nat>, start: nat, size: nat, n: nat)
    requires Strewn(mem, pool, start, size, n)
    ensures Strewn(mem, pool, start, size, n + 1)
  {
    hide EntryAt, Hidden, Present, LargePage, Child, Base;
    forall t: nat, x: nat | t < REACH && x < ENTRIES
      ensures Slot(EntryAt(mem, t, x), pool, start, size, n + 1, t, x)
    {
      assert Slot(EntryAt(mem, t, x), pool, start, size, n, t, x);
    }
  }

  /** Clearing the root changes nothing: it was empty. */
  lemma RootStray(lows: seq<nat>, max: nat, start: nat, size: nat)
    requires LowPages(lows) && REACH <= max
    ensures var pool, root := lows + [HALF], Granted(lows);
      var s := NewTable(Paged(StrayMemory(pool, max), lows));
      && Pool(pool) && root in pool && (0 in pool ==> root == 0) && Straying(s, root, pool, start, size, 0)
      && !Present(EntryAt(s.mem, root, 0))
      && (root == 0 ==> 0 < Granted(s.lows) <= HALF && 0 < Granted(Later(s.lows)) <= HALF)
  {
    hide EntryAt, Present, LargePage, Child, Base, Hidden, StrayMemory, Slot, PageAt, Cleared, ClearPage;
    var pool, root := lows + [HALF], Granted(lows);
    var mem := StrayMemory(pool, max);
    var s := NewTable(Paged(mem, lows));
    LowsPool(lows);
    StrayStart(pool, max, start, size);
    ClearedSize(mem, s.mem, root);
    ZeroEntry();
    forall t: nat, x: nat | x < ENTRIES
      ensures EntryAt(s.mem, t, x) == EntryAt(mem, t, x) && (t == root ==> EntryAt(s.mem, t, x) == 0)
    {
      ClearedEntry(mem, s.mem, root, t, x);
      StrayEntry(pool, max, t, x);
    }
    SameEntries(mem, s.mem, pool, start, size);
  }

  lemma SameEntries(mem: seq<nat>, mem': seq<nat>, pool: seq<nat>, start: nat, size: nat)
    requires Strewn(mem, pool, start, size, 0) && forall t: nat, x: nat, i: nat :: x < ENTRIES ==> !PageAt(mem, t, x, i)
    requires forall t: nat, x: nat :: x < ENTRIES ==> EntryAt(mem', t, x) == EntryAt(mem, t, x)
    ensures Strewn(mem', pool, start, size, 0) && Once(mem') && !PageAt(mem', 0, 0, 0)
  {
    hide EntryAt, Slot, IsPage;
    forall t: nat, x: nat, i: nat | x < ENTRIES
      ensures !PageAt(mem', t, x, i)
    {
      assert !PageAt(mem, t, x, i);
    }
  }

  lemma LowsPool(lows: seq<nat>)
    requires LowPages(lows)
    ensures var pool, root := lows + [HALF], Granted(lows);
      && Pool(pool) && root in pool && (0 in pool ==> root == 0) && AllIn(Later(lows) + [HALF], pool)
      && (root == 0 ==> 0 < Granted(Later(lows)) <= HALF && 0 < Granted(Later(Later(lows))) <= HALF)
  {
    var pool := lows + [HALF];
    assert pool[0] == Granted(lows);
    assert Later(lows) + [HALF] == if |lows| == 0 then pool else pool[1..];
  }

  /** With fewer different pages than tables there is a memory for which the map comes out wrong. */
  lemma CreateFails(lows: seq<nat>, start: nat, size: nat, max: nat)
    requires LowPages(lows) && REACH <= max && TablesNeeded(start, size) > |lows| + 1
    ensures var s := Paged(StrayMemory(lows + [HALF], max), lows);
      !IdentityMap(Create(s, start, size).mem, Granted(lows), start, size, 1024)
  {
    hide EntryAt, Present, Hidden, StrayMemory, PageAt, Strewn, Once, IdentityMap, TablesNeeded, NewTable, Granted, Later;
    var pool, root := lows + [HALF], Granted(lows);
    var s := Paged(StrayMemory(pool, max), lows);
    RootStray(lows, max, start, size);
    MapPagesStray(NewTable(s), root, pool, start, size, PAGES);
    var s' := Create(s, start, size);
    if IdentityMap(s'.mem, root, start, size, PAGES) {
      FinishedNeeds(s'.mem, root, pool, start, size);
    }
  }

  /**
   The map is right for every memory exactly when the free pages among the first 32, with page 32, are as many as the map
   needs tables: four, three if one half of the 2 GiB is hidden entirely, one if everything is.
   */
  lemma CreateRightIff(lows: seq<nat>, start: nat, size: nat, max: nat)
    requires LowPages(lows) && REACH <= max
    ensures (forall mem: seq<nat> :: |mem| == ENTRIES * max ==>
               Identity(Create(Paged(mem, lows), start, size).mem, Granted(lows), start, size, 1024))
        <==> TablesNeeded(start, size) <= |lows| + 1
  {
    hide Hidden, StrayMemory, IdentityMap, TablesNeeded, Create, Granted, LowPages;
    if TablesNeeded(start, size) <= |lows| + 1 {
      forall mem: seq<nat> | |mem| == ENTRIES * max
        ensures Identity(Create(Paged(mem, lows), start, size).mem, Granted(lows), start, size, 1024)
      {
        CreateWorks(Paged(mem, lows), start, size);
      }
    } else {
      CreateFails(lows, start, size, max);
      assert !Identity(Create(Paged(StrayMemory(lows + [HALF], max), lows), start, size).mem, Granted(lows), start, size, 1024);
      assert |StrayMemory(lows + [HALF], max)| == ENTRIES * max;
    }
  }

  /** After naive_memmap_init, however much memory is free, there is always a memory for which the map is wrong. */
  lemma WrongAfterInit(tbl: seq<nat>, e820: seq<Entry>, heapStart: nat, pmemEnd: nat, start: nat, size: nat, i: nat, max: nat)
    requires heapStart > 0x810_0000 && |tbl| > 0 && REACH <= max
    requires forall p: nat :: Idx(p) < |tbl| ==> (!Taken(tbl, p) <==> Usable(e820, heapStart, pmemEnd, p))
    requires i < PAGES && !Hidden(start, size, i)
    ensures !(forall mem: seq<nat> :: |mem| == ENTRIES * max ==>
                IdentityMap(Create(Paged(mem, FreeFrom(tbl, 0)), start, size).mem, 32, start, size, 1024))
  {
    hide Taken, FreeFrom, Usable, Hidden, StrayMemory, IdentityMap, Create;
    NoneAfterInit(tbl, e820, heapStart, pmemEnd, max);
    UsedBy(start, size, i);
    AtLeastThree(start, size, i / ENTRIES);
    CreateFails([], start, size, max);
    assert |StrayMemory([] + [HALF], max)| == ENTRIES * max;
  }

  lemma AtLeastThree(start: nat, size: nat, h: nat)
    requires h < 2 && HalfUsed(start, size, h)
    ensures TablesNeeded(start, size) >= 3
  {
    hide HalfUsed;
    assert h == 0 || h == 1;
  }
}
