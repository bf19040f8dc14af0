/**
 create_2mb_nested_pagetable (vm.c:106-141): guest physical addresses below 2 GiB are mapped to themselves, except
 where the VMM is.
 */
module NestedPaging {
  import opened Bits
  import opened Bitmap
  import opened HostAlloc
  import opened AllocRuns
  import opened Entries
  import opened MemMap
  import opened PageTable
  import opened Wrappers

  const PAGE_2MB: nat := 0x20_0000
  const PAGES: nat := 1024

  function PageDown2mb(x: nat): nat {
    x / PAGE_2MB * PAGE_2MB
  }

  function PageUp2mb(x: nat): nat {
    (x + PAGE_2MB - 1) / PAGE_2MB * PAGE_2MB
  }

  /** The pages that the region from `start` on, of `size` bytes, has a part in. */
  predicate Own(start: nat, size: nat, i: nat) {
    start / PAGE_2MB <= i < (start + size + PAGE_2MB - 1) / PAGE_2MB
  }

  /** Left out of the map: the VMM's own pages and, when there are several of them, the page just below. */
  predicate Hidden(start: nat, size: nat, i: nat) {
    Own(start, size, i) || (Own(start, size, i + 1) && Own(start, size, i + 2) && !Own(start, size, i))
  }

  /** The two tests of lines 128-130. */
  predicate Skipped(pageStart: nat, pageEnd: nat, guest: nat) {
    || (guest >= pageStart && guest <= pageEnd)
    || (guest + PAGE_2MB >= pageStart && guest + 2 * PAGE_2MB <= pageEnd)
  }

  lemma SkippedIff(start: nat, size: nat, i: nat)
    requires start + size > 0
    ensures PageUp2mb(start + size) >= 1
    ensures Skipped(PageDown2mb(start), PageUp2mb(start + size) - 1, PAGE_2MB * i) <==> Hidden(start, size, i)
  {
    var s, e := start / PAGE_2MB, (start + size + PAGE_2MB - 1) / PAGE_2MB;
    assert PageDown2mb(start) == PAGE_2MB * s && PageUp2mb(start + size) == PAGE_2MB * e && s <= e;
    SkippedPages(s, e, i);
  }

  lemma SkippedPages(s: nat, e: nat, i: nat)
    requires 1 <= e && s <= e
    ensures Skipped(PAGE_2MB * s, PAGE_2MB * e - 1, PAGE_2MB * i) <==> s <= i < e || (s == i + 1 && s + 2 <= e)
  {
  }

  // ----- the guest's pages

  lemma GuestAddress(i: nat)
    requires i < PAGES
    ensures PAGE_2MB * i == Shl(i, 21) && Shr(PAGE_2MB * i, 21) == i && Low(PAGE_2MB * i, 21) == 0
    ensures PAGE_2MB * i < 0x8000_0000 && PAGE_2MB * i < Pow2(48)
  {
    hide Low, Shr, Shl, Pow2;
    ShlBy21(i);
    LowBound(0, 21);
    LowShrUnique(0, i, 21);
    LargePowers();
    Pow2Mono(32, 48);
  }

  lemma ShlBy21(i: nat)
    ensures Shl(i, 21) == PAGE_2MB * i
  {
    ShlFive(i, 0);
    ShlFive(i, 5);
    ShlFive(i, 10);
    ShlFive(i, 15);
    assert Shl(i, 21) == 2 * Shl(i, 20);
  }

  lemma ShlFive(x: nat, n: nat)
    ensures Shl(x, n + 5) == 32 * Shl(x, n) && (n == 0 ==> Shl(x, n) == x)
  {
    assert Shl(x, n + 2) == 2 * Shl(x, n + 1) == 4 * Shl(x, n);
    assert Shl(x, n + 4) == 2 * Shl(x, n + 3) == 4 * Shl(x, n + 2);
  }

  /** The low 2 GiB is reached through the first entry of the first table, and the first two of the second. */
  lemma GuestPath(i: nat)
    requires i < PAGES
    ensures var g := PAGE_2MB * i;
      && Index(g, 4) == 0 && Index(g, 3) == i / ENTRIES
      && Path(g)[..1] == [0] && Path(g)[..2] == [0, i / ENTRIES]
  {
    hide Low, Shr, Shl, Pow2, Index;
    var g := PAGE_2MB * i;
    GuestAddress(i);
    PathDigits(g);
    ShlNine(Index(g, 4));
    ShlNine(Index(g, 3) + Shl(Index(g, 4), 9));
    assert Path(g)[..1] == [Index(g, 4)];
    assert Path(g)[..2] == [Index(g, 4), Index(g, 3)];
  }

  lemma ShlNine(x: nat)
    ensures Shl(x, 9) == ENTRIES * x
  {
    ShlFive(x, 0);
    assert Shl(x, 7) == 2 * Shl(x, 6) == 4 * Shl(x, 5);
    assert Shl(x, 9) == 2 * Shl(x, 8) == 4 * Shl(x, 7);
  }

  /** Some page of the half is mapped: half 0 is the first GiB, half 1 the second. */
  ghost predicate HalfUsed(start: nat, size: nat, h: nat) {
    exists i: nat :: i < PAGES && i / ENTRIES == h && !Hidden(start, size, i)
  }

  /** Tables that the map consists of: the root and, if anything is mapped, the one below and one for each half in use. */
  ghost function TablesNeeded(start: nat, size: nat): nat {
    1 + Need(map[], start, size)
  }

  /** How many of these are still to be made, the root being there. */
  ghost function Need(tables: Tables, start: nat, size: nat): nat {
    (if (HalfUsed(start, size, 0) || HalfUsed(start, size, 1)) && [0] !in tables then 1 else 0)
    + NeedHalf(tables, start, size, 0) + NeedHalf(tables, start, size, 1)
  }

  ghost function NeedHalf(tables: Tables, start: nat, size: nat, h: nat): nat {
    if HalfUsed(start, size, h) && [0, h] !in tables then 1 else 0
  }

  lemma MissingGuest(tables: Tables, i: nat)
    requires i < PAGES
    ensures Missing(tables, PAGE_2MB * i, 0)
         == (if [0] in tables then 0 else 1) + (if [0, i / ENTRIES] in tables then 0 else 1)
    ensures i / ENTRIES <= 1
  {
    hide Index, Path;
    var g := PAGE_2MB * i;
    GuestPath(i);
    NoneMissing(tables, g);
    assert Missing(tables, g, 1) == (if Path(g)[..2] in tables then 0 else 1) + Missing(tables, g, 2);
    assert Missing(tables, g, 0) == (if Path(g)[..1] in tables then 0 else 1) + Missing(tables, g, 1);
  }

  lemma UsedBy(start: nat, size: nat, i: nat)
    requires i < PAGES && !Hidden(start, size, i)
    ensures HalfUsed(start, size, i / ENTRIES)
  {
    hide Hidden;
  }

  lemma NeedLess(tables: Tables, start: nat, size: nat, i: nat)
    requires i < PAGES && !Hidden(start, size, i)
    ensures Missing(tables, PAGE_2MB * i, 0) <= Need(tables, start, size)
  {
    hide HalfUsed, Missing, Hidden;
    UsedBy(start, size, i);
    MissingGuest(tables, i);
    assert i / ENTRIES == 0 || i / ENTRIES == 1;
  }

  /** Mapping a page uses up the tables that were missing for it, and no others. */
  lemma NeedGrown(tables: Tables, tables': Tables, start: nat, size: nat, i: nat)
    requires i < PAGES && !Hidden(start, size, i) && Grown(tables, tables', PAGE_2MB * i)
    ensures Need(tables', start, size) == Need(tables, start, size) - Missing(tables, PAGE_2MB * i, 0)
  {
    hide Index, Path, HalfUsed, Missing, Hidden;
    var g, h := PAGE_2MB * i, i / ENTRIES;
    UsedBy(start, size, i);
    GuestPath(i);
    MissingGuest(tables, i);
    var own: seq<nat> := [0, h];
    var other: seq<nat> := [0, 1 - h];
    assert [0] == Path(g)[..|[0]|] && own == Path(g)[..|own|];
    assert other != own;
    assert [0] in tables' && own in tables' && (other in tables' <==> other in tables);
    assert h == 0 || h == 1;
  }

  // ----- what is mapped

  /** Below page `n`, each page that is not hidden is mapped to itself, and nothing else is mapped. */
  ghost predicate IdentityMap(mem: seq<nat>, root: nat, start: nat, size: nat, n: nat) {
    forall v: nat :: v < Pow2(48) ==>
      Translate(mem, root, v) == if Shr(v, 21) < n && !Hidden(start, size, Shr(v, 21)) then Some(v) else None
  }

  /** Present, writable and for user on the whole way, and large at its end. */
  predicate Open(t: seq<nat>) {
    |t| == 3 && Low(t[0], 12) == 0x7 && Low(t[1], 12) == 0x7 && Low(t[2], 21) == 0x87
  }

  /** ... and what is mapped may be read and written, as user too. */
  ghost predicate Identity(mem: seq<nat>, root: nat, start: nat, size: nat, n: nat) {
    && IdentityMap(mem, root, start, size, n)
    && forall v: nat :: v < Pow2(48) && Translate(mem, root, v).Some? ==> Open(Trail(mem, root, v, PML4))
  }

  /** The same in numbers, address by address. */
  lemma IdentityMeans(mem: seq<nat>, root: nat, start: nat, size: nat, v: nat)
    requires Identity(mem, root, start, size, 1024) && v < 0x1_0000_0000_0000
    ensures var mapped, t := v < 0x8000_0000 && !Hidden(start, size, v / 0x20_0000), Trail(mem, root, v, 4);
      && Translate(mem, root, v) == (if mapped then Some(v) else None)
      && (mapped ==> |t| == 3 && Low(t[0], 12) == 0x7 && Low(t[1], 12) == 0x7 && Low(t[2], 21) == 0x87)
  {
    hide Low, Shr, Shl, Pow2, Translate, Trail, Hidden;
    LargePowers();
    var q := v / PAGE_2MB;
    ShlBy21(q);
    LowShrUnique(v % PAGE_2MB, q, 21);
  }

  /** Which pages are left out, in bytes: those with a byte of the VMM, and the one below it if it is in more than one page. */
  lemma HiddenMeans(start: nat, size: nat, i: nat)
    requires size > 0
    ensures Hidden(start, size, i) <==>
      || (exists b: nat :: start <= b < start + size && b / 0x20_0000 == i)
      || (start / 0x20_0000 == i + 1 && (start + size - 1) / 0x20_0000 > i + 1)
  {
    OwnMeans(start, size, i);
    OwnMeans(start, size, i + 1);
    OwnMeans(start, size, i + 2);
    var first, last := start / PAGE_2MB, (start + size - 1) / PAGE_2MB;
    assert first <= last;
    if first <= i <= last {
      var b := if i == first then start else PAGE_2MB * i;
      InPage(start, size, i, b);
    }
  }

  lemma OwnMeans(start: nat, size: nat, i: nat)
    requires size > 0
    ensures Own(start, size, i) <==> start / PAGE_2MB <= i <= (start + size - 1) / PAGE_2MB
  {
  }

  lemma InPage(start: nat, size: nat, i: nat, b: nat)
    requires size > 0 && start / PAGE_2MB <= i <= (start + size - 1) / PAGE_2MB
    requires b == if i == start / PAGE_2MB then start else PAGE_2MB * i
    ensures start <= b < start + size && b / PAGE_2MB == i
  {
  }

  lemma IdentityStep(mem: seq<nat>, mem': seq<nat>, root: nat, start: nat, size: nat, i: nat)
    requires i < PAGES && IdentityMap(mem, root, start, size, i) && !Hidden(start, size, i)
    requires Remapped(mem, mem', root, PAGE_2MB * i, PAGE_2MB * i)
    ensures IdentityMap(mem', root, start, size, i + 1)
  {
    hide Low, Shr, Shl, Pow2, Translate, SamePage, Mapped, Hidden;
    var g := PAGE_2MB * i;
    GuestAddress(i);
    forall v: nat | v < Pow2(48)
      ensures Translate(mem', root, v) == if Shr(v, 21) < i + 1 && !Hidden(start, size, Shr(v, 21)) then Some(v) else None
    {
      SamePageIff(g, v);
      assert Translate(mem', root, v) == if SamePage(g, v) then Some(Mapped(g, v)) else Translate(mem, root, v);
      if Shr(v, 21) == i {
        Pow2Mono(48, 52);
        MappedExactIff(g, v);
        LowShr(v, 21);
      }
    }
  }

  lemma IdentitySkip(mem: seq<nat>, root: nat, start: nat, size: nat, i: nat)
    requires IdentityMap(mem, root, start, size, i) && Hidden(start, size, i)
    ensures IdentityMap(mem, root, start, size, i + 1)
  {
    hide Shr, Pow2, Translate, Hidden;
  }

  /** A cleared page is the tree of one table, and translates nothing. */
  lemma EmptyTree(mem: seq<nat>, mem': seq<nat>, c: nat)
    requires Cleared(mem, mem', c) && ENTRIES * c + ENTRIES <= |mem| && c < Pow2(28)
    ensures Tree(mem', map[[] := c], c) && forall v: nat :: Translate(mem', c, v) == None
  {
    hide Pow2, EntryAt, Present, Child, Index;
    forall j: nat | j < ENTRIES
      ensures EntryAt(mem', c, j) == 0
    {
      ClearedEntry(mem, mem', c, c, j);
    }
    ZeroEntry();
    ClearedSize(mem, mem', c);
  }

  // ----- the loop

  /** Memory after the pages below `n` have been mapped or left out. */
  function MapPages(s: Paged, root: nat, start: nat, size: nat, n: nat): Paged {
    if n == 0 then s
    else
      var s1 := MapPages(s, root, start, size, n - 1);
      if Hidden(start, size, n - 1) then s1
      else Mmap(s1, root, PAGE_2MB * (n - 1), PAGE_2MB * (n - 1), PML4, true)
  }

  /** create_2mb_nested_pagetable; the root is in the page granted first. */
  function Create(s: Paged, start: nat, size: nat): Paged {
    MapPages(NewTable(s), Granted(s.lows), start, size, PAGES)
  }

  method Create2mbNestedPagetable(host: PageTables, start: nat, size: nat) returns (cr3: nat)
    requires host.Roomy() && start + size > 0
    modifies host.mem, host.allocator.allocBitmap
    ensures cr3 == Granted(old(host.State()).lows) && host.State() == Create(old(host.State()), start, size)
  {
    hide Hidden, Skipped, Mmap, PageTables.State, PageTables.Roomy, Granted, NewTable;
    ghost var was := host.State();
    cr3 := host.PgTableAlloc();
    var pageStart := PageDown2mb(start);
    SkippedIff(start, size, 0);
    var pageEnd := PageUp2mb(start + size) - 1;
    var i := 0;
    while i < PAGES
      invariant 0 <= i <= PAGES && host.Roomy() && host.State() == MapPages(NewTable(was), cr3, start, size, i)
    {
      var guest := PAGE_2MB * i;
      SkippedIff(start, size, i);
      if Skipped(pageStart, pageEnd, guest) {
        i := i + 1;
        continue;
      }
      host.MmapPml4(cr3, guest, guest, true);
      i := i + 1;
    }
  }

  // ----- when enough pages can be had

  /** While the tables are a tree and enough further pages are in stock, the map grows page by page. */
  lemma {:induction false} MapPagesKeeps(s: Paged, root: nat, start: nat, size: nat, n: nat, pages: seq<nat>)
    returns (tables: Tables)
    requires n <= PAGES && Tree(s.mem, map[[] := root], root) && ENTRIES * (HALF + 1) <= |s.mem|
    requires IdentityMap(s.mem, root, start, size, 0) && root in pages && AllIn(s.lows + [HALF], pages)
    requires Stock(s.lows, map[[] := root], Need(map[[] := root], start, size))
    ensures var s' := MapPages(s, root, start, size, n);
      && |s'.mem| == |s.mem| && Tree(s'.mem, tables, root) && Stock(s'.lows, tables, Need(tables, start, size))
      && IdentityMap(s'.mem, root, start, size, n) && OnlyTables(s.mem, s'.mem, tables)
      && Within(tables, pages) && AllIn(s'.lows + [HALF], pages)
      && LinksAre(s'.mem, tables, 0x7) && LeavesAre(s'.mem, tables, 0x87)
  {
    hide LinksAre, LeavesAre, LeafSet;
    hide Tree, OnlyTables, IdentityMap, Hidden, Remapped, Grown, Missing, Need, Stock, Mmap, Translate, Path;
    if n == 0 {
      tables := map[[] := root];
      OnlySame(s.mem, tables);
      RootFlags(s.mem, root);
    } else {
      var before := MapPagesKeeps(s, root, start, size, n - 1, pages);
      var s1, s' := MapPages(s, root, start, size, n - 1), MapPages(s, root, start, size, n);
      if Hidden(start, size, n - 1) {
        IdentitySkip(s1.mem, root, start, size, n - 1);
        tables := before;
      } else {
        var g := PAGE_2MB * (n - 1);
        NeedLess(before, start, size, n - 1);
        RootOf(s1.mem, before, root, g);
        tables := MmapKeeps(s1, before, root, g, g, PML4, true, Need(before, start, size) - Missing(before, g, 0), pages);
        NeedGrown(before, tables, start, size, n - 1);
        IdentityStep(s1.mem, s'.mem, root, start, size, n - 1);
        LeavesStay(s1.mem, s'.mem, before, tables, g, 0x87);
        OnlyMore(s.mem, s1.mem, s'.mem, before, tables, g);
      }
    }
  }

  lemma RootFlags(mem: seq<nat>, root: nat)
    ensures LinksAre(mem, map[[] := root], 0x7) && LeavesAre(mem, map[[] := root], 0x87)
  {
    hide Low, EntryAt, Present;
  }

  lemma OnlySame(mem: seq<nat>, tables: Tables)
    ensures OnlyTables(mem, mem, tables)
  {
  }

  lemma RootOf(mem: seq<nat>, tables: Tables, root: nat, v: nat)
    requires Tree(mem, tables, root)
    ensures Path(v)[..0] == [] && [] in tables && tables[[]] == root
  {
  }

  lemma OnlyMore(mem0: seq<nat>, mem1: seq<nat>, mem2: seq<nat>, tables: Tables, tables': Tables, v: nat)
    requires OnlyTables(mem0, mem1, tables) && OnlyTables(mem1, mem2, tables') && Grown(tables, tables', v)
    ensures OnlyTables(mem0, mem2, tables')
  {
    hide EntryAt, Path;
    PagesGrow(tables, tables', v);
    forall t: nat, j: nat | j < ENTRIES && t !in tables'.Values
      ensures EntryAt(mem2, t, j) == EntryAt(mem0, t, j)
    {
      assert EntryAt(mem2, t, j) == EntryAt(mem1, t, j);
    }
  }

  /**
   If as many different pages can be granted as the map needs tables, every guest address below 2 GiB is mapped to
   itself, but for the hidden pages, which are not mapped, like everything above; and only granted pages are written.
   */
  lemma CreateWorks(s: Paged, start: nat, size: nat)
    requires LowPages(s.lows) && TablesNeeded(start, size) <= |s.lows| + 1 && ENTRIES * (HALF + 1) <= |s.mem|
    ensures Identity(Create(s, start, size).mem, Granted(s.lows), start, size, 1024)
    ensures forall t: nat, j: nat :: j < ENTRIES && t !in s.lows + [HALF] ==>
      EntryAt(Create(s, start, size).mem, t, j) == EntryAt(s.mem, t, j)
  {
    hide LinksAre, LeavesAre, Trail, Open;
    hide Tree, OnlyTables, Hidden, Stock, Translate, EntryAt, Granted, Later, HalfUsed, Cleared, MapPages, Within, ClearPage;
    var c, pages := Granted(s.lows), s.lows + [HALF];
    var s1, none: Tables, one: Tables := NewTable(s), map[], map[[] := c];
    RootStock(s.lows, Need(none, start, size));
    RootNeed(c, start, size);
    LowPage(c);
    EmptyTree(s.mem, s1.mem, c);
    assert IdentityMap(s1.mem, c, start, size, 0);
    ClearedSize(s.mem, s1.mem, c);
    var tables := MapPagesKeeps(s1, c, start, size, PAGES, pages);
    var s' := Create(s, start, size);
    OpenTrails(s'.mem, tables, c);
    forall t: nat, j: nat | j < ENTRIES && t !in pages
      ensures EntryAt(s'.mem, t, j) == EntryAt(s.mem, t, j)
    {
      ClearedEntry(s.mem, s1.mem, c, t, j);
      NotGranted(s1.mem, s'.mem, tables, pages, t, j);
    }
  }

  lemma OpenTrails(mem: seq<nat>, tables: Tables, root: nat)
    requires Tree(mem, tables, root) && LinksAre(mem, tables, 0x7) && LeavesAre(mem, tables, 0x87)
    ensures forall v: nat :: Translate(mem, root, v).Some? ==> Open(Trail(mem, root, v, PML4))
  {
    hide Tree, LinksAre, LeavesAre, Trail, Translate, Low;
    forall v: nat | Translate(mem, root, v).Some?
      ensures Open(Trail(mem, root, v, PML4))
    {
      TrailFlags(mem, tables, root, v, 0x7, 0x87);
    }
  }

  lemma NotGranted(mem: seq<nat>, mem': seq<nat>, tables: Tables, pages: seq<nat>, t: nat, j: nat)
    requires OnlyTables(mem, mem', tables) && Within(tables, pages) && j < ENTRIES && t !in pages
    ensures EntryAt(mem', t, j) == EntryAt(mem, t, j)
  {
    hide EntryAt;
    assert t !in tables.Values;
  }

  lemma RootStock(lows: seq<nat>, n: nat)
    requires LowPages(lows) && n + 1 <= |lows| + 1
    ensures Granted(lows) <= HALF && Granted(lows) in lows + [HALF] && Stock(Later(lows), map[[] := Granted(lows)], n)
    ensures AllIn(Later(lows) + [HALF], lows + [HALF])
  {
    var none: Tables := map[];
    assert Stock(lows, none, n + 1);
    StockUsed(lows, none, n, []);
    assert none[[] := Granted(lows)] == map[[] := Granted(lows)];
  }

  lemma RootNeed(c: nat, start: nat, size: nat)
    ensures Need(map[[] := c], start, size) == Need(map[], start, size)
  {
    hide HalfUsed;
  }

  /** With the bitmap as naive_memmap_init leaves it no low page is free, however much is free above. */
  lemma NoneAfterInit(tbl: seq<nat>, e820: seq<Entry>, heapStart: nat, pmemEnd: nat, max: nat)
    requires heapStart > 0x810_0000 && |tbl| > 0 && HALF + 1 < max
    requires forall p: nat :: Idx(p) < |tbl| ==> (!Taken(tbl, p) <==> Usable(e820, heapStart, pmemEnd, p))
    ensures FreeFrom(tbl, 0) == []
  {
    hide Taken, FirstFit, FreeFrom, Usable;
    OnePageAfterInit(tbl, e820, heapStart, pmemEnd, max);
    NoneFree(tbl, 0);
  }

  lemma {:induction false} NoneFree(tbl: seq<nat>, n: nat)
    requires 0 < |tbl| && forall p: nat :: p < HALF ==> Taken(tbl, p)
    ensures FreeFrom(tbl, n) == []
    decreases HALF - n
  {
    hide Taken;
    if n < HALF {
      NoneFree(tbl, n + 1);
    }
  }

  /** The first table is then page 32, and so is the second: whatever memory holds, that is no tree. */
  lemma SecondTableIsFirst(tbl: seq<nat>, tbl': seq<nat>, root: nat, i: nat, max: nat, mem: seq<nat>)
    requires HALF + 1 < max && 0 < |tbl| && forall p: nat :: p < HALF ==> Taken(tbl, p)
    requires FirstFit(tbl, 1, 1, max, 0) == Some(root) && PageMarked(tbl, tbl', root)
    ensures FirstFit(tbl', 1, 1, max, 0) == Some(root) && !Tree(mem, map[[] := root, [i] := root], root)
  {
    hide Taken, FirstFit, Marked, Tree;
    Page32(tbl, max);
    var one: Tables := map[[] := root];
    assert one[[i] := root] == map[[] := root, [i] := root];
    assert one[[]] == root;
    TwiceInTree(mem, one, root, [i], root);
  }
}
