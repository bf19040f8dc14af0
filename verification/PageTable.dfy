/**
 The nested page tables of page.c:17-45, 62-71, 125-197: __mmap_2mb writes them and
 __linear2physical_legacy2mb reads them. A table is a page of 512 entries; table addresses are page numbers here.
 */
module PageTable {
  import opened Bits
  import opened Bytes
  import opened Bitmap
  import opened HostAlloc
  import opened AllocRuns
  import opened Entries
  import opened Wrappers

  const ENTRIES: nat := 512
  const PML4: nat := 4
  const PD: nat := 2

  // ----- reading

  /** get_index_pae2mb */
  function Index(v: nat, level: nat): (i: nat)
    requires PD <= level <= PML4
    ensures i < ENTRIES
  {
    var shift := if level == 4 then 39 else if level == 3 then 30 else 21;
    NineBits(v, shift);
    Field(v, shift, 9)
  }

  lemma NineBits(v: nat, shift: nat)
    ensures Field(v, shift, 9) < ENTRIES
  {
    hide Field;
    FieldBound(v, shift, 9);
    assert Pow2(9) == ENTRIES;
  }

  /** The word at index `i` of the table in page `t`; memory ends somewhere. */
  function EntryAt(mem: seq<nat>, t: nat, i: nat): nat {
    if ENTRIES * t + i < |mem| then mem[ENTRIES * t + i] else 0
  }

  /** __linear2physical_legacy2mb; None stands for fatal_failure. */
  function Walk(mem: seq<nat>, t: nat, v: nat, level: nat): Option<nat>
    requires PD <= level <= PML4
    decreases level
  {
    var e := EntryAt(mem, t, Index(v, level));
    if !Present(e) then None
    else if level == PD then (if LargePage(e) then Some(Address(e, v)) else None)
    else Walk(mem, Child(e), v, level - 1)
  }

  function Translate(mem: seq<nat>, root: nat, v: nat): Option<nat> {
    Walk(mem, root, v, PML4)
  }

  // ----- the tree

  /** The indices that lead to the entry for `v`. */
  function Path(v: nat): (s: seq<nat>)
    ensures |s| == 3
  {
    [Index(v, 4), Index(v, 3), Index(v, 2)]
  }

  predicate SamePage(v: nat, v': nat) {
    Path(v) == Path(v')
  }

  /** Where each table is: by the indices that lead to it from the root. */
  type Tables = map<seq<nat>, nat>

  /** Distinct pages inside memory; an entry above the last level is present exactly when there is a table behind it. */
  ghost predicate Tree(mem: seq<nat>, tables: Tables, root: nat) {
    && [] in tables && tables[[]] == root
    && (forall k :: k in tables ==> |k| <= 2 && ENTRIES * tables[k] + ENTRIES <= |mem| && tables[k] < Pow2(28))
    && (forall k, k' :: k in tables && k' in tables && tables[k] == tables[k'] ==> k == k')
    && (forall k :: k in tables && |k| > 0 ==> k[..|k| - 1] in tables)
    && (forall k, i: nat {:trigger EntryAt(mem, tables[k], i)} :: k in tables && |k| < 2 && i < ENTRIES ==>
          (Present(EntryAt(mem, tables[k], i)) <==> k + [i] in tables)
          && (k + [i] in tables ==> tables[k + [i]] == Child(EntryAt(mem, tables[k], i))))
  }

  /** One entry is written. */
  ghost predicate Wrote(mem: seq<nat>, mem': seq<nat>, t: nat, i: nat, e: nat) {
    && ENTRIES * t + i < |mem| && mem' == mem[ENTRIES * t + i := e]
  }

  /** Page `c` is cleared. */
  ghost predicate Cleared(mem: seq<nat>, mem': seq<nat>, c: nat) {
    && |mem'| == |mem|
    && forall a: nat :: a < |mem| ==> mem'[a] == if ENTRIES * c <= a < ENTRIES * c + ENTRIES then 0 else mem[a]
  }

  lemma ClearedEntry(mem: seq<nat>, mem': seq<nat>, c: nat, t: nat, i: nat)
    requires Cleared(mem, mem', c) && i < ENTRIES
    ensures EntryAt(mem', t, i) == if t == c then 0 else EntryAt(mem, t, i)
  {
  }

  lemma WroteEntry(mem: seq<nat>, mem': seq<nat>, t: nat, i: nat, e: nat, t': nat, i': nat)
    requires Wrote(mem, mem', t, i, e) && i < ENTRIES && i' < ENTRIES
    ensures EntryAt(mem', t', i') == if t' == t && i' == i then e else EntryAt(mem, t', i')
  {
  }

  /** A cleared page that no table is in may be linked behind an absent entry. */
  ghost predicate Linked(mem: seq<nat>, mem': seq<nat>, tables: Tables, k: seq<nat>, i: nat, c: nat) {
    && |mem'| == |mem| && k in tables && |k| < 2 && i < ENTRIES && k + [i] !in tables
    && c !in tables.Values && ENTRIES * c + ENTRIES <= |mem| && c < Pow2(28)
    && (forall t: nat, j: nat :: j < ENTRIES && t != c && !(t == tables[k] && j == i) ==>
          EntryAt(mem', t, j) == EntryAt(mem, t, j))
    && (forall j: nat :: j < ENTRIES ==> EntryAt(mem', c, j) == 0)
    && Present(EntryAt(mem', tables[k], i)) && Child(EntryAt(mem', tables[k], i)) == c
  }

  lemma LinkedTree(mem: seq<nat>, mem': seq<nat>, tables: Tables, root: nat, k: seq<nat>, i: nat, c: nat)
    requires Tree(mem, tables, root) && Linked(mem, mem', tables, k, i, c)
    ensures Tree(mem', tables[k + [i] := c], root)
  {
    hide EntryAt, Present, Child, Pow2;
    var more := tables[k + [i] := c];
    ZeroEntry();
    forall k1, k2 | k1 in more && k2 in more && more[k1] == more[k2]
      ensures k1 == k2
    {
      if k1 in tables && k2 in tables {
        assert tables[k1] == tables[k2];
      }
    }
    forall k1 | k1 in more && |k1| > 0
      ensures k1[..|k1| - 1] in more
    {
      if k1 == k + [i] {
        assert k1[..|k1| - 1] == k;
      }
    }
    forall k1, j: nat | k1 in more && |k1| < 2 && j < ENTRIES
      ensures Present(EntryAt(mem', more[k1], j)) <==> k1 + [j] in more
      ensures k1 + [j] in more ==> more[k1 + [j]] == Child(EntryAt(mem', more[k1], j))
    {
      LinkedEntry(mem, mem', tables, root, k, i, c, k1, j);
    }
  }

  /** No table hangs below one that is not there. */
  lemma NothingBehind(mem: seq<nat>, tables: Tables, root: nat, k: seq<nat>, j: nat)
    requires Tree(mem, tables, root) && k !in tables
    ensures k + [j] !in tables
  {
    hide EntryAt, Present, Child, Pow2;
    assert (k + [j])[..|k + [j]| - 1] == k;
  }

  lemma LinkedEntry(mem: seq<nat>, mem': seq<nat>, tables: Tables, root: nat, k: seq<nat>, i: nat, c: nat, k1: seq<nat>, j: nat)
    requires Tree(mem, tables, root) && Linked(mem, mem', tables, k, i, c)
    requires var more := tables[k + [i] := c]; k1 in more && |k1| < 2 && j < ENTRIES
    ensures var more := tables[k + [i] := c];
      && (Present(EntryAt(mem', more[k1], j)) <==> k1 + [j] in more)
      && (k1 + [j] in more ==> more[k1 + [j]] == Child(EntryAt(mem', more[k1], j)))
  {
    hide EntryAt, Present, Child, Pow2;
    var more := tables[k + [i] := c];
    ZeroEntry();
    SplitLast(k1, j, k, i);
    if k1 == k + [i] {
      NothingBehind(mem, tables, root, k1, j);
      assert k1 + [j] !in more;
    } else if k1 == k && j == i {
    } else {
      assert tables[k1] != c;
      assert EntryAt(mem', tables[k1], j) == EntryAt(mem, tables[k1], j);
      assert k1 + [j] in more <==> k1 + [j] in tables;
    }
  }

  lemma SplitLast(k1: seq<nat>, j: nat, k: seq<nat>, i: nat)
    ensures k1 + [j] == k + [i] <==> k1 == k && j == i
  {
    if k1 + [j] == k + [i] {
      assert (k1 + [j])[..|k1|] == k1 && (k + [i])[..|k|] == k;
      assert |k1| == |k|;
      assert (k1 + [j])[|k1|] == j && (k + [i])[|k|] == i;
    }
  }

  /** An empty table behind an entry that was absent changes no translation. */
  lemma {:induction false} LinkedWalk(mem: seq<nat>, mem': seq<nat>, tables: Tables, root: nat, k: seq<nat>, i: nat, c: nat,
                                      k1: seq<nat>, v: nat)
    requires Tree(mem, tables, root) && Linked(mem, mem', tables, k, i, c) && k1 in tables
    ensures |k1| <= 2 && Walk(mem', tables[k1], v, 4 - |k1|) == Walk(mem, tables[k1], v, 4 - |k1|)
    decreases 4 - |k1|
  {
    hide EntryAt, Present, Child, Pow2, Index, LargePage, Address, Tree, Linked;
    Depth(mem, tables, root, k1);
    var level := 4 - |k1|;
    var j := Index(v, level);
    LinkedStep(mem, mem', tables, root, k, i, c, k1, j);
    if k1 == k && j == i {
      EmptyWalk(mem', c, v, level - 1);
    } else if level > PD && Present(EntryAt(mem, tables[k1], j)) {
      LinkedWalk(mem, mem', tables, root, k, i, c, k1 + [j], v);
    }
  }

  lemma Depth(mem: seq<nat>, tables: Tables, root: nat, k: seq<nat>)
    requires Tree(mem, tables, root) && k in tables
    ensures |k| <= 2
  {
    hide EntryAt, Present, Child, Pow2;
  }

  lemma EmptyWalk(mem: seq<nat>, c: nat, v: nat, level: nat)
    requires PD <= level <= PML4 && forall j: nat :: j < ENTRIES ==> EntryAt(mem, c, j) == 0
    ensures Walk(mem, c, v, level) == None
  {
    hide EntryAt, Present, Child, Index, LargePage, Address;
    ZeroEntry();
  }

  /** What one table shows of the link. */
  lemma LinkedStep(mem: seq<nat>, mem': seq<nat>, tables: Tables, root: nat, k: seq<nat>, i: nat, c: nat, k1: seq<nat>, j: nat)
    requires Tree(mem, tables, root) && Linked(mem, mem', tables, k, i, c) && k1 in tables && j < ENTRIES
    ensures k1 == k && j == i ==>
      && |k1| < 2 && !Present(EntryAt(mem, tables[k1], j)) && Present(EntryAt(mem', tables[k1], j))
      && Child(EntryAt(mem', tables[k1], j)) == c && forall j': nat :: j' < ENTRIES ==> EntryAt(mem', c, j') == 0
    ensures !(k1 == k && j == i) ==>
      && EntryAt(mem', tables[k1], j) == EntryAt(mem, tables[k1], j)
      && (|k1| < 2 && Present(EntryAt(mem, tables[k1], j)) ==>
            k1 + [j] in tables && tables[k1 + [j]] == Child(EntryAt(mem, tables[k1], j)))
  {
    hide EntryAt, Present, Child, Pow2;
    assert tables[k1] != c;
    assert tables[k1] == tables[k] ==> k1 == k;
  }

  /** An entry of the last level is written. */
  lemma WroteTree(mem: seq<nat>, mem': seq<nat>, tables: Tables, root: nat, k: seq<nat>, i: nat, e: nat)
    requires Tree(mem, tables, root) && k in tables && |k| == 2 && i < ENTRIES && Wrote(mem, mem', tables[k], i, e)
    ensures Tree(mem', tables, root)
  {
    hide EntryAt, Present, Child, Pow2, Wrote;
    WroteSize(mem, mem', tables[k], i, e);
    forall k1, j: nat | k1 in tables && |k1| < 2 && j < ENTRIES
      ensures EntryAt(mem', tables[k1], j) == EntryAt(mem, tables[k1], j)
    {
      WroteEntry(mem, mem', tables[k], i, e, tables[k1], j);
    }
  }

  lemma WroteSize(mem: seq<nat>, mem': seq<nat>, t: nat, i: nat, e: nat)
    requires Wrote(mem, mem', t, i, e)
    ensures |mem'| == |mem|
  {
  }

  /** What the tree says of one entry above the last level. */
  lemma TreeStep(mem: seq<nat>, tables: Tables, root: nat, k: seq<nat>, j: nat)
    requires Tree(mem, tables, root) && k in tables && |k| < 2 && j < ENTRIES
    ensures Present(EntryAt(mem, tables[k], j)) <==> k + [j] in tables
    ensures k + [j] in tables ==> tables[k + [j]] == Child(EntryAt(mem, tables[k], j))
  {
    hide EntryAt, Present, Child, Pow2;
  }

  lemma OnePlace(mem: seq<nat>, tables: Tables, root: nat, k: seq<nat>, k': seq<nat>)
    requires Tree(mem, tables, root) && k in tables && k' in tables
    ensures tables[k] == tables[k'] ==> k == k'
  {
    hide EntryAt, Present, Child, Pow2;
  }

  /** Only the page on that path is translated differently. */
  lemma {:induction false} WroteWalk(mem: seq<nat>, mem': seq<nat>, tables: Tables, root: nat, v: nat, e: nat,
                                     k1: seq<nat>, v': nat)
    requires Tree(mem, tables, root) && Path(v)[..2] in tables
    requires Wrote(mem, mem', tables[Path(v)[..2]], Index(v, PD), e) && Present(e) && LargePage(e)
    requires k1 in tables && |k1| <= 2 && k1 == Path(v')[..|k1|]
    ensures Walk(mem', tables[k1], v', 4 - |k1|)
         == if SamePage(v, v') then Some(Address(e, v')) else Walk(mem, tables[k1], v', 4 - |k1|)
    decreases 4 - |k1|
  {
    hide EntryAt, Present, Child, Pow2, Index, LargePage, Address, Wrote, Tree, SamePage;
    var level, k := 4 - |k1|, Path(v)[..2];
    var j := Index(v', level);
    WroteEntry(mem, mem', tables[k], Index(v, PD), e, tables[k1], j);
    OnePlace(mem, tables, root, k1, k);
    SamePath(v, v');
    assert Path(v')[|k1|] == j;
    if |k1| < 2 {
      assert k1 + [j] == Path(v')[..|k1| + 1];
      assert EntryAt(mem', tables[k1], j) == EntryAt(mem, tables[k1], j);
      TreeStep(mem, tables, root, k1, j);
      if k1 + [j] in tables {
        WroteWalk(mem, mem', tables, root, v, e, k1 + [j], v');
      } else if SamePage(v, v') {
        SameWay(v, v', |k1| + 1);
        PathIn(tables, mem, root, v, |k1| + 1);
      }
    }
  }

  lemma SameWay(v: nat, v': nat, n: nat)
    requires SamePage(v, v') && n <= 2
    ensures Path(v)[..n] == Path(v')[..n]
  {
  }

  lemma SamePath(v: nat, v': nat)
    ensures SamePage(v, v') <==> Path(v)[..2] == Path(v')[..2] && Index(v, PD) == Index(v', PD)
  {
    hide Index;
    assert Path(v) == Path(v)[..2] + [Index(v, PD)];
    assert Path(v') == Path(v')[..2] + [Index(v', PD)];
  }

  lemma PathIn(tables: Tables, mem: seq<nat>, root: nat, v: nat, n: nat)
    requires Tree(mem, tables, root) && Path(v)[..2] in tables && n <= 2
    ensures Path(v)[..n] in tables
  {
    hide Index, EntryAt, Present, Child;
    if n < 2 {
      assert Path(v)[..2][..1] == Path(v)[..1];
      assert Path(v)[..1][..0] == Path(v)[..0] == [];
    }
  }

  // ----- flags

  /** The entries on the way to `v`, up to one that is not present. */
  function Trail(mem: seq<nat>, t: nat, v: nat, level: nat): seq<nat>
    requires PD <= level <= PML4
    decreases level
  {
    var e := EntryAt(mem, t, Index(v, level));
    if level == PD || !Present(e) then [e] else [e] + Trail(mem, Child(e), v, level - 1)
  }

  /** Every entry above the last level that leads to a table of the tree has these low twelve bits. */
  ghost predicate LinksAre(mem: seq<nat>, tables: Tables, flags: nat) {
    forall k, i: nat {:trigger EntryAt(mem, tables[k], i)} ::
      k in tables && |k| < 2 && i < ENTRIES && k + [i] in tables ==> Low(EntryAt(mem, tables[k], i), 12) == flags
  }

  /** Every entry of the last level that is present has these low 21 bits. */
  ghost predicate LeavesAre(mem: seq<nat>, tables: Tables, flags: nat) {
    forall k, i: nat {:trigger EntryAt(mem, tables[k], i)} ::
      k in tables && |k| == 2 && i < ENTRIES && Present(EntryAt(mem, tables[k], i)) ==>
        Low(EntryAt(mem, tables[k], i), 21) == flags
  }

  /** The entries of the last level are as they were, and those of new tables are zero. */
  ghost predicate LeavesKept(mem: seq<nat>, mem': seq<nat>, tables: Tables, tables': Tables) {
    forall k, i: nat {:trigger EntryAt(mem', tables'[k], i)} :: k in tables' && |k| == 2 && i < ENTRIES ==>
      EntryAt(mem', tables'[k], i) == if k in tables then EntryAt(mem, tables[k], i) else 0
  }

  /** ... but for that of `v`, which is present and has these low 21 bits. */
  ghost predicate LeafSet(mem: seq<nat>, mem': seq<nat>, tables: Tables, tables': Tables, v: nat, flags: nat) {
    forall k, i: nat {:trigger EntryAt(mem', tables'[k], i)} :: k in tables' && |k| == 2 && i < ENTRIES ==>
      if k + [i] == Path(v) then Low(EntryAt(mem', tables'[k], i), 21) == flags
      else EntryAt(mem', tables'[k], i) == if k in tables then EntryAt(mem, tables[k], i) else 0
  }

  lemma LinkedFlags(mem: seq<nat>, mem': seq<nat>, tables: Tables, root: nat, k: seq<nat>, i: nat, c: nat, flags: nat)
    requires Tree(mem, tables, root) && Linked(mem, mem', tables, k, i, c)
    requires LinksAre(mem, tables, flags) && Low(EntryAt(mem', tables[k], i), 12) == flags
    ensures LinksAre(mem', tables[k + [i] := c], flags)
  {
    hide EntryAt, Present, Child, Pow2, Low;
    var more := tables[k + [i] := c];
    forall k1, j: nat | k1 in more && |k1| < 2 && j < ENTRIES && k1 + [j] in more
      ensures Low(EntryAt(mem', more[k1], j), 12) == flags
    {
      SplitLast(k1, j, k, i);
      if k1 == k + [i] {
        NothingBehind(mem, tables, root, k1, j);
      } else if !(k1 == k && j == i) {
        assert tables[k1] != c && (tables[k1] == tables[k] ==> k1 == k);
        assert EntryAt(mem', tables[k1], j) == EntryAt(mem, tables[k1], j);
      }
    }
  }

  lemma LinkedLeaves(mem: seq<nat>, mem': seq<nat>, tables: Tables, root: nat, k: seq<nat>, i: nat, c: nat)
    requires Tree(mem, tables, root) && Linked(mem, mem', tables, k, i, c)
    ensures LeavesKept(mem, mem', tables, tables[k + [i] := c])
  {
    hide EntryAt, Present, Child, Pow2;
    var more := tables[k + [i] := c];
    forall k1, j: nat | k1 in more && |k1| == 2 && j < ENTRIES
      ensures EntryAt(mem', more[k1], j) == if k1 in tables then EntryAt(mem, tables[k1], j) else 0
    {
      if k1 in tables {
        assert tables[k1] != c && tables[k1] != tables[k];
      }
    }
  }

  lemma WroteFlags(mem: seq<nat>, mem': seq<nat>, tables: Tables, root: nat, v: nat, e: nat)
    requires Tree(mem, tables, root) && Path(v)[..2] in tables
    requires Wrote(mem, mem', tables[Path(v)[..2]], Index(v, PD), e)
    ensures forall flags: nat :: LinksAre(mem, tables, flags) ==> LinksAre(mem', tables, flags)
    ensures LeafSet(mem, mem', tables, tables, v, Low(e, 21))
  {
    hide EntryAt, Present, Child, Pow2, Low, Index, Wrote;
    var k, i := Path(v)[..2], Index(v, PD);
    forall k1, j: nat | k1 in tables && |k1| <= 2 && j < ENTRIES
      ensures EntryAt(mem', tables[k1], j) == if k1 == k && j == i then e else EntryAt(mem, tables[k1], j)
    {
      WroteEntry(mem, mem', tables[k], i, e, tables[k1], j);
    }
    assert Path(v) == k + [i];
    forall k1, j: nat | k1 in tables && |k1| == 2 && j < ENTRIES
      ensures k1 + [j] == Path(v) <==> k1 == k && j == i
    {
      SplitLast(k1, j, k, i);
    }
  }

  /** First kept, then set. */
  lemma KeptThenSet(mem0: seq<nat>, mem1: seq<nat>, mem2: seq<nat>, tables0: Tables, tables1: Tables, tables2: Tables,
                    v: nat, flags: nat)
    requires LeavesKept(mem0, mem1, tables0, tables1) && LeafSet(mem1, mem2, tables1, tables2, v, flags)
    requires forall k :: k in tables0 ==> k in tables1
    ensures LeafSet(mem0, mem2, tables0, tables2, v, flags)
  {
    hide EntryAt, Present, Low, Path;
    forall k, i: nat | k in tables2 && |k| == 2 && i < ENTRIES && k + [i] != Path(v)
      ensures EntryAt(mem2, tables2[k], i) == if k in tables0 then EntryAt(mem0, tables0[k], i) else 0
    {
      if k in tables1 {
        assert EntryAt(mem2, tables2[k], i) == EntryAt(mem1, tables1[k], i);
      }
    }
  }

  lemma AllKept(mem: seq<nat>, tables: Tables)
    ensures LeavesKept(mem, mem, tables, tables)
  {
  }

  /** Setting one leaf so keeps all of them so. */
  lemma LeavesStay(mem: seq<nat>, mem': seq<nat>, tables: Tables, tables': Tables, v: nat, flags: nat)
    requires LeavesAre(mem, tables, flags) && LeafSet(mem, mem', tables, tables', v, flags)
    ensures LeavesAre(mem', tables', flags)
  {
    hide EntryAt, Present, Low, Path;
    ZeroEntry();
    forall k, i: nat | k in tables' && |k| == 2 && i < ENTRIES && Present(EntryAt(mem', tables'[k], i))
      ensures Low(EntryAt(mem', tables'[k], i), 21) == flags
    {
      if k + [i] != Path(v) && k in tables {
        assert EntryAt(mem', tables'[k], i) == EntryAt(mem, tables[k], i);
      }
    }
  }

  /** A page that is translated is reached through three entries, and these are their flags. */
  lemma TrailFlags(mem: seq<nat>, tables: Tables, root: nat, v: nat, links: nat, leaves: nat)
    requires Tree(mem, tables, root) && LinksAre(mem, tables, links) && LeavesAre(mem, tables, leaves)
    requires Translate(mem, root, v).Some?
    ensures var t := Trail(mem, root, v, PML4);
      |t| == 3 && Low(t[0], 12) == links && Low(t[1], 12) == links && Low(t[2], 21) == leaves
  {
    hide EntryAt, Present, Child, Pow2, Low, Index, LargePage, Address;
    var i4, i3, i2 := Index(v, 4), Index(v, 3), Index(v, 2);
    var e4 := EntryAt(mem, tables[[]], i4);
    assert Present(e4) && [] + [i4] == [i4] && [i4] in tables && tables[[i4]] == Child(e4);
    assert [i4] + [i3] == [i4, i3];
    var e3 := EntryAt(mem, tables[[i4]], i3);
    assert Walk(mem, Child(e4), v, 3).Some?;
    assert Present(e3) && [i4, i3] in tables && tables[[i4, i3]] == Child(e3);
    var e2 := EntryAt(mem, tables[[i4, i3]], i2);
    assert Walk(mem, Child(e3), v, 2).Some?;
    assert Present(e2);
    assert Trail(mem, Child(e3), v, 2) == [e2];
    assert Trail(mem, Child(e4), v, 3) == [e3, e2];
  }

  // ----- which pages are which

  /** Below 2^48 a path is a 2 MiB page. */
  lemma SamePageIff(v: nat, v': nat)
    requires v < Pow2(48) && v' < Pow2(48)
    ensures SamePage(v, v') <==> Shr(v, 21) == Shr(v', 21)
  {
    hide Low, Shr, Shl, Pow2;
    PathDigits(v);
    PathDigits(v');
  }

  lemma PathDigits(v: nat)
    requires v < Pow2(48)
    ensures Shr(v, 21) == Index(v, 2) + Shl(Index(v, 3) + Shl(Index(v, 4), 9), 9)
    ensures Index(v, 2) == Field(Shr(v, 21), 0, 9) && Index(v, 3) == Field(Shr(v, 21), 9, 9)
    ensures Index(v, 4) == Field(Shr(v, 21), 18, 9)
  {
    hide Low, Shr, Shl, Pow2;
    var n := Shr(v, 21);
    ShrShr(v, 21, 9);
    ShrShr(v, 21, 18);
    NoBits(n);
    ShrBound(v, 21, 27);
    SmallLow(n, 27);
    LowSplit(n, 9, 18);
    LowSplit(Shr(n, 9), 9, 9);
    ShrShr(n, 9, 9);
  }

  /** Clearing a page that no table is in, and then writing the entry, links it. */
  lemma LinkDone(mem0: seq<nat>, mem1: seq<nat>, mem2: seq<nat>, tables: Tables, root: nat, k: seq<nat>, i: nat, c: nat)
    requires Tree(mem0, tables, root) && k in tables && |k| < 2 && i < ENTRIES && k + [i] !in tables
    requires c !in tables.Values && ENTRIES * c + ENTRIES <= |mem0| && c < Pow2(28) && Cleared(mem0, mem1, c)
    requires Wrote(mem1, mem2, tables[k], i, TableEntry(EntryAt(mem1, tables[k], i), c))
    ensures Linked(mem0, mem2, tables, k, i, c) && Tree(mem2, tables[k + [i] := c], root)
    ensures forall v: nat :: Translate(mem2, root, v) == Translate(mem0, root, v)
  {
    hide Present, Child, Pow2, Walk, TableEntry, EntryAt, Cleared, Wrote;
    var e := TableEntry(EntryAt(mem1, tables[k], i), c);
    TableEntryReads(EntryAt(mem1, tables[k], i), c);
    SameSizes(mem0, mem1, mem2, c, tables[k], i, e);
    assert tables[k] != c;
    forall t: nat, j: nat | j < ENTRIES
      ensures EntryAt(mem2, t, j) == if t == tables[k] && j == i then e else if t == c then 0 else EntryAt(mem0, t, j)
    {
      ClearedEntry(mem0, mem1, c, t, j);
      WroteEntry(mem1, mem2, tables[k], i, e, t, j);
    }
    LinkedTree(mem0, mem2, tables, root, k, i, c);
    forall v: nat
      ensures Translate(mem2, root, v) == Translate(mem0, root, v)
    {
      LinkedWalk(mem0, mem2, tables, root, k, i, c, [], v);
    }
  }

  /** The tables are a tree of distinct pages afterwards exactly when the page granted was not a table already. */
  lemma LinkTreeIff(mem0: seq<nat>, mem1: seq<nat>, mem2: seq<nat>, tables: Tables, root: nat, k: seq<nat>, i: nat, c: nat)
    requires Tree(mem0, tables, root) && k in tables && |k| < 2 && i < ENTRIES && k + [i] !in tables
    requires ENTRIES * c + ENTRIES <= |mem0| && c < Pow2(28) && Cleared(mem0, mem1, c)
    requires Wrote(mem1, mem2, tables[k], i, TableEntry(EntryAt(mem1, tables[k], i), c))
    ensures Tree(mem2, tables[k + [i] := c], root) <==> c !in tables.Values
  {
    hide Present, Child, Pow2, Walk, TableEntry, EntryAt, Cleared, Wrote, Tree;
    if c in tables.Values {
      TwiceInTree(mem2, tables, root, k + [i], c);
    } else {
      LinkDone(mem0, mem1, mem2, tables, root, k, i, c);
    }
  }

  /** A page cannot be a table in two places. */
  lemma TwiceInTree(mem: seq<nat>, tables: Tables, root: nat, key: seq<nat>, c: nat)
    requires key !in tables && c in tables.Values
    ensures !Tree(mem, tables[key := c], root)
  {
    hide Present, Child, Pow2, EntryAt;
    var k :| k in tables && tables[k] == c;
    var more := tables[key := c];
    assert more[k] == more[key] && k != key;
  }

  lemma SameSizes(mem0: seq<nat>, mem1: seq<nat>, mem2: seq<nat>, c: nat, t: nat, i: nat, e: nat)
    requires Cleared(mem0, mem1, c) && Wrote(mem1, mem2, t, i, e)
    ensures |mem2| == |mem0|
  {
  }

  /** Pages that are no tables have kept what they held. */
  ghost predicate OnlyTables(mem: seq<nat>, mem': seq<nat>, tables: Tables) {
    forall t: nat, j: nat :: j < ENTRIES && t !in tables.Values ==> EntryAt(mem', t, j) == EntryAt(mem, t, j)
  }

  lemma PageInMemory(mem: seq<nat>, tables: Tables, root: nat, k: seq<nat>)
    requires Tree(mem, tables, root) && k in tables
    ensures ENTRIES * tables[k] + ENTRIES <= |mem|
  {
  }

  lemma LinkedElsewhere(mem: seq<nat>, mem': seq<nat>, tables: Tables, k: seq<nat>, i: nat, c: nat)
    requires Linked(mem, mem', tables, k, i, c)
    ensures OnlyTables(mem, mem', tables[k + [i] := c])
  {
    hide EntryAt, Present, Child, Pow2;
    var more := tables[k + [i] := c];
    assert more[k + [i]] == c;
    assert more[k] == tables[k] by {
      SplitLast(k, 0, k, i);
      assert k != k + [i];
    }
  }

  /** How many tables on the way to `v` are missing, `n` of the indices being used. */
  function Missing(tables: Tables, v: nat, n: nat): nat
    requires n <= 2
    decreases 2 - n
  {
    if n == 2 then 0 else (if Path(v)[..n + 1] in tables then 0 else 1) + Missing(tables, v, n + 1)
  }

  /** The tables after `v` has been mapped. */
  ghost predicate Grown(tables: Tables, tables': Tables, v: nat) {
    && (forall k :: k in tables' <==> k in tables || (|k| <= 2 && k == Path(v)[..|k|]))
    && (forall k :: k in tables ==> tables'[k] == tables[k])
  }

  /** Every translation is as before but that of the page of `v`, which is now as for a page mapped to `p`. */
  ghost predicate Remapped(mem: seq<nat>, mem': seq<nat>, root: nat, v: nat, p: nat) {
    forall v': nat :: Translate(mem', root, v') == if SamePage(v, v') then Some(Mapped(p, v')) else Translate(mem, root, v')
  }

  /** The entry of the last level: one page changes. */
  lemma FinalWrite(mem: seq<nat>, mem': seq<nat>, tables: Tables, root: nat, v: nat, p: nat, user: bool)
    requires Tree(mem, tables, root) && Path(v)[..2] in tables
    requires Wrote(mem, mem', tables[Path(v)[..2]], Index(v, PD),
                   PageEntry(EntryAt(mem, tables[Path(v)[..2]], Index(v, PD)), p, user))
    ensures Tree(mem', tables, root) && Remapped(mem, mem', root, v, p) && OnlyTables(mem, mem', tables)
    ensures Grown(tables, tables, v) && (LinksAre(mem, tables, 0x7) ==> LinksAre(mem', tables, 0x7))
    ensures LeafSet(mem, mem', tables, tables, v, if user then 0x87 else 0x83)
  {
    hide EntryAt, Present, Child, Pow2, Index, LargePage, PageEntry, Wrote, Mapped, Walk, Low, LinksAre, LeafSet;
    var k, i := Path(v)[..2], Index(v, PD);
    var raw := EntryAt(mem, tables[k], i);
    var e := PageEntry(raw, p, user);
    PageEntryReads(raw, p, user);
    WroteTree(mem, mem', tables, root, k, i, e);
    WroteFlags(mem, mem', tables, root, v, e);
    forall v': nat
      ensures Translate(mem', root, v') == if SamePage(v, v') then Some(Mapped(p, v')) else Translate(mem, root, v')
    {
      AddressOfPage(raw, p, user, v');
      WroteWalk(mem, mem', tables, root, v, e, [], v');
    }
    forall t: nat, j: nat | j < ENTRIES && t !in tables.Values
      ensures EntryAt(mem', t, j) == EntryAt(mem, t, j)
    {
      WroteEntry(mem, mem', tables[k], i, e, t, j);
    }
    forall n: nat | n <= 2
      ensures Path(v)[..n] in tables
    {
      PathIn(tables, mem, root, v, n);
    }
  }

  /** One level down the path. */
  lemma OneDown(mem: seq<nat>, tables: Tables, root: nat, v: nat, level: nat)
    requires PD < level <= PML4 && Tree(mem, tables, root) && Path(v)[..PML4 - level] in tables
    ensures var k, i := Path(v)[..PML4 - level], Index(v, level);
      && Path(v)[..PML4 - level + 1] == k + [i] && |k| < 2
      && (Present(EntryAt(mem, tables[k], i)) <==> k + [i] in tables)
      && (k + [i] in tables ==> tables[k + [i]] == Child(EntryAt(mem, tables[k], i)))
      && Missing(tables, v, PML4 - level)
         == (if k + [i] in tables then 0 else 1) + Missing(tables, v, PML4 - level + 1)
  {
    hide EntryAt, Present, Child, Index;
    assert Path(v)[PML4 - level] == Index(v, level);
  }

  lemma NoneMissing(tables: Tables, v: nat)
    ensures Missing(tables, v, 2) == 0
  {
  }

  lemma StillMissing(tables: Tables, tables': Tables, v: nat, n: nat, c: nat)
    requires n < 2 && tables' == tables[Path(v)[..n + 1] := c]
    ensures Missing(tables', v, n + 1) == Missing(tables, v, n + 1)
  {
    hide Index;
    if n == 0 {
      assert Path(v)[..2] != Path(v)[..1];
    }
  }

  lemma PagesGrow(tables: Tables, tables': Tables, v: nat)
    requires Grown(tables, tables', v)
    ensures forall t :: t in tables.Values ==> t in tables'.Values
  {
    hide Path;
    forall t | t in tables.Values
      ensures t in tables'.Values
    {
      var k :| k in tables && tables[k] == t;
      assert tables'[k] == t;
    }
  }

  /** The steps of one level taken together. */
  lemma Together(mem0: seq<nat>, mem1: seq<nat>, mem2: seq<nat>, tables0: Tables, tables1: Tables, tables2: Tables,
                 root: nat, v: nat, p: nat, level: nat)
    requires PD < level <= PML4 && Grown(tables1, tables2, v)
    requires tables1 == tables0 || (var k := Path(v)[..PML4 - level + 1];
      k !in tables0 && k in tables1 && tables1 == tables0[k := tables1[k]])
    requires mem1 == mem0 || (OnlyTables(mem0, mem1, tables1)
      && forall v': nat :: Translate(mem1, root, v') == Translate(mem0, root, v'))
    requires OnlyTables(mem1, mem2, tables2) && Remapped(mem1, mem2, root, v, p)
    ensures Grown(tables0, tables2, v) && OnlyTables(mem0, mem2, tables2) && Remapped(mem0, mem2, root, v, p)
  {
    hide EntryAt, Translate, Index, Mapped;
    PagesGrow(tables1, tables2, v);
    forall t: nat, j: nat | j < ENTRIES && t !in tables2.Values
      ensures EntryAt(mem2, t, j) == EntryAt(mem0, t, j)
    {
      assert EntryAt(mem2, t, j) == EntryAt(mem1, t, j);
    }
  }

  // ----- the steps of page.c on memory and on the pages that can be had

  /** Memory, and the free pages among the first 32, in order: from these the tables are made. */
  datatype Paged = Paged(mem: seq<nat>, lows: seq<nat>)

  function ClearPage(mem: seq<nat>, c: nat): (mem': seq<nat>)
    ensures Cleared(mem, mem', c)
  {
    seq(|mem|, a requires 0 <= a < |mem| => if ENTRIES * c <= a < ENTRIES * c + ENTRIES then 0 else mem[a])
  }

  /** A write past the end of memory is lost. */
  function Put(mem: seq<nat>, t: nat, i: nat, e: nat): (mem': seq<nat>)
    ensures |mem'| == |mem| && (ENTRIES * t + i < |mem| ==> Wrote(mem, mem', t, i, e))
  {
    if ENTRIES * t + i < |mem| then mem[ENTRIES * t + i := e] else mem
  }

  /** pg_table_alloc */
  function NewTable(s: Paged): Paged {
    Paged(ClearPage(s.mem, Granted(s.lows)), Later(s.lows))
  }

  /** page.c:149-151: a new table behind entry `i` of the table in page `t`. */
  function AddTable(s: Paged, t: nat, i: nat): Paged {
    var s1 := NewTable(s);
    s1.(mem := Put(s1.mem, t, i, TableEntry(EntryAt(s1.mem, t, i), Granted(s.lows))))
  }

  /** __mmap_2mb, whatever memory holds. */
  function Mmap(s: Paged, t: nat, v: nat, p: nat, level: nat, user: bool): Paged
    requires PD <= level <= PML4
    decreases level
  {
    var i := Index(v, level);
    if level == PD then s.(mem := Put(s.mem, t, i, PageEntry(EntryAt(s.mem, t, i), p, user)))
    else
      var s1 := if Present(EntryAt(s.mem, t, i)) then s else AddTable(s, t, i);
      Mmap(s1, Child(EntryAt(s1.mem, t, i)), v, p, level - 1, user)
  }

  /** The pages that can be granted are enough for `n` new tables, and the first `n` are none yet. */
  ghost predicate Stock(lows: seq<nat>, tables: Tables, n: nat) {
    && LowPages(lows) && n <= |lows| + 1
    && forall j: nat :: j < n ==> (lows + [HALF])[j] !in tables.Values
  }

  predicate AllIn(some: seq<nat>, pages: seq<nat>) {
    forall c :: c in some ==> c in pages
  }

  lemma StockUsed(lows: seq<nat>, tables: Tables, n: nat, key: seq<nat>)
    requires Stock(lows, tables, n + 1) && key !in tables
    ensures Granted(lows) !in tables.Values && Granted(lows) <= HALF && Granted(lows) in lows + [HALF]
    ensures Stock(Later(lows), tables[key := Granted(lows)], n)
    ensures AllIn(Later(lows) + [HALF], lows + [HALF])
  {
    var c, pool := Granted(lows), lows + [HALF];
    assert pool[0] == c;
    if |lows| > 0 {
      assert Later(lows) + [HALF] == pool[1..];
      forall j: nat | j < n
        ensures pool[1..][j] !in tables[key := c].Values
      {
        assert pool[1..][j] == pool[j + 1] && pool[j + 1] !in tables.Values;
      }
    }
  }

  /** The tables are in these pages. */
  ghost predicate Within(tables: Tables, pages: seq<nat>) {
    forall k :: k in tables ==> tables[k] in pages
  }

  /** A table is added where there is none: nothing is translated differently. */
  lemma AddTableKeeps(s: Paged, tables: Tables, root: nat, k: seq<nat>, i: nat, n: nat)
    requires Tree(s.mem, tables, root) && k in tables && |k| < 2 && i < ENTRIES && k + [i] !in tables
    requires Stock(s.lows, tables, n + 1) && ENTRIES * (HALF + 1) <= |s.mem|
    ensures var s', more := AddTable(s, tables[k], i), tables[k + [i] := Granted(s.lows)];
      && |s'.mem| == |s.mem| && s'.lows == Later(s.lows)
      && Tree(s'.mem, more, root) && Stock(s'.lows, more, n) && OnlyTables(s.mem, s'.mem, more)
      && (forall v: nat :: Translate(s'.mem, root, v) == Translate(s.mem, root, v))
      && Present(EntryAt(s'.mem, tables[k], i)) && Child(EntryAt(s'.mem, tables[k], i)) == Granted(s.lows)
      && (LinksAre(s.mem, tables, 0x7) ==> LinksAre(s'.mem, more, 0x7)) && LeavesKept(s.mem, s'.mem, tables, more)
  {
    hide LinksAre, LeavesKept, Low;
    hide Tree, EntryAt, Present, Child, Pow2, TableEntry, Walk, OnlyTables, Translate, Cleared, Stock, Granted, Later, Wrote,
         ClearPage, Put;
    var c := Granted(s.lows);
    var cleared := ClearPage(s.mem, c);
    var s' := AddTable(s, tables[k], i);
    PageInMemory(s.mem, tables, root, k);
    StockUsed(s.lows, tables, n, k + [i]);
    LowPage(c);
    ClearedSize(s.mem, cleared, c);
    LinkDone(s.mem, cleared, s'.mem, tables, root, k, i, c);
    LinkedElsewhere(s.mem, s'.mem, tables, k, i, c);
    LinkedLeaves(s.mem, s'.mem, tables, root, k, i, c);
    LinkEntry(cleared, s'.mem, tables[k], i, c);
    if LinksAre(s.mem, tables, 0x7) {
      LinkedFlags(s.mem, s'.mem, tables, root, k, i, c, 0x7);
    }
  }

  lemma LinkEntry(mem: seq<nat>, mem': seq<nat>, t: nat, i: nat, c: nat)
    requires Wrote(mem, mem', t, i, TableEntry(EntryAt(mem, t, i), c)) && c < Pow2(28)
    ensures Low(EntryAt(mem', t, i), 12) == 0x7
  {
    hide Pow2, Low, TableEntry;
    TableEntryReads(EntryAt(mem, t, i), c);
  }

  lemma LowPage(c: nat)
    requires c <= HALF
    ensures c < Pow2(28)
  {
    hide Pow2;
    Pow2Mono(6, 28);
    SmallPowers();
  }

  lemma ClearedSize(mem: seq<nat>, mem': seq<nat>, c: nat)
    requires Cleared(mem, mem', c)
    ensures |mem'| == |mem|
  {
  }

  /**
   Mapping one page below a table of the tree, with as many further tables in stock as are missing and `more`: the tree
   grows by the path, one page is translated anew, and no other page of memory is touched.
   */
  lemma {:induction false} MmapKeeps(s: Paged, tables: Tables, root: nat, v: nat, p: nat, level: nat, user: bool, more: nat,
                                     pages: seq<nat>)
    returns (tables': Tables)
    requires PD <= level <= PML4 && Path(v)[..PML4 - level] in tables
    requires Tree(s.mem, tables, root) && ENTRIES * (HALF + 1) <= |s.mem|
    requires Stock(s.lows, tables, Missing(tables, v, PML4 - level) + more)
    requires Within(tables, pages) && AllIn(s.lows + [HALF], pages)
    ensures var s' := Mmap(s, tables[Path(v)[..PML4 - level]], v, p, level, user);
      && |s'.mem| == |s.mem| && Tree(s'.mem, tables', root) && Stock(s'.lows, tables', more)
      && Grown(tables, tables', v) && OnlyTables(s.mem, s'.mem, tables') && Remapped(s.mem, s'.mem, root, v, p)
      && Within(tables', pages) && AllIn(s'.lows + [HALF], pages)
      && (LinksAre(s.mem, tables, 0x7) ==> LinksAre(s'.mem, tables', 0x7))
      && LeafSet(s.mem, s'.mem, tables, tables', v, if user then 0x87 else 0x83)
    decreases level
  {
    hide LinksAre, LeafSet, LeavesKept;
    hide Tree, EntryAt, Present, Child, Translate, OnlyTables, Stock, Index, Grown, Missing, Remapped, PageEntry, AddTable, Put,
         Pow2;
    var k, i := Path(v)[..PML4 - level], Index(v, level);
    PageInMemory(s.mem, tables, root, k);
    if level == PD {
      var e := EntryAt(s.mem, tables[k], i);
      FinalWrite(s.mem, Put(s.mem, tables[k], i, PageEntry(e, p, user)), tables, root, v, p, user);
      NoneMissing(tables, v);
      tables' := tables;
      return;
    }
    OneDown(s.mem, tables, root, v, level);
    var s1, tables1 := s, tables;
    AllKept(s.mem, tables);
    if !Present(EntryAt(s.mem, tables[k], i)) {
      var n := Missing(tables, v, PML4 - level + 1) + more;
      s1, tables1 := AddTable(s, tables[k], i), tables[k + [i] := Granted(s.lows)];
      AddTableKeeps(s, tables, root, k, i, n);
      StockUsed(s.lows, tables, n, k + [i]);
      StillMissing(tables, tables1, v, PML4 - level, Granted(s.lows));
      OneDown(s1.mem, tables1, root, v, level);
      assert Within(tables1, pages) && AllIn(s1.lows + [HALF], pages);
    }
    tables' := MmapKeeps(s1, tables1, root, v, p, level - 1, user, more, pages);
    var mem' := Mmap(s1, tables1[k + [i]], v, p, level - 1, user).mem;
    Together(s.mem, s1.mem, mem', tables, tables1, tables', root, v, p, level);
    KeptThenSet(s.mem, s1.mem, mem', tables, tables1, tables', v, if user then 0x87 else 0x83);
  }

  class PageTables {
    const allocator: NaiveAllocator
    const mem: array<nat>

    constructor (a: NaiveAllocator, memory: array<nat>)
      ensures allocator == a && mem == memory
    {
      allocator, mem := a, memory;
    }

    /** The machine has more than 33 pages, there is memory for each, and it is kept apart from the bitmap. */
    ghost predicate Roomy() {
      && allocator.Valid() && mem != allocator.allocBitmap
      && mem.Length == ENTRIES * allocator.maxPage && HALF + 1 < allocator.maxPage <= Pow2(28)
    }

    ghost function State(): Paged
      requires Roomy()
      reads mem, allocator.allocBitmap
    {
      Paged(mem[..], FreeFrom(allocator.allocBitmap[..], 0))
    }

    /** pg_table_alloc; the page's number. */
    method PgTableAlloc() returns (c: nat)
      requires Roomy()
      modifies mem, allocator.allocBitmap
      ensures c == Granted(old(State()).lows) && State() == NewTable(old(State()))
      ensures PageMarked(old(allocator.allocBitmap[..]), allocator.allocBitmap[..], c)
    {
      hide FirstFit, Marked, Pow2, FreeFrom, Granted, Later;
      ghost var bits, was := allocator.allocBitmap[..], mem[..];
      NextGrant(bits, allocator.maxPage);
      GrantIs(bits);
      var r := allocator.AllocPages(1, 1);
      c := r.value;
      GrantTaken(bits, allocator.allocBitmap[..], c, 0);
      var base, i := ENTRIES * c, 0;
      while i < ENTRIES
        invariant 0 <= i <= ENTRIES && base + ENTRIES <= mem.Length
        invariant forall a: nat :: a < mem.Length ==> mem[a] == if base <= a < base + i then 0 else was[a]
        invariant PageMarked(bits, allocator.allocBitmap[..], c)
        invariant FreeFrom(allocator.allocBitmap[..], 0) == Later(FreeFrom(bits, 0))
      {
        mem[base + i] := 0;
        i := i + 1;
      }
      assert mem[..] == ClearPage(was, c);
    }

    /** page.c:125-158 */
    method Mmap2mb(table: nat, v: nat, p: nat, level: nat, user: bool)
      requires Roomy() && PD <= level <= PML4
      modifies mem, allocator.allocBitmap
      ensures State() == Mmap(old(State()), table, v, p, level, user)
      decreases level
    {
      hide EntryAt, Present, Child, PageEntry, TableEntry, Index, FreeFrom, Granted, Later, ClearPage, Put, Pow2;
      var i := Index(v, level);
      if level == PD {
        var e := ReadEntry(table, i);
        WriteEntry(table, i, PageEntry(e, p, user));
        return;
      }
      var e := ReadEntry(table, i);
      if !Present(e) {
        var c := PgTableAlloc();
        e := ReadEntry(table, i);
        WriteEntry(table, i, TableEntry(e, c));
        e := ReadEntry(table, i);
      }
      Mmap2mb(Child(e), v, p, level - 1, user);
    }

    method ReadEntry(table: nat, i: nat) returns (e: nat)
      requires Roomy()
      ensures e == EntryAt(mem[..], table, i)
    {
      e := if ENTRIES * table + i < mem.Length then mem[ENTRIES * table + i] else 0;
    }

    method WriteEntry(table: nat, i: nat, e: nat)
      requires Roomy()
      modifies mem
      ensures State() == old(State()).(mem := Put(old(mem[..]), table, i, e))
    {
      if ENTRIES * table + i < mem.Length {
        mem[ENTRIES * table + i] := e;
      }
    }

    /** mmap_pml4 */
    method MmapPml4(pml4: nat, v: nat, p: nat, user: bool)
      requires Roomy()
      modifies mem, allocator.allocBitmap
      ensures State() == Mmap(old(State()), pml4, v, p, PML4, user)
    {
      Mmap2mb(pml4, v, p, PML4, user);
    }
  }
}
